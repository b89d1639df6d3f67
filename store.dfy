/** The local `Joke` table: rows keyed by their integer primary key `_id`,
    the upsert that writes them and the read sorted by `_id`. */
module JokeStore {
  import opened Jokes

  /** The table's primary key is `_id`: every row is stored under its own id. */
  predicate KeyedById(t: map<int, Joke>) {
    forall id :: id in t ==> t[id].id == id
  }

  /** The ids of a sequence of jokes. */
  function IdsOf(js: seq<Joke>): set<int> {
    set j | j in js :: j.id
  }

  /** No later joke of `js` has the id of `js[i]`. */
  predicate LastOfItsId(js: seq<Joke>, i: nat)
    requires i < |js|
  {
    forall k :: i < k < |js| ==> js[k].id != js[i].id
  }

  /** No two jokes of `js` share an id. */
  predicate DistinctIds(js: seq<Joke>) {
    forall i, k :: 0 <= i < k < |js| ==> js[i].id != js[k].id
  }

  /** The table after upserting `js` one by one, each replacing the row with
      its id (`Realm.UpdateMode.All`). */
  function UpsertAll(t: map<int, Joke>, js: seq<Joke>): (r: map<int, Joke>)
    ensures r.Keys == t.Keys + IdsOf(js)
    ensures KeyedById(t) ==> KeyedById(r)
    ensures forall id :: id in t && id !in IdsOf(js) ==> r[id] == t[id]
    decreases |js|
  {
    if js == [] then t
    else
      var init, last := js[..|js| - 1], js[|js| - 1];
      assert IdsOf(js) == IdsOf(init) + {last.id} by {
        assert js == init + [last];
      }
      UpsertAll(t, init)[last.id := last]
  }

  /** Each id ends up holding the last upserted joke with that id. */
  lemma {:induction false} UpsertAllLastWins(t: map<int, Joke>, js: seq<Joke>, i: nat)
    requires i < |js| && LastOfItsId(js, i)
    ensures js[i].id in UpsertAll(t, js) && UpsertAll(t, js)[js[i].id] == js[i]
    decreases |js|
  {
    var init, last := js[..|js| - 1], js[|js| - 1];
    if i < |js| - 1 {
      assert LastOfItsId(init, i) by {
        forall k | i < k < |init|
          ensures init[k].id != init[i].id
        {
          assert init[k] == js[k];
        }
      }
      UpsertAllLastWins(t, init, i);
      assert js[i].id != last.id;
    }
  }

  /** A set with no member is the empty set. */
  lemma NoMemberMeansEmpty(s: set<int>)
    requires forall y :: y !in s
    ensures s == {}
  {
    assert forall y :: y in s <==> y in {};
  }

  /** Some id of a non-empty set. */
  lemma SomeId(s: set<int>) returns (y: int)
    requires s != {}
    ensures y in s
  {
    if forall y :: y !in s {
      NoMemberMeansEmpty(s);
      assert false;
    }
    y :| y in s;
  }

  /** The least element of a non-empty set of ids exists. */
  lemma {:induction false} MinExists(s: set<int>)
    requires s != {}
    ensures exists m :: m in s && forall x :: x in s ==> m <= x
    decreases |s|
  {
    var y := SomeId(s);
    var rest := s - {y};
    if rest == {} {
      forall x | x in s
        ensures y <= x
      {
        assert x !in rest;
      }
    } else {
      MinExists(rest);
      var m :| m in rest && forall x :: x in rest ==> m <= x;
      assert forall x :: x in s ==> x == y || x in rest;
      if y < m {
        assert forall x :: x in s ==> y <= x;
      } else {
        assert m in s && forall x :: x in s ==> m <= x;
      }
    }
  }

  function MinKey(s: set<int>): (m: int)
    requires s != {}
    ensures m in s && forall x :: x in s ==> m <= x
  {
    MinExists(s);
    var m :| m in s && forall x :: x in s ==> m <= x;
    m
  }

  predicate StrictlyAscending(ks: seq<int>) {
    forall i, k :: 0 <= i < k < |ks| ==> ks[i] < ks[k]
  }

  predicate AscendingIds(js: seq<Joke>) {
    forall i, k :: 0 <= i < k < |js| ==> js[i].id < js[k].id
  }

  /** The ids of a set, least first. */
  function SortedKeys(s: set<int>): (ks: seq<int>)
    ensures StrictlyAscending(ks)
    ensures forall i :: 0 <= i < |ks| ==> ks[i] in s
    ensures forall x :: x in s ==> x in ks
    decreases |s|
  {
    if s == {} then []
    else
      var m := MinKey(s);
      [m] + SortedKeys(s - {m})
  }

  /** The rows of `t` under the keys `ks`, in the order of `ks`. */
  function RowsAt(t: map<int, Joke>, ks: seq<int>): (r: seq<Joke>)
    requires forall i :: 0 <= i < |ks| ==> ks[i] in t
    ensures |r| == |ks| && forall i :: 0 <= i < |ks| ==> r[i] == t[ks[i]]
  {
    seq(|ks|, i requires 0 <= i < |ks| => t[ks[i]])
  }

  /** Listing the rows under ascending keys lists them by ascending id. */
  lemma RowsAtAscending(t: map<int, Joke>, ks: seq<int>)
    requires KeyedById(t) && StrictlyAscending(ks)
    requires forall i :: 0 <= i < |ks| ==> ks[i] in t
    ensures AscendingIds(RowsAt(t, ks))
  {
    var r := RowsAt(t, ks);
    assert forall i :: 0 <= i < |r| ==> r[i].id == ks[i];
  }

  /** Listing the rows under all the keys lists every row, and only rows. */
  lemma RowsAtCovers(t: map<int, Joke>, ks: seq<int>)
    requires KeyedById(t)
    requires forall i :: 0 <= i < |ks| ==> ks[i] in t
    requires forall id :: id in t ==> id in ks
    ensures forall id :: id in t ==> t[id] in RowsAt(t, ks)
    ensures forall j :: j in RowsAt(t, ks) ==> j.id in t && t[j.id] == j
  {
    var r := RowsAt(t, ks);
    forall id | id in t
      ensures t[id] in r
    {
      var i :| 0 <= i < |ks| && ks[i] == id;
      assert r[i] == t[id];
    }
    forall j | j in r
      ensures j.id in t && t[j.id] == j
    {
      var i :| 0 <= i < |r| && r[i] == j;
      assert ks[i] in t && j == t[ks[i]];
      assert j.id == ks[i];
    }
  }

  /** The rows of the table sorted by `_id`: `realm.objects('Joke').sorted('_id')`. */
  function SortedRows(t: map<int, Joke>): (r: seq<Joke>)
    requires KeyedById(t)
    ensures AscendingIds(r)
    ensures forall id :: id in t ==> t[id] in r
    ensures forall j :: j in r ==> j.id in t && t[j.id] == j
  {
    var ks := SortedKeys(t.Keys);
    RowsAtCovers(t, ks);
    RowsAtAscending(t, ks);
    RowsAt(t, ks)
  }

  /** The last index at or after `i` whose joke has the id of `js[i]`. */
  lemma {:induction false} LastIndexOfId(js: seq<Joke>, i: nat) returns (k: nat)
    requires i < |js|
    ensures i <= k < |js| && js[k].id == js[i].id && LastOfItsId(js, k)
    decreases |js| - i
  {
    var later := set k' | i < k' < |js| && js[k'].id == js[i].id;
    if later == {} {
      k := i;
      forall k' | i < k' < |js|
        ensures js[k'].id != js[i].id
      {
        assert k' !in later;
      }
    } else {
      var k' :| k' in later;
      k := LastIndexOfId(js, k');
    }
  }

  /** Every row read back after a save is a joke of the window. */
  lemma SavedRowsWereViewed(viewed: seq<Joke>)
    ensures forall j :: j in SortedRows(UpsertAll(map[], viewed)) ==> j in viewed
  {
    var t := UpsertAll(map[], viewed);
    forall j | j in SortedRows(t)
      ensures j in viewed
    {
      assert j.id in IdsOf(viewed);
      var i :| 0 <= i < |viewed| && viewed[i].id == j.id;
      var last := LastIndexOfId(viewed, i);
      UpsertAllLastWins(map[], viewed, last);
    }
  }

  /** The last viewed joke of each id is read back after a save. */
  lemma LatestViewedAreSaved(viewed: seq<Joke>)
    ensures forall i :: 0 <= i < |viewed| && LastOfItsId(viewed, i) ==>
      viewed[i] in SortedRows(UpsertAll(map[], viewed))
  {
    forall i | 0 <= i < |viewed| && LastOfItsId(viewed, i)
      ensures viewed[i] in SortedRows(UpsertAll(map[], viewed))
    {
      UpsertAllLastWins(map[], viewed, i);
    }
  }

  /** Saving the window and reading it back: the table holds exactly the
      ids of the window, each under the last viewed joke with that id, and
      the read gives those rows, and nothing else, sorted by id. */
  lemma SaveThenLoad(viewed: seq<Joke>)
    ensures KeyedById(UpsertAll(map[], viewed))
    ensures UpsertAll(map[], viewed).Keys == IdsOf(viewed)
    ensures var r := SortedRows(UpsertAll(map[], viewed));
      && AscendingIds(r)
      && (forall j :: j in r ==> j in viewed)
      && (forall i :: 0 <= i < |viewed| && LastOfItsId(viewed, i) ==> viewed[i] in r)
  {
    SavedRowsWereViewed(viewed);
    LatestViewedAreSaved(viewed);
  }

  /** When the window's ids are distinct (three different jokes), saving
      and reading back gives exactly the window's jokes, sorted by id. */
  lemma SaveThenLoadDistinct(viewed: seq<Joke>)
    requires DistinctIds(viewed)
    ensures var r := SortedRows(UpsertAll(map[], viewed));
      AscendingIds(r) && forall j :: j in r <==> j in viewed
  {
    SavedRowsWereViewed(viewed);
    LatestViewedAreSaved(viewed);
    forall j | j in viewed
      ensures j in SortedRows(UpsertAll(map[], viewed))
    {
      var i :| 0 <= i < |viewed| && viewed[i] == j;
      assert LastOfItsId(viewed, i);
    }
  }
}

/** Jokes, the viewed-jokes window and the offline rotation of the joke app.
    These are the pure pieces of the `App` component: the window update of a
    successful network fetch and the cyclic lookup of an offline fetch. */
module Jokes {

  /** A joke as the remote API returns it and as the local table stores it. */
  datatype Joke = Joke(id: int, setup: string, punchline: string)

  /** The outcome of the HTTP request: the joke, or a thrown request error. */
  datatype FetchOutcome = Success(joke: Joke) | Failure

  /** JavaScript's `null` or a value. */
  datatype Option<T> = None | Some(value: T)

  /** The viewed-jokes window keeps this many jokes (`slice(-3)`). */
  const WindowSize: nat := 3

  const NoStoredJokesMessage: string :=
    "No stored jokes available. Please check your internet connection."
  const FetchFailedMessage: string :=
    "Failed to fetch joke. Please check your internet connection."

  function Min(a: int, b: int): int { if a <= b then a else b }

  /** `r` is a (possibly empty) tail end of `s`. */
  predicate IsSuffix<T(==)>(r: seq<T>, s: seq<T>) {
    |r| <= |s| && r == s[|s| - |r|..]
  }

  /** The last `n` elements of `s`, or all of `s` when it is shorter. */
  function TakeLast<T(==)>(s: seq<T>, n: nat): (r: seq<T>)
    ensures |r| == Min(|s|, n)
    ensures IsSuffix(r, s)
  {
    if |s| <= n then s else s[|s| - n..]
  }

  /** The viewed-jokes window after a successful fetch of `j`:
      `[...prev, j].slice(-3)`. */
  function Windowed(prev: seq<Joke>, j: Joke): (r: seq<Joke>)
    ensures |r| == Min(|prev| + 1, WindowSize)
  {
    TakeLast(prev + [j], WindowSize)
  }

  /** The window keeps the most recent jokes in arrival order: it ends with
      `j`, it is the tail end of the old window followed by `j`, and nothing
      is dropped while there is room. */
  lemma WindowedKeepsOrder(prev: seq<Joke>, j: Joke)
    ensures Windowed(prev, j)[|Windowed(prev, j)| - 1] == j
    ensures IsSuffix(Windowed(prev, j), prev + [j])
    ensures |prev| < WindowSize ==> Windowed(prev, j) == prev + [j]
  {
  }

  /** The window after the successful fetches `js`, one after another. */
  function AfterFetches(prev: seq<Joke>, js: seq<Joke>): (r: seq<Joke>)
    ensures js != [] ==> |r| <= WindowSize
    decreases |js|
  {
    if js == [] then prev else AfterFetches(Windowed(prev, js[0]), js[1..])
  }

  /** Cutting to the last `n` first and then appending changes nothing in
      the last `n` elements. */
  lemma {:induction false} TakeLastAbsorbs<T>(s: seq<T>, t: seq<T>, n: nat)
    ensures TakeLast(TakeLast(s, n) + t, n) == TakeLast(s + t, n)
  {
    if |s| > n {
      var u := TakeLast(s, n);
      assert u == s[|s| - n..];
      if |u + t| > n {
        assert (s + t)[|s + t| - n..] == (u + t)[|u + t| - n..];
      } else {
        assert |t| == 0;
        assert s + t == s;
        assert u + t == u;
      }
    }
  }

  /** Appending the first of `js`, cutting, then appending the rest, cuts
      the same as appending all of `js`. */
  lemma TakeLastStep<T>(prev: seq<T>, js: seq<T>, n: nat)
    requires js != []
    ensures TakeLast(TakeLast(prev + [js[0]], n) + js[1..], n) == TakeLast(prev + js, n)
  {
    TakeLastAbsorbs(prev + [js[0]], js[1..], n);
    assert js == [js[0]] + js[1..];
    assert prev + [js[0]] + js[1..] == prev + js;
  }

  /** However many jokes arrive, the window holds the last three of all of
      them, in arrival order. */
  lemma {:induction false} AfterFetchesKeepsLatest(prev: seq<Joke>, js: seq<Joke>)
    requires |prev| <= WindowSize
    ensures AfterFetches(prev, js) == TakeLast(prev + js, WindowSize)
    ensures |AfterFetches(prev, js)| <= WindowSize
    decreases |js|
  {
    if js != [] {
      var s, t := prev + [js[0]], js[1..];
      var w := TakeLast(s, WindowSize);
      assert AfterFetches(prev, js) == AfterFetches(w, t);
      AfterFetchesKeepsLatest(w, t);
      TakeLastStep(prev, js, WindowSize);
    }
  }

  /** The joke an offline fetch serves: `storedJokes[currentIndex % storedJokes.length]`. */
  function Pick(stored: seq<Joke>, index: nat): (r: Joke)
    requires |stored| > 0
    ensures r in stored
  {
    stored[index % |stored|]
  }

  /** The jokes shown by `n` consecutive offline fetches that start at index `start`. */
  function Served(stored: seq<Joke>, start: nat, n: nat): (r: seq<Joke>)
    requires |stored| > 0
    ensures |r| == n
    decreases n
  {
    if n == 0 then [] else [Pick(stored, start)] + Served(stored, start + 1, n - 1)
  }

  lemma {:induction false} ServedAt(stored: seq<Joke>, start: nat, n: nat, k: nat)
    requires |stored| > 0 && k < n
    ensures Served(stored, start, n)[k] == stored[(start + k) % |stored|]
    decreases n
  {
    if k > 0 {
      ServedAt(stored, start + 1, n - 1, k - 1);
    }
  }

  /** One more offline fetch appends the joke at the next index to those shown. */
  lemma {:induction false} ServedSnoc(stored: seq<Joke>, start: nat, n: nat)
    requires |stored| > 0
    ensures Served(stored, start, n + 1) == Served(stored, start, n) + [Pick(stored, start + n)]
    decreases n
  {
    if n > 0 {
      ServedSnoc(stored, start + 1, n - 1);
      assert start + 1 + (n - 1) == start + n;
    }
  }

  lemma {:induction false} MulAtLeast(n: nat, k: nat)
    requires k >= 1
    ensures n * k >= n
  {
    if k > 1 {
      MulAtLeast(n, k - 1);
      assert n * k == n * (k - 1) + n;
    }
  }

  /** The remainder is the only `r` in `[0, n)` with `a == n * d + r`. */
  lemma ModUnique(a: int, n: int, d: int, r: int)
    requires n > 0 && 0 <= r < n && a == n * d + r
    ensures a % n == r
  {
    var d', r' := a / n, a % n;
    assert a == n * d' + r';
    if d > d' {
      MulAtLeast(n, d - d');
      assert false;
    } else if d < d' {
      MulAtLeast(n, d' - d);
      assert false;
    }
  }

  lemma ModPlusPeriod(a: nat, n: nat)
    requires n > 0
    ensures (a + n) % n == a % n
  {
    var q := a / n;
    assert a == n * q + a % n;
    assert a + n == n * (q + 1) + a % n;
    ModUnique(a + n, n, q + 1, a % n);
  }

  /** A full round of `N` offline fetches shows the stored jokes rotated to
      start at `start % N`: each stored joke exactly once, in stored order. */
  lemma OfflineRoundIsRotation(stored: seq<Joke>, start: nat)
    requires |stored| > 0
    ensures var s := start % |stored|;
      Served(stored, start, |stored|) == stored[s..] + stored[..s]
  {
    var n := |stored|;
    var s := start % n;
    var r := Served(stored, start, n);
    var rot := stored[s..] + stored[..s];
    forall k | 0 <= k < n
      ensures r[k] == rot[k]
    {
      ServedAt(stored, start, n, k);
      if k < n - s {
        ModUnique(start + k, n, start / n, s + k);
      } else {
        ModUnique(start + k, n, start / n + 1, k - (n - s));
      }
    }
  }

  /** A full round of offline fetches visits every stored joke: the jokes
      shown are a permutation of the stored ones. */
  lemma OfflineRoundVisitsAll(stored: seq<Joke>, start: nat)
    requires |stored| > 0
    ensures multiset(Served(stored, start, |stored|)) == multiset(stored)
    ensures forall j :: j in stored ==> j in Served(stored, start, |stored|)
  {
    var s := start % |stored|;
    OfflineRoundIsRotation(stored, start);
    assert stored == stored[..s] + stored[s..];
    assert multiset(stored) == multiset(stored[..s]) + multiset(stored[s..]);
    forall j | j in stored
      ensures j in Served(stored, start, |stored|)
    {
      assert j in multiset(stored);
    }
  }

  /** The rotation has period `N`: starting `N` fetches later shows the same jokes. */
  lemma {:induction false} OfflinePeriodic(stored: seq<Joke>, start: nat, n: nat)
    requires |stored| > 0
    ensures Served(stored, start + |stored|, n) == Served(stored, start, n)
    decreases n
  {
    if n > 0 {
      ModPlusPeriod(start, |stored|);
      assert Pick(stored, start + |stored|) == Pick(stored, start);
      OfflinePeriodic(stored, start + 1, n - 1);
      assert start + |stored| + 1 == start + 1 + |stored|;
    }
  }

  /** Stored jokes 1, 2, 3 from index 0 are served as 1, 2, 3, 1. */
  lemma OfflineRotationExample(a: Joke, b: Joke, c: Joke)
    ensures Served([a, b, c], 0, 4) == [a, b, c, a]
  {
  }
}

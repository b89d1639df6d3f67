/** The `App` component: its state fields, the local `Joke` table, and the
    handlers that update them. A handler reads the state when it starts and
    commits its updates when it ends; handlers run one at a time. */
module JokeApp {
  import opened Jokes
  import opened JokeStore

  /** The mount effect asks for this many jokes at once, and does so when
      fewer than this many are stored. */
  const SeedSize: nat := 3

  /** The responses of `Promise.all` over the seed requests: every joke in
      request order when all succeed, nothing when any fails. */
  function AllFetched(rs: seq<FetchOutcome>): (r: Option<seq<Joke>>)
    ensures r.Some? <==> forall i :: 0 <= i < |rs| ==> rs[i].Success?
    ensures r.Some? ==> |r.value| == |rs| && forall i :: 0 <= i < |rs| ==> r.value[i] == rs[i].joke
    decreases |rs|
  {
    if rs == [] then Some([])
    else match rs[0]
      case Failure => None
      case Success(j) =>
        match AllFetched(rs[1..])
        case None => None
        case Some(js) => Some([j] + js)
  }

  class App {
    var joke: Option<Joke>
    var error: Option<string>
    var storedJokes: seq<Joke>
    var loading: bool
    var currentIndex: nat
    var viewedJokes: seq<Joke>
    var online: bool
    /** The local `Joke` collection, each row stored under its `_id`. */
    var table: map<int, Joke>

    /** The window never holds more than three jokes, the table is keyed by
        its primary key, and the stored jokes are in ascending id order. */
    ghost predicate Valid()
      reads this
    {
      && |viewedJokes| <= WindowSize
      && KeyedById(table)
      && AscendingIds(storedJokes)
    }

    /** The first render, over the table already on the device. */
    constructor (persisted: map<int, Joke>)
      requires KeyedById(persisted)
      ensures Valid()
      ensures joke == None && error == None && storedJokes == [] && !loading
      ensures currentIndex == 0 && viewedJokes == [] && online
      ensures table == persisted
    {
      joke, error, storedJokes, loading := None, None, [], false;
      currentIndex, viewedJokes, online := 0, [], true;
      table := persisted;
    }

    /** Reads the table sorted by `_id` into `storedJokes`. */
    method FetchStoredJokes()
      requires Valid()
      modifies this`storedJokes
      ensures Valid()
      ensures storedJokes == SortedRows(table)
    {
      storedJokes := SortedRows(table);
    }

    /** "Get Another Joke": the network when the mode flag or the device's
        connectivity says so, otherwise the next stored joke in rotation. */
    method FetchJoke(connected: bool, response: FetchOutcome)
      requires Valid()
      modifies this`joke, this`error, this`currentIndex, this`viewedJokes, this`loading
      ensures Valid() && !loading
      // the network path, taken exactly when the mode flag or the device is online
      ensures (online || connected) ==> currentIndex == old(currentIndex)
      ensures (online || connected) && response.Success? ==>
        && joke == Some(response.joke)
        && viewedJokes == Windowed(old(viewedJokes), response.joke)
        && error == None
      ensures (online || connected) && response.Failure? ==>
        && error == Some(FetchFailedMessage)
        && joke == old(joke) && viewedJokes == old(viewedJokes)
      // the offline path
      ensures !(online || connected) ==> viewedJokes == old(viewedJokes)
      ensures !(online || connected) && |storedJokes| > 0 ==>
        && joke == Some(Pick(storedJokes, old(currentIndex)))
        && currentIndex == old(currentIndex) + 1
        && error == old(error)
      ensures !(online || connected) && |storedJokes| == 0 ==>
        && error == Some(NoStoredJokesMessage)
        && joke == old(joke) && currentIndex == old(currentIndex)
    {
      loading := true;
      if online || connected {
        ShowResponse(response);
      } else {
        ShowNextStored();
      }
      loading := false;
    }

    /** The network path of `FetchJoke`: show the fetched joke and append it
        to the window, or report the failed request. */
    method ShowResponse(response: FetchOutcome)
      requires Valid()
      modifies this`joke, this`error, this`viewedJokes
      ensures Valid()
      ensures response.Success? ==>
        && joke == Some(response.joke)
        && viewedJokes == Windowed(old(viewedJokes), response.joke)
        && error == None
      ensures response.Failure? ==>
        && error == Some(FetchFailedMessage)
        && joke == old(joke) && viewedJokes == old(viewedJokes)
    {
      if response.Success? {
        var j := response.joke;
        joke := Some(j);
        viewedJokes := Windowed(viewedJokes, j);
        error := None;
      } else {
        error := Some(FetchFailedMessage);
      }
    }

    /** The offline path of `FetchJoke`: show the stored joke at the current
        index modulo their number and advance the index, or report that
        nothing is stored. */
    method ShowNextStored()
      requires Valid()
      modifies this`joke, this`error, this`currentIndex
      ensures Valid()
      ensures |storedJokes| > 0 ==>
        && joke == Some(Pick(storedJokes, old(currentIndex)))
        && currentIndex == old(currentIndex) + 1
        && error == old(error)
      ensures |storedJokes| == 0 ==>
        && error == Some(NoStoredJokesMessage)
        && joke == old(joke) && currentIndex == old(currentIndex)
    {
      if |storedJokes| > 0 {
        joke := Some(Pick(storedJokes, currentIndex));
        currentIndex := currentIndex + 1;
      } else {
        error := Some(NoStoredJokesMessage);
      }
    }

    /** The online/offline switch. */
    method ToggleOnlineMode()
      requires Valid()
      modifies this`online
      ensures Valid()
      ensures online == !old(online)
    {
      online := !online;
    }

    /** "Save Jokes": in one write, delete every row, then upsert each viewed
        joke by id; then reload `storedJokes` from the table. */
    method SaveJokes()
      requires Valid()
      modifies this`table, this`storedJokes
      ensures Valid()
      ensures table == UpsertAll(map[], viewedJokes)
      ensures storedJokes == SortedRows(table)
    {
      table := map[];
      for i := 0 to |viewedJokes|
        invariant table == UpsertAll(map[], viewedJokes[..i])
        invariant storedJokes == old(storedJokes)
      {
        var j := viewedJokes[i];
        assert viewedJokes[..i + 1][..i] == viewedJokes[..i];
        table := table[j.id := j];
      }
      assert viewedJokes[..|viewedJokes|] == viewedJokes;
      FetchStoredJokes();
    }

    /** The connectivity listener: losing the connection reloads the stored jokes. */
    method OnConnectivityChange(isConnected: bool)
      requires Valid()
      modifies this`storedJokes
      ensures Valid()
      ensures !isConnected ==> storedJokes == SortedRows(table)
      ensures isConnected ==> storedJokes == old(storedJokes)
    {
      if !isConnected {
        FetchStoredJokes();
      }
    }

    /** Upserts each joke by id, one write per joke, onto the rows already there. */
    method UpsertEach(js: seq<Joke>)
      requires Valid()
      modifies this`table
      ensures Valid()
      ensures table == UpsertAll(old(table), js)
    {
      for i := 0 to |js|
        invariant KeyedById(table)
        invariant table == UpsertAll(old(table), js[..i])
      {
        assert js[..i + 1][..i] == js[..i];
        table := table[js[i].id := js[i]];
      }
      assert js[..|js|] == js;
    }

    /** The mount effect: reload the stored jokes; then, judged on the
        stored jokes of the render that scheduled the effect, seed the table
        with three fetched jokes, each upserted in its own write, and reload
        again. When any of the three requests fails nothing is written. */
    method Mount(responses: seq<FetchOutcome>)
      requires Valid()
      requires |responses| == SeedSize
      modifies this`table, this`storedJokes
      ensures Valid()
      ensures |old(storedJokes)| < SeedSize && AllFetched(responses).Some? ==>
        table == UpsertAll(old(table), AllFetched(responses).value)
      ensures !(|old(storedJokes)| < SeedSize && AllFetched(responses).Some?) ==>
        table == old(table)
      ensures storedJokes == SortedRows(table)
    {
      var rendered := storedJokes;
      FetchStoredJokes();
      if |rendered| < SeedSize {
        var fetched := AllFetched(responses);
        if fetched.Some? {
          UpsertEach(fetched.value);
          FetchStoredJokes();
        }
      }
    }
  }

  /** Flipping the switch twice restores the mode. */
  method ToggleTwice(app: App)
    requires app.Valid()
    modifies app`online
    ensures app.Valid()
    ensures app.online == old(app.online)
  {
    app.ToggleOnlineMode();
    app.ToggleOnlineMode();
  }

  /** Pressing "Get Another Joke" `n` times while offline and disconnected
      shows the stored jokes in rotation; a full round of `N` presses shows
      every stored joke once, and the window and error stay as they were. */
  method ReplayOffline(app: App, n: nat) returns (shown: seq<Joke>)
    requires app.Valid() && !app.online && |app.storedJokes| > 0
    modifies app`joke, app`error, app`currentIndex, app`viewedJokes, app`loading
    ensures app.Valid()
    ensures shown == Served(app.storedJokes, old(app.currentIndex), n)
    ensures n == |app.storedJokes| ==> multiset(shown) == multiset(app.storedJokes)
    ensures app.currentIndex == old(app.currentIndex) + n
    ensures app.viewedJokes == old(app.viewedJokes) && app.error == old(app.error)
  {
    ghost var start := app.currentIndex;
    var stored := app.storedJokes;
    shown := [];
    for k := 0 to n
      invariant app.Valid() && !app.online && app.storedJokes == stored
      invariant app.currentIndex == start + k
      invariant shown == Served(stored, start, k)
      invariant app.viewedJokes == old(app.viewedJokes) && app.error == old(app.error)
    {
      ServedSnoc(stored, start, k);
      app.FetchJoke(false, Failure);
      shown := shown + [app.joke.value];
    }
    if n == |stored| {
      OfflineRoundVisitsAll(stored, start);
    }
  }
}

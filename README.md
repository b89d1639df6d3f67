# Joke app: joke selection and the local joke store

This project models the logic of the single-screen joke app's `App`
component (`App.js`). The app shows a random joke. In online mode, or while
the device is connected, "Get Another Joke" asks a remote API for a joke.
The last three jokes fetched form the *viewed-jokes window*. "Save Jokes"
replaces the local `Joke` table with that window. When the app is offline
and disconnected, "Get Another Joke" serves the jokes read back from the
table, in rotation.

The component's state lives in the Dafny class `JokeApp.App`. Its fields
are the component's state fields `joke`, `error`, `storedJokes`, `loading`,
`currentIndex`, `viewedJokes` and `online`. A further field, `table`, holds
the local `Joke` collection as a `map<int, Joke>` keyed by the primary key
`_id`. Each handler is a method. It reads the state when it starts and
commits its updates before it ends. Its `modifies` clause names exactly the
state fields it may change, so every other field is unchanged.

The network and the device's connectivity are inputs. A request's outcome
is a `FetchOutcome`, either `Success(joke)` or `Failure`. Connectivity is a
boolean.

- `jokes.dfy` (module `Jokes`) holds the `Joke` datatype and the two
  messages. It also holds the window update `[...prev, j].slice(-3)` and the
  offline lookup `storedJokes[currentIndex % storedJokes.length]`, with
  lemmas about repeated fetches.
- `store.dfy` (module `JokeStore`) holds the table: upserts by id
  (`Realm.UpdateMode.All`), the read sorted by `_id`, and the save-then-load
  round trip.
- `app.dfy` (module `JokeApp`) holds the component as a class, plus two
  client methods built only from the handlers' contracts.

Three details of the code that the model keeps as written:
- The offline rotation serves `storedJokes`, the rows read back from the
  table. It does not serve the in-memory window.
- An offline fetch that serves a stored joke does not clear `error`. So an
  earlier error message stays on screen (App.js:39-42).
- The mount effect's guard `storedJokes.length < 3` reads the value from the
  render that scheduled the effect. At mount that value is always the empty
  initial list, so the seed requests are always sent (App.js:85-86).
  `JokeApp.App.Mount` checks the guard against the value held before its own
  reload.

## Model

| member | source | states |
|---|---|---|
| `Jokes.TakeLast` | App.js:36 | `slice(-3)`: the result is the tail end of the input, of length `min(len, n)`. It is used only with `n = 3`. For `n = 0` it gives the empty sequence, whereas JavaScript's `slice(-0)` gives the whole array |
| `Jokes.Windowed` | App.js:36 | after a successful fetch the window has `min(old length + 1, 3)` jokes, so it never exceeds three |
| `Jokes.WindowedKeepsOrder` | App.js:36 | the new window ends with the fetched joke; it is a tail end of the old window followed by that joke; nothing is dropped while the window has room |
| `Jokes.TakeLastStep` | App.js:36 | cutting to the last `n` after each arrival gives the same result as cutting once after all of them |
| `Jokes.AfterFetches` | App.js:36 | the window after a run of successful fetches, one after another: once any joke has arrived it holds at most three |
| `Jokes.AfterFetchesKeepsLatest` | App.js:36 | after any sequence of successful fetches the window is the last three of the old window followed by all the arrivals, in arrival order, and has at most three jokes |
| `Jokes.Pick` | App.js:40 | the joke an offline fetch serves, `storedJokes[currentIndex % storedJokes.length]`, is always one of the stored jokes |
| `Jokes.Served` | App.js:39-42 | the jokes shown by n consecutive offline fetches: exactly n of them, one per fetch |
| `Jokes.ServedAt` | App.js:40-42 | the k-th of n consecutive offline fetches that start at index `start` shows `stored[(start + k) % N]` |
| `Jokes.ServedSnoc` | App.js:40-42 | one more offline fetch appends `stored[(start + n) % N]` to the n jokes already shown; this is the step `JokeApp.ReplayOffline` uses to keep its loop invariant |
| `Jokes.OfflineRoundIsRotation` | App.js:39-42 | N consecutive offline fetches show the stored jokes rotated to begin at `start % N`: each once, in stored order |
| `Jokes.OfflineRoundVisitsAll` | App.js:39-42 | N consecutive offline fetches show a permutation of the stored jokes, so every stored joke is visited |
| `Jokes.OfflinePeriodic` | App.js:40 | the offline rotation has period N: starting N fetches later shows the same jokes |
| `Jokes.OfflineRotationExample` | App.js:40-42 | stored jokes 1, 2, 3 from index 0 are shown as 1, 2, 3, 1 |
| `JokeStore.KeyedById` | App.js:9 | `_id` is the primary key: every row of the table is stored under its own id. The handlers keep this invariant through `JokeApp.App.Valid` |
| `JokeStore.UpsertAll` | App.js:63-69 | upserting by id: the table's keys are its old keys plus the upserted ids; rows stay keyed by their `_id`; rows whose id is not upserted are kept unchanged |
| `JokeStore.UpsertAllLastWins` | App.js:64-68 | an id ends up holding the last upserted joke with that id (update mode `All` replaces the whole row) |
| `JokeStore.MinKey` | App.js:78 | the least id of a non-empty set of ids |
| `JokeStore.SortedKeys` | App.js:78 | the ids of the table in strictly ascending order, each exactly once |
| `JokeStore.SortedRows` | App.js:77-79 | reading the table sorted by `_id` gives every row and only rows, in strictly ascending id order, so no row appears twice (`_id` is the primary key, App.js:9) |
| `JokeStore.SavedRowsWereViewed` | App.js:61-71 | after a save, every row read back is a joke of the window |
| `JokeStore.LatestViewedAreSaved` | App.js:61-71 | after a save, the last viewed joke of each id is read back |
| `JokeStore.SaveThenLoad` | App.js:59-79 | after delete-all then upsert-each, the table's keys are exactly the window's ids, each under the last viewed joke with that id, and the reload gives exactly those rows sorted by id |
| `JokeStore.SaveThenLoadDistinct` | App.js:59-79 | for a window of distinct ids, saving and reloading gives exactly the window's jokes, sorted by id |
| `JokeApp.AllFetched` | App.js:87-89 | `Promise.all` over the seed requests gives every joke in request order when all of them succeed, and nothing when any one fails |
| `JokeApp.App.Valid` | App.js:9-79 | the state invariant every handler keeps: the window holds at most three jokes (App.js:36), the table is keyed by `_id` (App.js:9), and `storedJokes` is in ascending id order (App.js:78) |
| `JokeApp.App.constructor` | App.js:20-26 | the first render: no joke, no error, no stored or viewed jokes, index 0, online mode, not loading; the table is whatever is already on the device |
| `JokeApp.App.FetchJoke` | App.js:28-53 | the network path is taken exactly when `online` or connectivity holds. On success: the joke is shown, the window becomes `Windowed(old window, joke)`, the error is cleared and the index is unchanged. On failure: the failure message is set, and the joke, window and index are unchanged. Offline with stored jokes: `stored[index % N]` is shown, the index goes up by 1, and the window and error are unchanged. Offline with none stored: the no-stored-jokes message is set, and the joke, window and index are unchanged. `loading` is false at the end; the mode, stored jokes and table are unchanged |
| `JokeApp.App.ShowResponse` | App.js:34-37 | the network branch: the success and failure outcomes above |
| `JokeApp.App.ShowNextStored` | App.js:39-45 | the offline branch: the rotation step, or the no-stored-jokes error |
| `JokeApp.App.ToggleOnlineMode` | App.js:55-57 | negates `online` and changes nothing else |
| `JokeApp.ToggleTwice` | App.js:55-57 | toggling twice restores the mode |
| `JokeApp.App.SaveJokes` | App.js:59-75 | the table becomes the empty table with every viewed joke upserted by id, in window order; `storedJokes` then becomes the sorted read of that table; nothing else changes |
| `JokeApp.App.FetchStoredJokes` | App.js:77-80 | `storedJokes` becomes the table's rows sorted by `_id`; nothing else changes |
| `JokeApp.App.OnConnectivityChange` | App.js:103-107 | losing connectivity reloads `storedJokes` from the table; regaining it changes nothing |
| `JokeApp.App.UpsertEach` | App.js:89-97 | the seed jokes are upserted one by one onto the existing rows, with no deletion |
| `JokeApp.App.Mount` | App.js:82-101 | reloads the stored jokes. When the previously rendered stored list has fewer than 3 jokes and all three seed requests succeed, it upserts the three jokes and reloads again. Otherwise the table is unchanged |
| `JokeApp.ReplayOffline` | App.js:38-45 | n presses while offline and disconnected show `Served(stored, start, n)`: the stored jokes in rotation. A full round shows a permutation of the stored jokes. The index advances by n, and the window and error are unchanged |

## Left out

- Rendering, styles, and button and switch wiring (App.js:115-186) are not modelled. This includes disabling the button while `loading` is set: handlers run one at a time here, so no press can happen while a fetch is under way.
- The HTTP call (App.js:34, 87) is an input. Only a rejected request, such as a network error or a non-2xx status, is `Failure`. A 2xx response whose body is not a joke is outside the model. The app would show that body, append it to the window and clear the error, because App.js:35-37 never checks `response.data`.
- NetInfo (App.js:31, 103) is a boolean input. A `NetInfo.fetch` that throws would also reach the catch block and the failure message. The model does not distinguish that case from a failed request.
- Realm lifecycle is not modelled: opening with a schema version, closing on unmount (App.js:83, 109-112), and transaction atomicity. Each write runs whole, because handlers are atomic here.
- JokeApp.App.SaveJokes: a Realm write that throws (App.js:72-74) is not modelled. It is only logged. The transaction would roll back and no reload would follow.
- JokeApp.App.SaveJokes: the model keeps `joke` and `storedJokes` as plain values. In the app they hold live Realm objects (App.js:78-79, 40-41). Deleting every row (App.js:62) invalidates a stored joke that `joke` still shows, and the next render reads `joke.setup` (App.js:125), which Realm refuses for a deleted object. In the model, SaveJokes leaves `joke` unchanged and still readable.
- JokeApp.App.Mount: a seed upsert with `UpdateMode.All` (App.js:91-95) changes a held Realm row in place, so a `joke` showing that row would change with it. In the model `joke` keeps its old value.
- JokeApp.App.Mount: the seed requests are modelled as finishing inside the mount handler. In the app they finish later, possibly after other handlers have run.
- Races between overlapping asynchronous fetches are not modelled, nor is `console.error` logging (App.js:48, 73, 100).
- JokeApp.App.FetchJoke: the intermediate `loading == true` state, visible only while a request is in flight, is not modelled. Only its end value `false` is stated.
- JokeApp.App.FetchJoke: `currentIndex` is an unbounded natural number. The JavaScript number loses precision above 2^53 presses, and that is not modelled.
- JokeStore.SortedRows states what Realm's sorted read returns. It does not model how Realm sorts.

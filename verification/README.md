# createStore — a verified model of a minimal Redux-style store

The repository's logic is one factory, `createStore(reducer, initialState)`
(test/index.js:4-25). It returns a store with three operations:

- `subscribe(callback)` registers an observer and returns an unsubscribe handle.
- `dispatch(action)` runs the reducer, stores the result, then tells every
  registered observer the new state.
- `getState()` returns the current state.

This project models that store in Dafny and proves what the repository's tests
(test/index.js:27-142) rely on.

Files and modules:

- `results.dfy` (`Results`): `Option`, which models nullish values, and `Result`, where `Err` models a throw.
- `registry.dfy` (`Registry`): the subscriber registry, modelled as the insertion-ordered key list of the JavaScript `Map`.
  - `Add` models `Map.prototype.set`.
  - `Without` models `Map.prototype.delete`.
  - The module also holds their algebra.
- `store.dfy` (`StoreCore`): the `Store` datatype and the operations.
  - `Construct` models `createStore`, including the initial-state resolution.
  - `Subscribe` and `Unsubscribe` model registration and the handle.
  - `GetState` models `getState`.
  - `Pass`, a reference definition, models one `Map.prototype.forEach` pass as section 24.1.3.5 of ECMA-262 specifies it.
  - `Step` is the functional reference for one dispatch.
  - `NotifyAll` and `Dispatch` are the imperative versions, and they are proved equal to the references.
- `properties.dfy` (`StoreProperties`): properties of single dispatches and of dispatch sequences. `Run` is a sequence of dispatches and `Reduce` is the left fold of the reducer.
- `scenarios.dfy` (`StoreScenarios`): the repository's tests, stated about concrete reducers and callbacks.

How the model represents the source:

- **State.** JavaScript values that may be `null`/`undefined` become `Option<S>`. The reducer has type `(Option<S>, Action<A>) -> Result<Option<S>, E>`.
- **Sentinel action.** `NoAction` stands for the empty-string action `''` that construction passes to the reducer.
- **Callbacks.** A callback is an opaque identity. What it does when called is a `Behaviour`: the set of registrations it removes through unsubscribe handles it holds. Its own handle is one of them.
- **Trace.** Reducer calls (`Reduced`) and notifications (`Notified`) are recorded in a trace. Properties about "who was told what, in which order" are stated over that trace.
- **Observer order.** Callbacks are told in the insertion order of the JavaScript `Map`, as the code has it (`StoreCore.PassInOrder`). A callback is told exactly when it is still registered at the moment the pass reaches it (`StoreCore.PassCallsExactlyReached`).

## Model

| member | source | states |
|---|---|---|
| `Registry.Add` | test/index.js:12 | `Map.set` keyed by identity: the callback is present afterwards, nothing else is added, earlier entries keep their positions (old registry is a prefix), at most one entry is added, and uniqueness is preserved |
| `Registry.Without` | test/index.js:15 | deletion by key: exactly the entries not deleted survive, in their original relative order (subsequence), uniqueness is preserved |
| `Registry.WithoutCompose` | test/index.js:15 | deleting key sets one after another equals deleting their union once; in particular a second delete of the same key changes nothing |
| `Registry.WithoutAt` | test/index.js:14-16 | deleting a registered key removes exactly the entry at its position, every other registration stays where it was |
| `Registry.AddThenWithout` | test/index.js:11-16 | subscribing a new callback and then deleting it restores the registry exactly |
| `Registry.AddIdempotent` | test/index.js:12 | setting an already present key twice is the same as once |
| `StoreCore.GetState` | test/index.js:23 | returns the store's current state and changes nothing; what that state is after construction and after each dispatch is stated by `Construct`, `Dispatch` and `RunFollowsReduce` |
| `StoreCore.Construct` | test/index.js:4-8 | a supplied initial state is stored as-is without calling the reducer; a nullish one makes the store call the reducer exactly once with (nullish, empty action) and keep its result, or propagate its exception with no store; no notification; empty registry |
| `StoreCore.Subscribe` | test/index.js:11-14 | registers the callback without touching the state; an existing registration is neither duplicated nor moved; the handle is for this callback |
| `StoreCore.Unsubscribe` | test/index.js:14-16 | the handle's callback is gone afterwards, every other registration survives in order, the state is untouched |
| `StoreCore.Pass` | test/index.js:21 | one `forEach` pass calls only callbacks that were pending and registered, and leaves a registry contained in the one it started from |
| `StoreCore.PassInOrder` | test/index.js:21 | callbacks are called in registry (insertion) order |
| `StoreCore.PassOnce` | test/index.js:21 | with a duplicate-free registry, no callback is called twice in a pass |
| `StoreCore.PassRemoves` | test/index.js:15-21 | the registry after a pass is the starting one less exactly the registrations removed by the callbacks that were called |
| `StoreCore.PassReachesSurvivors` | test/index.js:21 | every pending callback that is still registered after the pass was called during it |
| `StoreCore.PassCallsAt` | test/index.js:15-21 | the entry at position `j` is called if and only if it is still registered after the entries before it have run: an entry deleted before the pass reaches it is skipped, one still present is called |
| `StoreCore.PassCallsExactlyReached` | test/index.js:15-21 | the same if-and-only-if, for every position of the registry at once |
| `StoreCore.Step` | test/index.js:18-22 | one dispatch keeps the reducer and begins with exactly the reducer call on the current state and the action |
| `StoreCore.NotifyAll` | test/index.js:21 | the imperative `forEach` loop over the entry list computes exactly the reference pass `Pass`; every notification carries the store's state and names a callback of the original registry; uniqueness is preserved |
| `StoreCore.Dispatch` | test/index.js:18-22 | equals `Step`; if the reducer throws, the exception escapes and store and registry are unchanged with no notification; otherwise `getState()` is the reducer's result and every notification carries that new state (state written before any callback runs) |
| `StoreProperties.FreshStoreSubscriber` | test/index.js:4-8 | construction notifies nobody and calls the reducer once exactly when no initial state is given; a first subscriber is the only registration |
| `StoreProperties.SubscribeIdempotent` | test/index.js:12 | subscribing the same callback twice equals subscribing it once |
| `StoreProperties.UnsubscribeIdempotent` | test/index.js:14-16 | calling an unsubscribe handle a second time is a no-op |
| `StoreProperties.SubscribeThenUnsubscribe` | test/index.js:11-16 | subscribe followed by its handle gives back the original store |
| `StoreProperties.UnsubscribeRemovesOnlyItsOwn` | test/index.js:14-16 | the handle removes only its own entry; all others keep their relative positions |
| `StoreProperties.ResubscribeGoesLast` | test/index.js:12-15 | subscribing again after unsubscribing is a new registration placed at the end |
| `StoreProperties.DispatchNotifies` | test/index.js:18-22 | a successful dispatch calls the reducer once, sets the state to its result, notifies callbacks of the old registry in registry order at most once each, notifies a callback if and only if it is still registered when the pass reaches it, notifies every callback still registered afterwards, and leaves the old registry less exactly what the called callbacks removed |
| `StoreProperties.DispatchThrows` | test/index.js:19-20 | a throwing reducer leaves the store unchanged, propagates its exception, and notifies nobody |
| `StoreProperties.DispatchKeepsValid` | test/index.js:6 | the registry stays duplicate-free across dispatches, whatever the callbacks remove |
| `StoreProperties.ReachedWhileRegistered` | test/index.js:15-21 | a registered callback that no callback ahead of it removes is called by the pass |
| `StoreProperties.DispatchSelfUnsubscribe` | test/index.js:50-59 | a callback that unsubscribes itself is told at most once per dispatch and is unregistered once told; if it was not registered it is never told; if it is registered, the reducer does not throw and no callback ahead of it removes it, it is told exactly once |
| `StoreProperties.DispatchKeepsUnremoved` | test/index.js:21 | a registered callback that nobody removes is told exactly the new state and stays registered |
| `StoreProperties.RunFollowsReduce` | test/index.js:18-20 | over a sequence of dispatches the state is the left fold of the reducer over the actions, the reducer is called once per attempted dispatch, and the first exception is the one that escapes |
| `StoreProperties.StatesLength` | test/index.js:18-20 | when no dispatch throws, the fold passes through one state per action |
| `StoreProperties.SelfUnsubscribeCalledOnce` | test/index.js:47-64 | a callback that always unsubscribes itself is called at most once over any number of dispatches, and never if it was not registered; if it is registered, the first dispatch succeeds and no callback ahead of it removes it, it is called exactly once in total |
| `StoreProperties.UnremovedSeesEveryState` | test/index.js:89-95 | a callback nobody removes is told every state the store passes through, in order, and stays registered |
| `StoreScenarios.InitializesFromReducerOrInitialState` | test/index.js:27-40 | with no initial state the reducer's default `{ name: 'foo' }` becomes the state after one reducer call; a given initial state is kept with no reducer call |
| `StoreScenarios.MultipleSubscribers` | test/index.js:42-65 | three subscribers with the second unsubscribing itself: after one dispatch each was called once; after two, the first and third twice and the second once |
| `StoreScenarios.SecondCalledOnce` | test/index.js:50-63 | the second subscriber, which unsubscribes itself and is not removed by the first, is called exactly once over any dispatches that start with a successful one |
| `StoreScenarios.SecondNotRemovedEarly` | test/index.js:47-56 | of three distinct subscribers only the first is ahead of the second, so if the first never removes the second, nobody ahead of it does |
| `StoreScenarios.MultipleSubscribersTest` | test/index.js:42-65 | the test's own reducer `(state) => state` and callbacks meet those conditions, so the counts are 1, 1, 1 after the first dispatch and 2, 1, 2 after the second |
| `StoreScenarios.Identity` | test/index.js:43 | the reducer `(state) => state` never throws and returns the state it is given |
| `StoreScenarios.SetName` | test/index.js:68-76 | `SET_NAME` yields an object whose `name` is the payload and whose other fields are those of the old state (none if the state was nullish); every other action returns the state unchanged; it never throws |
| `StoreScenarios.SetNameDefaultFoo` | test/index.js:29-37 | with the default parameter, a missing state reads as `{ name: 'foo' }`: the initializing call with the empty action yields it, and a given state behaves as in `SetName` |
| `StoreScenarios.UnsubscribesItself` | test/index.js:50-53 | the second callback of the multiple-subscribers test removes itself and only itself; every other callback removes nothing |
| `StoreScenarios.ThreeSubscribed` | test/index.js:43-56 | creating the store with a supplied initial state and subscribing three distinct callbacks gives the registry `[c1, c2, c3]` in that order with the state untouched |
| `StoreScenarios.SubscribeToStateChanges` | test/index.js:67-96 | a subscriber hears nothing before the first dispatch, then `'bar'` and `'baz'` in order, and the final state has name `'baz'` |
| `StoreScenarios.DispatchActions` | test/index.js:98-119 | an action the reducer ignores leaves the state unchanged; `SET_NAME` then sets the name to `'foo'` |

## Left out

- JSON deep copy of the initial state (test/index.js:5): Dafny values are immutable, so the copy is the value itself. The `&&` at that line only decides whether the copy is taken for a falsy value, and it makes no difference once the copy is the identity. Dropping functions and `undefined` fields during the copy is specific to JavaScript.
- StoreCore.Construct: the JSON copy at test/index.js:5 can throw, and the model does not say so. `JSON.parse(JSON.stringify(x))` throws for a top-level function or symbol, because `JSON.stringify` returns `undefined` and `JSON.parse(undefined)` fails. It also throws for a `BigInt` and for a cyclic object. The model stores every supplied initial state without error.
- StoreCore.Construct: the JSON copy at test/index.js:5 can also turn a non-nullish initial state into `null`, and the model does not say so. This happens to `Infinity`, `-Infinity`, an invalid `Date`, and an object whose `toJSON` returns `null`. Line 8 would then call the reducer. The model keeps such a state as given and calls no reducer.
- StoreCore.Construct: `null` and `undefined` are both `None`. The source passes the caller's own nullish value to the reducer at test/index.js:8, and a default parameter (test/index.js:29) replaces only `undefined`. So `createStore(reducer, null)` with the reducer of test/index.js:29-37 ends with state `null`, but the model's `StoreScenarios.SetNameDefaultFoo` applies its default to every `None`. The model covers only the `undefined` case of that test.
- Callback side effects other than unsubscribing: counters, logging, and exceptions thrown from a callback. Notifications are recorded in the trace instead.
- Subscribing from inside a callback during a notification pass. `Map.prototype.forEach` would visit such an entry, but the tests never exercise this. `Pass` assumes nothing is added during a pass.
- Re-entrant `dispatch` from inside a reducer or a callback.
- The reducer's exceptions are modelled as `Err` results rather than real exceptions. Reducer purity is assumed by taking the reducer as a Dafny function.
- The `typeof … === 'function'` checks (test/index.js:139-141) and the mocha/`assert` harness: these are JavaScript runtime typing, not store logic. Every `Store` value has all three operations by construction.
- `Math.random()` in the tests (test/index.js:123): the scenario lemma takes an arbitrary initial object instead.
- `StoreScenarios.MultipleSubscribers` is stated for any reducer that does not throw on the dispatched action and any three distinct callbacks with the test's unsubscribe pattern. It is not stated for JavaScript closures themselves.

/**
  The store returned by `createStore(reducer, initialState)`: a single state
  cell changed only through the reducer, and a registry of callbacks that are
  told the new state after every dispatch.

  Callbacks are opaque identities. What a callback does when it is called is
  described by a `Behaviour`: the registrations it removes through the
  unsubscribe handles it holds. Reducer calls and notifications are recorded
  in a trace of `Event`s, so that "who was told what, and in which order" can
  be stated about the result.
 */
module StoreCore {
  import opened Results
  import opened Registry

  /** An action value; `NoAction` is the empty-string sentinel `''` used at initialization. */
  datatype Action<A> = NoAction | Act(payload: A)

  /**
    The caller's reducer. Its state argument and result may be nullish (`None`);
    `Err` stands for a reducer that throws.
   */
  type Reducer<!S, !A, E> = (Option<S>, Action<A>) -> Result<Option<S>, E>

  /** The registrations a callback removes, through unsubscribe handles, when it is called with a state. */
  type Behaviour<!S, !Id> = (Id, Option<S>) -> set<Id>

  /** What can be observed of a store from outside: reducer calls and callback notifications. */
  datatype Event<S, A, Id> =
    | Reduced(input: Option<S>, action: Action<A>)
    | Notified(callback: Id, state: Option<S>)

  /** The closure state of one `createStore` call. */
  datatype Store<!S, !A, E, Id> = Store(reducer: Reducer<S, A, E>, state: Option<S>, registry: seq<Id>)

  /** The function `subscribe` returns: it deletes the registration of `callback`. */
  datatype Handle<Id> = Handle(callback: Id)

  /** The result of `createStore`: a store, or the exception the initializing reducer threw. */
  datatype Created<!S, !A, E, Id> = Created(store: Result<Store<S, A, E, Id>, E>, trace: seq<Event<S, A, Id>>)

  /** The result of `dispatch`: the store afterwards, what happened, and the exception, if one escaped. */
  datatype Dispatched<!S, !A, E, Id> = Dispatched(store: Store<S, A, E, Id>, trace: seq<Event<S, A, Id>>, thrown: Option<E>)

  /** One pass of `Map.prototype.forEach`: who was called, and the registry it left behind. */
  datatype PassResult<Id> = PassResult(notified: seq<Id>, live: seq<Id>)

  /** A store whose registry has unique keys, as any JavaScript `Map` has. */
  ghost predicate Valid<S, A, E, Id>(st: Store<S, A, E, Id>) {
    NoDups(st.registry)
  }

  /**
    `createStore(reducer, initialState)`. A supplied initial state is kept (its
    JSON copy is the value itself here) and the reducer is not called; a nullish
    one makes the store call `reducer(undefined, '')` exactly once and keep
    whatever that returns, even a nullish value. No callback is told anything,
    and the registry starts empty.
   */
  function Construct<S, A, E, Id>(reducer: Reducer<S, A, E>, initial: Option<S>): (r: Created<S, A, E, Id>)
    ensures forall i :: 0 <= i < |r.trace| ==> r.trace[i].Reduced?
    ensures initial.Some? ==> r.trace == [] && r.store == Ok(Store(reducer, initial, []))
    ensures initial.None? ==> r.trace == [Reduced(None, NoAction)]
    ensures initial.None? && reducer(None, NoAction).Ok? ==>
              r.store == Ok(Store(reducer, reducer(None, NoAction).value, []))
    ensures initial.None? && reducer(None, NoAction).Err? ==>
              r.store == Err(reducer(None, NoAction).error)
    ensures r.store.Ok? ==> Valid(r.store.value)
  {
    match initial
    case Some(_) => Created(Ok(Store(reducer, initial, [])), [])
    case None =>
      var trace := [Reduced(None, NoAction)];
      match reducer(None, NoAction)
      case Ok(s) => Created(Ok(Store(reducer, s, [])), trace)
      case Err(e) => Created(Err(e), trace)
  }

  /** `getState()`: the current state, with no effect on the store. */
  function GetState<S, A, E, Id>(st: Store<S, A, E, Id>): Option<S> {
    st.state
  }

  /**
    `subscribe(callback)`: the callback is registered once, keyed by its
    identity; registering it again neither duplicates nor moves it. The state
    is untouched and the handle returned removes exactly this callback.
   */
  function Subscribe<S, A, E, Id(==)>(st: Store<S, A, E, Id>, callback: Id): (r: (Store<S, A, E, Id>, Handle<Id>))
    ensures r.0.state == st.state && r.0.reducer == st.reducer
    ensures r.1.callback == callback
    ensures callback in r.0.registry
    ensures forall x :: x in r.0.registry ==> x in st.registry || x == callback
    ensures |st.registry| <= |r.0.registry| <= |st.registry| + 1 && r.0.registry[..|st.registry|] == st.registry
    ensures Valid(st) ==> Valid(r.0)
  {
    (st.(registry := Add(st.registry, callback)), Handle(callback))
  }

  /**
    Calling an unsubscribe handle: the callback's registration is deleted if
    present; everything else, the state included, stays as it was.
   */
  function Unsubscribe<S, A, E, Id(==)>(st: Store<S, A, E, Id>, h: Handle<Id>): (r: Store<S, A, E, Id>)
    ensures r.state == st.state && r.reducer == st.reducer
    ensures h.callback !in r.registry
    ensures forall x :: x in r.registry ==> x in st.registry
    ensures forall x :: x in st.registry && x != h.callback ==> x in r.registry
    ensures Subseq(r.registry, st.registry)
    ensures Valid(st) ==> Valid(r)
  {
    st.(registry := Without(st.registry, {h.callback}))
  }

  /** All registrations removed by the callbacks in `ns` when each is called with `s`. */
  ghost function Removals<S, Id>(ns: seq<Id>, s: Option<S>, behave: Behaviour<S, Id>): set<Id>
    decreases |ns|
  {
    if |ns| == 0 then {} else behave(ns[0], s) + Removals(ns[1..], s, behave)
  }

  /**
    One notification pass of `Map.prototype.forEach` with state `s`, as section
    24.1.3.5 of ECMA-262 describes it: the entries `pending` are visited in
    insertion order, and an entry is called only if it is still in the live
    registry when the pass reaches it. Nothing is added during the pass.
   */
  function Pass<S, Id(==)>(pending: seq<Id>, live: seq<Id>, s: Option<S>, behave: Behaviour<S, Id>): (r: PassResult<Id>)
    decreases |pending|
    ensures forall x :: x in r.notified ==> x in pending && x in live
    ensures forall x :: x in r.live ==> x in live
  {
    if |pending| == 0 then PassResult([], live)
    else
      var k := pending[0];
      if k in live then
        var rest := Pass(pending[1..], Without(live, behave(k, s)), s, behave);
        PassResult([k] + rest.notified, rest.live)
      else
        Pass(pending[1..], live, s, behave)
  }

  /** A pass calls callbacks in registry order. */
  lemma {:induction false} PassInOrder<S, Id>(pending: seq<Id>, live: seq<Id>, s: Option<S>, behave: Behaviour<S, Id>)
    ensures Subseq(Pass(pending, live, s, behave).notified, pending)
    decreases |pending|
  {
    if |pending| > 0 {
      var k := pending[0];
      if k in live {
        PassInOrder(pending[1..], Without(live, behave(k, s)), s, behave);
        var rest := Pass(pending[1..], Without(live, behave(k, s)), s, behave);
        assert ([k] + rest.notified)[1..] == rest.notified;
      } else {
        PassInOrder(pending[1..], live, s, behave);
        SubseqCons(Pass(pending[1..], live, s, behave).notified, pending[1..], k);
        assert [k] + pending[1..] == pending;
      }
    }
  }

  /** A pass calls each callback at most once. */
  lemma {:induction false} PassOnce<S, Id>(pending: seq<Id>, live: seq<Id>, s: Option<S>, behave: Behaviour<S, Id>)
    requires NoDups(pending)
    ensures NoDups(Pass(pending, live, s, behave).notified)
    decreases |pending|
  {
    if |pending| > 0 {
      var k := pending[0];
      assert NoDups(pending[1..]);
      assert k !in pending[1..];
      if k in live {
        PassOnce(pending[1..], Without(live, behave(k, s)), s, behave);
      } else {
        PassOnce(pending[1..], live, s, behave);
      }
    }
  }

  /**
    The registry a pass leaves behind is the one it started from with exactly the
    registrations removed by the callbacks it called, the rest in their order.
   */
  lemma {:induction false} PassRemoves<S, Id>(pending: seq<Id>, live: seq<Id>, s: Option<S>, behave: Behaviour<S, Id>)
    ensures var r := Pass(pending, live, s, behave);
            r.live == Without(live, Removals(r.notified, s, behave))
    decreases |pending|
  {
    if |pending| == 0 {
      WithoutAbsent(live, {});
    } else {
      var k := pending[0];
      if k in live {
        PassRemoves(pending[1..], Without(live, behave(k, s)), s, behave);
        var rest := Pass(pending[1..], Without(live, behave(k, s)), s, behave);
        assert ([k] + rest.notified)[1..] == rest.notified;
        WithoutCompose(live, behave(k, s), Removals(rest.notified, s, behave));
      } else {
        PassRemoves(pending[1..], live, s, behave);
      }
    }
  }

  /** Every pending callback that is still registered after the pass was called in it. */
  lemma {:induction false} PassReachesSurvivors<S, Id>(pending: seq<Id>, live: seq<Id>, s: Option<S>, behave: Behaviour<S, Id>)
    ensures var r := Pass(pending, live, s, behave);
            forall x :: x in pending && x in r.live ==> x in r.notified
    decreases |pending|
  {
    if |pending| > 0 {
      var k := pending[0];
      assert pending == [k] + pending[1..];
      if k in live {
        PassReachesSurvivors(pending[1..], Without(live, behave(k, s)), s, behave);
        var rest := Pass(pending[1..], Without(live, behave(k, s)), s, behave);
        assert k in [k] + rest.notified;
      } else {
        PassReachesSurvivors(pending[1..], live, s, behave);
      }
    }
  }

  /**
    The entry at position `j` is called exactly when it is still registered
    once the entries before it have been visited: a registration deleted
    before the pass reaches it is skipped, and one still present is called.
   */
  lemma {:induction false} PassCallsAt<S, Id>(pending: seq<Id>, live: seq<Id>, s: Option<S>, behave: Behaviour<S, Id>, j: int)
    requires NoDups(pending) && 0 <= j < |pending|
    ensures pending[j] in Pass(pending, live, s, behave).notified <==> pending[j] in Pass(pending[..j], live, s, behave).live
    decreases |pending|
  {
    var k := pending[0];
    var next := if k in live then Without(live, behave(k, s)) else live;
    var rest := Pass(pending[1..], next, s, behave);
    assert Pass(pending, live, s, behave).notified == if k in live then [k] + rest.notified else rest.notified;
    if j == 0 {
      assert pending[..0] == [];
    } else {
      assert NoDups(pending[1..]);
      assert pending[1..][j - 1] == pending[j] && pending[j] != k;
      var before := pending[..j];
      assert before[0] == k && before[1..] == pending[1..][..j - 1];
      PassCallsAt(pending[1..], next, s, behave, j - 1);
    }
  }

  /** `PassCallsAt` for every position of a duplicate-free registry at once. */
  lemma PassCallsExactlyReached<S, Id>(pending: seq<Id>, live: seq<Id>, s: Option<S>, behave: Behaviour<S, Id>)
    requires NoDups(pending)
    ensures forall j :: 0 <= j < |pending| ==>
              (pending[j] in Pass(pending, live, s, behave).notified <==> pending[j] in Pass(pending[..j], live, s, behave).live)
  {
    forall j | 0 <= j < |pending|
      ensures pending[j] in Pass(pending, live, s, behave).notified <==> pending[j] in Pass(pending[..j], live, s, behave).live
    {
      PassCallsAt(pending, live, s, behave, j);
    }
  }

  /** The notifications of a pass, each carrying the state `s`. */
  function Announce<S, A, Id>(ns: seq<Id>, s: Option<S>): (r: seq<Event<S, A, Id>>)
    decreases |ns|
    ensures |r| == |ns|
    ensures forall i :: 0 <= i < |ns| ==> r[i] == Notified(ns[i], s)
  {
    if |ns| == 0 then [] else [Notified(ns[0], s)] + Announce(ns[1..], s)
  }

  /** Announcing one more callback appends one notification. */
  lemma AnnounceSnoc<S, A, Id>(ns: seq<Id>, k: Id, s: Option<S>)
    ensures Announce<S, A, Id>(ns + [k], s) == Announce<S, A, Id>(ns, s) + [Notified(k, s)]
  {
    var lhs, rhs := Announce<S, A, Id>(ns + [k], s), Announce<S, A, Id>(ns, s) + [Notified(k, s)];
    assert |lhs| == |rhs|;
    assert forall i :: 0 <= i < |lhs| ==> lhs[i] == rhs[i];
  }

  /**
    `dispatch(action)` as one step: the reducer runs on the current state; if it
    throws, the exception escapes and the store is left as it was; otherwise the
    state is overwritten and then every registered callback is notified in one pass.
   */
  function Step<S, A, E, Id(==)>(st: Store<S, A, E, Id>, action: Action<A>, behave: Behaviour<S, Id>): (r: Dispatched<S, A, E, Id>)
    ensures r.store.reducer == st.reducer
    ensures |r.trace| >= 1 && r.trace[0] == Reduced(st.state, action)
  {
    var called := [Reduced(st.state, action)];
    match st.reducer(st.state, action)
    case Err(e) => Dispatched(st, called, Some(e))
    case Ok(s) =>
      var p := Pass(st.registry, st.registry, s, behave);
      Dispatched(Store(st.reducer, s, p.live), called + Announce(p.notified, s), None)
  }

  /**
    After the entries before `i` have been visited, having called `notified` and
    left `live`, finishing the pass from `i` gives `whole`.
   */
  ghost predicate Resumes<S, Id>(entries: seq<Id>, i: int, notified: seq<Id>, live: seq<Id>, s: Option<S>, behave: Behaviour<S, Id>, whole: PassResult<Id>)
    requires 0 <= i <= |entries|
  {
    var rest := Pass(entries[i..], live, s, behave);
    notified + rest.notified == whole.notified && rest.live == whole.live
  }

  /** The pass from entry `i` either calls entry `i` and goes on, or skips it. */
  lemma PassFrom<S, Id>(entries: seq<Id>, i: int, live: seq<Id>, s: Option<S>, behave: Behaviour<S, Id>)
    requires 0 <= i < |entries|
    ensures entries[i] in live ==>
              var rest := Pass(entries[i + 1..], Without(live, behave(entries[i], s)), s, behave);
              Pass(entries[i..], live, s, behave) == PassResult([entries[i]] + rest.notified, rest.live)
    ensures entries[i] !in live ==>
              Pass(entries[i..], live, s, behave) == Pass(entries[i + 1..], live, s, behave)
  {
    var tail := entries[i..];
    assert tail[0] == entries[i] && tail[1..] == entries[i + 1..];
  }

  /** Calling entry `i`, which is still registered, keeps `Resumes`. */
  lemma PassAdvanceCalled<S, Id>(entries: seq<Id>, i: int, notified: seq<Id>, live: seq<Id>, s: Option<S>, behave: Behaviour<S, Id>, whole: PassResult<Id>)
    requires 0 <= i < |entries| && entries[i] in live
    requires Resumes(entries, i, notified, live, s, behave, whole)
    ensures Resumes(entries, i + 1, notified + [entries[i]], Without(live, behave(entries[i], s)), s, behave, whole)
  {
    PassFrom(entries, i, live, s, behave);
    var rest := Pass(entries[i + 1..], Without(live, behave(entries[i], s)), s, behave);
    assert (notified + [entries[i]]) + rest.notified == notified + ([entries[i]] + rest.notified);
  }

  /** Skipping entry `i`, which is no longer registered, keeps `Resumes`. */
  lemma PassAdvanceSkipped<S, Id>(entries: seq<Id>, i: int, notified: seq<Id>, live: seq<Id>, s: Option<S>, behave: Behaviour<S, Id>, whole: PassResult<Id>)
    requires 0 <= i < |entries| && entries[i] !in live
    requires Resumes(entries, i, notified, live, s, behave, whole)
    ensures Resumes(entries, i + 1, notified, live, s, behave, whole)
  {
    PassFrom(entries, i, live, s, behave);
  }

  /**
    `Map.prototype.forEach((s) => s(state))` on the store's registry, written as
    a loop over the entry list: each entry still registered when reached is
    called with the store's state and may delete registrations, including its
    own and ones not yet reached.
   */
  method NotifyAll<S, A, E, Id(==)>(st: Store<S, A, E, Id>, behave: Behaviour<S, Id>)
    returns (after: Store<S, A, E, Id>, notices: seq<Event<S, A, Id>>)
    ensures after.reducer == st.reducer && after.state == st.state
    ensures var p := Pass(st.registry, st.registry, st.state, behave);
            after.registry == p.live && notices == Announce(p.notified, st.state)
    ensures forall i :: 0 <= i < |notices| ==>
              notices[i].Notified? && notices[i].state == st.state && notices[i].callback in st.registry
    ensures forall x :: x in after.registry ==> x in st.registry
    ensures Valid(st) ==> Valid(after)
  {
    after := st;
    notices := [];
    var entries := st.registry;
    ghost var notified: seq<Id> := [];
    ghost var whole := Pass(entries, entries, st.state, behave);
    var i := 0;
    while i < |entries|
      invariant 0 <= i <= |entries|
      invariant after.reducer == st.reducer && after.state == st.state
      invariant notices == Announce(notified, st.state)
      invariant forall x :: x in notified ==> x in st.registry
      invariant forall x :: x in after.registry ==> x in st.registry
      invariant Valid(st) ==> Valid(after)
      invariant Resumes(entries, i, notified, after.registry, st.state, behave, whole)
      decreases |entries| - i
    {
      var k := entries[i];
      if k in after.registry {
        PassAdvanceCalled(entries, i, notified, after.registry, st.state, behave, whole);
        AnnounceSnoc<S, A, Id>(notified, k, st.state);
        notices := notices + [Notified(k, after.state)];
        notified := notified + [k];
        after := after.(registry := Without(after.registry, behave(k, after.state)));
      } else {
        PassAdvanceSkipped(entries, i, notified, after.registry, st.state, behave, whole);
      }
      i := i + 1;
    }
    assert entries[i..] == [];
  }

  /**
    `dispatch(action)`, written as the source runs it: compute the new state,
    store it, then notify the registry, passing the store's (new) state.
   */
  method Dispatch<S, A, E, Id(==)>(st: Store<S, A, E, Id>, action: Action<A>, behave: Behaviour<S, Id>)
    returns (out: Dispatched<S, A, E, Id>)
    ensures out == Step(st, action, behave)
    ensures out.store.reducer == st.reducer
    ensures |out.trace| >= 1 && out.trace[0] == Reduced(st.state, action)
    ensures st.reducer(st.state, action).Err? ==>
              out.thrown == Some(st.reducer(st.state, action).error) && out.store == st && |out.trace| == 1
    ensures st.reducer(st.state, action).Ok? ==>
              out.thrown == None && GetState(out.store) == st.reducer(st.state, action).value
    ensures forall i :: 1 <= i < |out.trace| ==>
              out.trace[i].Notified? && out.trace[i].state == GetState(out.store) && out.trace[i].callback in st.registry
    ensures forall x :: x in out.store.registry ==> x in st.registry
    ensures Valid(st) ==> Valid(out.store)
  {
    var called: seq<Event<S, A, Id>> := [Reduced(st.state, action)];
    var result := st.reducer(st.state, action);
    if result.Err? {
      return Dispatched(st, called, Some(result.error));
    }
    var written := st.(state := result.value);
    var after, notices := NotifyAll(written, behave);
    out := Dispatched(after, called + notices, None);
  }
}

/**
  What a store promises over one dispatch and over a sequence of dispatches:
  the state is the left fold of the reducer over the actions, the reducer runs
  once per dispatch, a callback is told the new state exactly when it is still
  registered as the pass reaches it, a callback that removes itself is called
  at most once in total, and one that nobody removes is told every new state,
  in order.
 */
module StoreProperties {
  import opened Results
  import opened Registry
  import opened StoreCore

  /** The callbacks notified in a trace, in the order they were called. */
  function Notifications<S, A, Id>(trace: seq<Event<S, A, Id>>): seq<Id>
    decreases |trace|
  {
    if |trace| == 0 then []
    else if trace[0].Notified? then [trace[0].callback] + Notifications(trace[1..])
    else Notifications(trace[1..])
  }

  /** The states `c` was called with, in order. */
  ghost function Seen<S, A, Id>(trace: seq<Event<S, A, Id>>, c: Id): seq<Option<S>>
    decreases |trace|
  {
    if |trace| == 0 then []
    else if trace[0].Notified? && trace[0].callback == c then [trace[0].state] + Seen(trace[1..], c)
    else Seen(trace[1..], c)
  }

  /** The number of reducer calls in a trace. */
  function ReducerCalls<S, A, Id>(trace: seq<Event<S, A, Id>>): nat
    decreases |trace|
  {
    if |trace| == 0 then 0
    else (if trace[0].Reduced? then 1 else 0) + ReducerCalls(trace[1..])
  }

  /** Consecutive `dispatch` calls; an exception from the reducer escapes and ends the sequence. */
  function Run<S, A, E, Id(==)>(st: Store<S, A, E, Id>, actions: seq<Action<A>>, behave: Behaviour<S, Id>): (r: Dispatched<S, A, E, Id>)
    decreases |actions|
  {
    if |actions| == 0 then Dispatched(st, [], None)
    else
      var first := Step(st, actions[0], behave);
      if first.thrown.Some? then first
      else
        var rest := Run(first.store, actions[1..], behave);
        Dispatched(rest.store, first.trace + rest.trace, rest.thrown)
  }

  /** The left fold of the reducer over the actions, stopping at the first exception. */
  function Reduce<S, A, E>(reducer: Reducer<S, A, E>, s: Option<S>, actions: seq<Action<A>>): Result<Option<S>, E>
    decreases |actions|
  {
    if |actions| == 0 then Ok(s)
    else
      match reducer(s, actions[0])
      case Err(e) => Err(e)
      case Ok(next) => Reduce(reducer, next, actions[1..])
  }

  /** The successive states the left fold passes through, up to the first exception. */
  function States<S, A, E>(reducer: Reducer<S, A, E>, s: Option<S>, actions: seq<Action<A>>): seq<Option<S>>
    decreases |actions|
  {
    if |actions| == 0 then []
    else
      match reducer(s, actions[0])
      case Err(_) => []
      case Ok(next) => [next] + States(reducer, next, actions[1..])
  }

  // ---- trace bookkeeping ----

  lemma {:induction false} NotificationsAppend<S, A, Id>(a: seq<Event<S, A, Id>>, b: seq<Event<S, A, Id>>)
    ensures Notifications(a + b) == Notifications(a) + Notifications(b)
    decreases |a|
  {
    if |a| == 0 {
      assert a + b == b;
    } else {
      assert (a + b)[1..] == a[1..] + b;
      NotificationsAppend(a[1..], b);
    }
  }

  lemma {:induction false} SeenAppend<S, A, Id>(a: seq<Event<S, A, Id>>, b: seq<Event<S, A, Id>>, c: Id)
    ensures Seen(a + b, c) == Seen(a, c) + Seen(b, c)
    decreases |a|
  {
    if |a| == 0 {
      assert a + b == b;
    } else {
      assert (a + b)[1..] == a[1..] + b;
      SeenAppend(a[1..], b, c);
    }
  }

  lemma {:induction false} ReducerCallsAppend<S, A, Id>(a: seq<Event<S, A, Id>>, b: seq<Event<S, A, Id>>)
    ensures ReducerCalls(a + b) == ReducerCalls(a) + ReducerCalls(b)
    decreases |a|
  {
    if |a| == 0 {
      assert a + b == b;
    } else {
      assert (a + b)[1..] == a[1..] + b;
      ReducerCallsAppend(a[1..], b);
    }
  }

  /** A pass's notifications are its callees, in order, and contain no reducer call. */
  lemma {:induction false} AnnounceCallees<S, A, Id>(ns: seq<Id>, s: Option<S>)
    ensures Notifications(Announce<S, A, Id>(ns, s)) == ns
    ensures ReducerCalls(Announce<S, A, Id>(ns, s)) == 0
    decreases |ns|
  {
    if |ns| > 0 {
      AnnounceCallees<S, A, Id>(ns[1..], s);
      assert Announce<S, A, Id>(ns, s)[1..] == Announce<S, A, Id>(ns[1..], s);
      assert [ns[0]] + ns[1..] == ns;
    }
  }

  /** In a pass with distinct callees, `c` is told `s` once if it was called, else never. */
  lemma {:induction false} AnnounceSeen<S, A, Id>(ns: seq<Id>, s: Option<S>, c: Id)
    requires NoDups(ns)
    ensures Seen(Announce<S, A, Id>(ns, s), c) == if c in ns then [s] else []
    decreases |ns|
  {
    if |ns| > 0 {
      assert NoDups(ns[1..]);
      assert ns[0] !in ns[1..];
      AnnounceSeen<S, A, Id>(ns[1..], s, c);
      assert Announce<S, A, Id>(ns, s)[1..] == Announce<S, A, Id>(ns[1..], s);
      assert c in ns <==> c == ns[0] || c in ns[1..];
    }
  }

  // ---- registry operations ----

  /** A store fresh from `createStore` has told nobody anything, and a first subscriber is its only one. */
  lemma FreshStoreSubscriber<S, A, E, Id>(reducer: Reducer<S, A, E>, initial: Option<S>, c: Id)
    ensures var created := Construct<S, A, E, Id>(reducer, initial);
            && Notifications(created.trace) == []
            && ReducerCalls(created.trace) == (if initial.None? then 1 else 0)
            && (created.store.Ok? ==> Subscribe(created.store.value, c).0.registry == [c])
  {
  }

  /** Subscribing the same callback twice has the effect of subscribing it once. */
  lemma SubscribeIdempotent<S, A, E, Id>(st: Store<S, A, E, Id>, c: Id)
    ensures Subscribe(Subscribe(st, c).0, c) == Subscribe(st, c)
  {
    AddIdempotent(st.registry, c);
  }

  /** Calling an unsubscribe handle a second time does nothing. */
  lemma UnsubscribeIdempotent<S, A, E, Id>(st: Store<S, A, E, Id>, h: Handle<Id>)
    ensures Unsubscribe(Unsubscribe(st, h), h) == Unsubscribe(st, h)
  {
    WithoutCompose(st.registry, {h.callback}, {h.callback});
    assert {h.callback} + {h.callback} == {h.callback};
  }

  /** Subscribing a new callback and calling the handle it returns gives back the store. */
  lemma SubscribeThenUnsubscribe<S, A, E, Id>(st: Store<S, A, E, Id>, c: Id)
    requires c !in st.registry
    ensures var (after, h) := Subscribe(st, c); Unsubscribe(after, h) == st
  {
    AddThenWithout(st.registry, c);
  }

  /**
    An unsubscribe handle takes out only its own callback: every other
    registration keeps its relative position.
   */
  lemma UnsubscribeRemovesOnlyItsOwn<S, A, E, Id>(st: Store<S, A, E, Id>, j: int)
    requires Valid(st) && 0 <= j < |st.registry|
    ensures Unsubscribe(st, Handle(st.registry[j])).registry == st.registry[..j] + st.registry[j + 1..]
  {
    WithoutAt(st.registry, j);
  }

  /** Subscribing again after unsubscribing is a new registration, placed last. */
  lemma ResubscribeGoesLast<S, A, E, Id>(st: Store<S, A, E, Id>, h: Handle<Id>)
    ensures var back := Subscribe(Unsubscribe(st, h), h.callback).0;
            back.registry == Without(st.registry, {h.callback}) + [h.callback]
  {
  }

  // ---- one dispatch ----

  /**
    One successful dispatch calls the reducer once, then notifies callbacks of
    the old registry only, in registry order, each at most once; a callback is
    notified exactly when it is still registered once the callbacks ahead of it
    have run; every callback still registered afterwards was notified, and the
    registry afterwards is the old one less exactly the registrations the called
    callbacks removed.
   */
  lemma DispatchNotifies<S, A, E, Id>(st: Store<S, A, E, Id>, action: Action<A>, behave: Behaviour<S, Id>)
    requires Valid(st) && st.reducer(st.state, action).Ok?
    ensures var r := Step(st, action, behave);
            var s := st.reducer(st.state, action).value;
            var ns := Notifications(r.trace);
            && r.thrown == None
            && GetState(r.store) == s
            && ReducerCalls(r.trace) == 1
            && Subseq(ns, st.registry)
            && NoDups(ns)
            && (forall x :: x in r.store.registry ==> x in ns)
            && r.store.registry == Without(st.registry, Removals(ns, s, behave))
            && (forall j :: 0 <= j < |st.registry| ==>
                  (st.registry[j] in ns <==> st.registry[j] in Pass(st.registry[..j], st.registry, s, behave).live))
  {
    var s := st.reducer(st.state, action).value;
    var p := Pass(st.registry, st.registry, s, behave);
    var called: seq<Event<S, A, Id>> := [Reduced(st.state, action)];
    PassInOrder(st.registry, st.registry, s, behave);
    PassOnce(st.registry, st.registry, s, behave);
    PassRemoves(st.registry, st.registry, s, behave);
    PassReachesSurvivors(st.registry, st.registry, s, behave);
    PassCallsExactlyReached(st.registry, st.registry, s, behave);
    AnnounceCallees<S, A, Id>(p.notified, s);
    NotificationsAppend(called, Announce<S, A, Id>(p.notified, s));
    ReducerCallsAppend(called, Announce<S, A, Id>(p.notified, s));
  }

  /** A throwing reducer leaves the store untouched and notifies nobody. */
  lemma DispatchThrows<S, A, E, Id>(st: Store<S, A, E, Id>, action: Action<A>, behave: Behaviour<S, Id>)
    requires st.reducer(st.state, action).Err?
    ensures var r := Step(st, action, behave);
            r.store == st && r.thrown == Some(st.reducer(st.state, action).error) && Notifications(r.trace) == []
  {
  }

  /** A dispatch keeps the registry free of duplicates, whatever the callbacks do. */
  lemma DispatchKeepsValid<S, A, E, Id>(st: Store<S, A, E, Id>, action: Action<A>, behave: Behaviour<S, Id>)
    requires Valid(st)
    ensures Valid(Step(st, action, behave).store)
  {
    if st.reducer(st.state, action).Ok? {
      var s := st.reducer(st.state, action).value;
      PassRemoves(st.registry, st.registry, s, behave);
    }
  }

  /** The registrations removed by a pass include everything each callee removes. */
  lemma {:induction false} RemovalsInclude<S, Id>(ns: seq<Id>, s: Option<S>, behave: Behaviour<S, Id>, k: Id)
    requires k in ns
    ensures behave(k, s) <= Removals(ns, s, behave)
    decreases |ns|
  {
    if ns[0] != k {
      RemovalsInclude(ns[1..], s, behave, k);
    }
  }

  /** A registration that none of the callees removes is not among a pass's removals. */
  lemma {:induction false} RemovalsAvoid<S, Id>(ns: seq<Id>, s: Option<S>, behave: Behaviour<S, Id>, c: Id)
    requires forall k :: k in ns ==> c !in behave(k, s)
    ensures c !in Removals(ns, s, behave)
    decreases |ns|
  {
    if |ns| > 0 {
      assert ns[0] in ns;
      RemovalsAvoid(ns[1..], s, behave, c);
    }
  }

  /** No callback registered ahead of `c` removes `c` when it is told `s`. */
  ghost predicate NoEarlierRemoval<S, Id>(reg: seq<Id>, c: Id, s: Option<S>, behave: Behaviour<S, Id>) {
    forall i, j :: 0 <= i < j < |reg| && reg[j] == c ==> c !in behave(reg[i], s)
  }

  /**
    A registered callback that no callback ahead of it removes is still
    registered when the pass reaches it, so the pass calls it.
   */
  lemma ReachedWhileRegistered<S, Id>(reg: seq<Id>, s: Option<S>, behave: Behaviour<S, Id>, c: Id)
    requires NoDups(reg) && c in reg
    requires NoEarlierRemoval(reg, c, s, behave)
    ensures c in Pass(reg, reg, s, behave).notified
  {
    var j :| 0 <= j < |reg| && reg[j] == c;
    var before := Pass(reg[..j], reg, s, behave);
    forall k | k in before.notified
      ensures c !in behave(k, s)
    {
      var i :| 0 <= i < j && reg[..j][i] == k;
      assert reg[i] == k;
    }
    RemovalsAvoid(before.notified, s, behave, c);
    PassRemoves(reg[..j], reg, s, behave);
    PassCallsAt(reg, reg, s, behave, j);
  }

  /**
    A callback that always unsubscribes itself is told at most once by a
    dispatch, and once told it is no longer registered. If it is registered,
    the reducer does not throw and no callback ahead of it removes it, it is
    told exactly once.
   */
  lemma DispatchSelfUnsubscribe<S, A, E, Id>(st: Store<S, A, E, Id>, action: Action<A>, behave: Behaviour<S, Id>, c: Id)
    requires Valid(st)
    requires forall s :: c in behave(c, s)
    ensures var r := Step(st, action, behave);
            && |Seen(r.trace, c)| <= 1
            && (|Seen(r.trace, c)| == 1 ==> c !in r.store.registry)
            && (c !in st.registry ==> Seen(r.trace, c) == [] && c !in r.store.registry)
    ensures c in st.registry && st.reducer(st.state, action).Ok? &&
            NoEarlierRemoval(st.registry, c, st.reducer(st.state, action).value, behave) ==>
              |Seen(Step(st, action, behave).trace, c)| == 1
  {
    var called: seq<Event<S, A, Id>> := [Reduced(st.state, action)];
    if st.reducer(st.state, action).Ok? {
      var s := st.reducer(st.state, action).value;
      var p := Pass(st.registry, st.registry, s, behave);
      PassOnce(st.registry, st.registry, s, behave);
      PassRemoves(st.registry, st.registry, s, behave);
      AnnounceSeen<S, A, Id>(p.notified, s, c);
      SeenAppend(called, Announce<S, A, Id>(p.notified, s), c);
      if c in p.notified {
        RemovalsInclude(p.notified, s, behave, c);
      }
      if c in st.registry && NoEarlierRemoval(st.registry, c, s, behave) {
        ReachedWhileRegistered(st.registry, s, behave, c);
      }
    }
  }

  /**
    A registered callback that no callback ever unsubscribes is told the new
    state by a successful dispatch, exactly once, and stays registered.
   */
  lemma DispatchKeepsUnremoved<S, A, E, Id>(st: Store<S, A, E, Id>, action: Action<A>, behave: Behaviour<S, Id>, c: Id)
    requires Valid(st) && c in st.registry
    requires forall k, s :: c !in behave(k, s)
    ensures var r := Step(st, action, behave);
            && c in r.store.registry
            && Seen(r.trace, c) == States(st.reducer, st.state, [action])
  {
    var called: seq<Event<S, A, Id>> := [Reduced(st.state, action)];
    if st.reducer(st.state, action).Ok? {
      var s := st.reducer(st.state, action).value;
      var p := Pass(st.registry, st.registry, s, behave);
      PassOnce(st.registry, st.registry, s, behave);
      PassRemoves(st.registry, st.registry, s, behave);
      PassReachesSurvivors(st.registry, st.registry, s, behave);
      RemovalsAvoid(p.notified, s, behave, c);
      AnnounceSeen<S, A, Id>(p.notified, s, c);
      SeenAppend(called, Announce<S, A, Id>(p.notified, s), c);
    }
  }

  // ---- a sequence of dispatches ----

  /**
    After consecutive dispatches the state is the left fold of the reducer over
    the actions, the reducer having been called once per dispatch; if some
    dispatch throws, that exception is the one that escapes.
   */
  lemma {:induction false} RunFollowsReduce<S, A, E, Id>(st: Store<S, A, E, Id>, actions: seq<Action<A>>, behave: Behaviour<S, Id>)
    ensures var r := Run(st, actions, behave);
            var folded := Reduce(st.reducer, st.state, actions);
            && r.store.reducer == st.reducer
            && (folded.Ok? ==> r.thrown == None && GetState(r.store) == folded.value)
            && (folded.Err? ==> r.thrown == Some(folded.error))
            && ReducerCalls(r.trace) == |States(st.reducer, st.state, actions)| + (if folded.Err? then 1 else 0)
    decreases |actions|
  {
    if |actions| > 0 {
      var first := Step(st, actions[0], behave);
      var called: seq<Event<S, A, Id>> := [Reduced(st.state, actions[0])];
      if st.reducer(st.state, actions[0]).Ok? {
        var s := st.reducer(st.state, actions[0]).value;
        var p := Pass(st.registry, st.registry, s, behave);
        AnnounceCallees<S, A, Id>(p.notified, s);
        ReducerCallsAppend(called, Announce<S, A, Id>(p.notified, s));
        RunFollowsReduce(first.store, actions[1..], behave);
        ReducerCallsAppend(first.trace, Run(first.store, actions[1..], behave).trace);
      }
    }
  }

  /** When no dispatch throws, there is one intermediate state per action. */
  lemma {:induction false} StatesLength<S, A, E>(reducer: Reducer<S, A, E>, s: Option<S>, actions: seq<Action<A>>)
    requires Reduce(reducer, s, actions).Ok?
    ensures |States(reducer, s, actions)| == |actions|
    decreases |actions|
  {
    if |actions| > 0 {
      StatesLength(reducer, reducer(s, actions[0]).value, actions[1..]);
    }
  }

  /**
    A callback that unsubscribes itself whenever it is called is called at most
    once over any number of dispatches, and never if it was not registered. If
    it is registered, the first dispatch succeeds and no callback ahead of it
    removes it then, it is called exactly once in total.
   */
  lemma {:induction false} SelfUnsubscribeCalledOnce<S, A, E, Id>(st: Store<S, A, E, Id>, actions: seq<Action<A>>, behave: Behaviour<S, Id>, c: Id)
    requires Valid(st)
    requires forall s :: c in behave(c, s)
    ensures var r := Run(st, actions, behave);
            && |Seen(r.trace, c)| <= 1
            && (c !in st.registry ==> Seen(r.trace, c) == [] && c !in r.store.registry)
    ensures |actions| > 0 && c in st.registry && st.reducer(st.state, actions[0]).Ok? &&
            NoEarlierRemoval(st.registry, c, st.reducer(st.state, actions[0]).value, behave) ==>
              |Seen(Run(st, actions, behave).trace, c)| == 1
    decreases |actions|
  {
    if |actions| > 0 {
      var first := Step(st, actions[0], behave);
      DispatchSelfUnsubscribe(st, actions[0], behave, c);
      if first.thrown.None? {
        DispatchKeepsValid(st, actions[0], behave);
        SelfUnsubscribeCalledOnce(first.store, actions[1..], behave, c);
        SeenAppend(first.trace, Run(first.store, actions[1..], behave).trace, c);
      }
    }
  }

  /**
    A registered callback that nobody unsubscribes is told every state the store
    passes through, in order, and is still registered at the end.
   */
  lemma {:induction false} UnremovedSeesEveryState<S, A, E, Id>(st: Store<S, A, E, Id>, actions: seq<Action<A>>, behave: Behaviour<S, Id>, c: Id)
    requires Valid(st) && c in st.registry
    requires forall k, s :: c !in behave(k, s)
    ensures var r := Run(st, actions, behave);
            && c in r.store.registry
            && Seen(r.trace, c) == States(st.reducer, st.state, actions)
    decreases |actions|
  {
    if |actions| > 0 {
      var first := Step(st, actions[0], behave);
      DispatchKeepsUnremoved(st, actions[0], behave, c);
      if first.thrown.None? {
        DispatchKeepsValid(st, actions[0], behave);
        UnremovedSeesEveryState(first.store, actions[1..], behave, c);
        SeenAppend(first.trace, Run(first.store, actions[1..], behave).trace, c);
      }
    }
  }
}

/**
  The behaviours the repository's own tests describe, stated about concrete
  reducers and callbacks and derived from the general properties.
  A JavaScript object state such as `{ name: 'foo' }` is a map from field names
  to strings; an action `{ type, payload }` is a pair.
 */
module StoreScenarios {
  import opened Results
  import opened Registry
  import opened StoreCore
  import opened StoreProperties

  type Obj = map<string, string>
  type NameAction = (string, string)

  /** `(state) => state`: never throws and returns the state it is given. */
  function Identity(s: Option<Obj>, a: Action<NameAction>): (r: Result<Option<Obj>, string>)
    ensures r.Ok? && r.value == s
  {
    Ok(s)
  }

  /**
    The tests' reducer: `SET_NAME` copies the state with `name` set to the payload;
    any other action, the empty one included, returns the state unchanged.
   */
  function SetName(s: Option<Obj>, a: Action<NameAction>): (r: Result<Option<Obj>, string>)
    ensures r.Ok?
    ensures a.Act? && a.payload.0 == "SET_NAME" ==>
              && r.value.Some?
              && "name" in r.value.value && r.value.value["name"] == a.payload.1
              && (s.Some? ==> forall f :: f in s.value && f != "name" ==> f in r.value.value && r.value.value[f] == s.value[f])
              && (forall f :: f in r.value.value && f != "name" ==> s.Some? && f in s.value)
    ensures !(a.Act? && a.payload.0 == "SET_NAME") ==> r.value == s
  {
    match a
    case Act((kind, payload)) =>
      if kind == "SET_NAME" then Ok(Some((if s.Some? then s.value else map[])["name" := payload])) else Ok(s)
    case NoAction => Ok(s)
  }

  /**
    `SetName` with a default parameter: a missing state reads as
    `{ name: 'foo' }`, so the initializing call with the empty action yields it.
   */
  function SetNameDefaultFoo(s: Option<Obj>, a: Action<NameAction>): (r: Result<Option<Obj>, string>)
    ensures s.Some? ==> r == SetName(s, a)
    ensures s.None? && a == NoAction ==> r == Ok(Some(map["name" := "foo"]))
  {
    SetName(if s.None? then Some(map["name" := "foo"]) else s, a)
  }

  /**
    Only callback `c` does something besides counting: it calls its own
    unsubscribe handle, and so removes itself and nobody else.
   */
  function UnsubscribesItself(c: int): (r: Behaviour<Obj, int>)
    ensures forall s :: r(c, s) == {c}
    ensures forall k, s :: k != c ==> r(k, s) == {}
  {
    (k: int, s: Option<Obj>) => if k == c then {c} else {}
  }

  /** Callbacks that only record what they are told. */
  function Quiet(k: int, s: Option<Obj>): set<int> {
    {}
  }

  /**
    With no initial state the store asks the reducer once, with the empty action,
    and takes its default; a supplied initial state is kept and the reducer is
    not consulted.
   */
  lemma InitializesFromReducerOrInitialState(x: Obj)
    ensures var created := Construct<Obj, NameAction, string, int>(SetNameDefaultFoo, None);
            && created.store.Ok?
            && GetState(created.store.value) == Some(map["name" := "foo"])
            && ReducerCalls(created.trace) == 1
    ensures var created := Construct<Obj, NameAction, string, int>(Identity, Some(x));
            && created.store.Ok?
            && GetState(created.store.value) == Some(x)
            && ReducerCalls(created.trace) == 0
  {
  }

  /** The store of the multiple-subscribers test: three callbacks registered in order. */
  function ThreeSubscribed(initial: Obj, c1: int, c2: int, c3: int): (st: Store<Obj, NameAction, string, int>)
    requires c1 != c2 && c2 != c3 && c1 != c3
    ensures st == Store(Identity, Some(initial), [c1, c2, c3])
  {
    var created := Construct<Obj, NameAction, string, int>(Identity, Some(initial));
    var st0 := created.store.value;
    assert st0 == Store(Identity, Some(initial), []);
    var st1 := Subscribe(st0, c1).0;
    assert st1.registry == [] + [c1];
    var st2 := Subscribe(st1, c2).0;
    assert st2.registry == [c1] + [c2];
    var st3 := Subscribe(st2, c3).0;
    assert st3.registry == [c1, c2] + [c3];
    st3
  }

  /**
    The situation of the multiple-subscribers test, for any reducer that does
    not throw on `foo`: three callbacks registered in order, the second removes
    itself when called, nobody removes the first or the third, and the first
    does not remove the second. One dispatch calls each once; after a second,
    the first and third were called twice and the second still once.
   */
  lemma MultipleSubscribers<S, A, E, Id>(st: Store<S, A, E, Id>, foo: Action<A>, behave: Behaviour<S, Id>, c1: Id, c2: Id, c3: Id)
    requires Valid(st) && st.registry == [c1, c2, c3]
    requires forall s :: c2 in behave(c2, s) && c2 !in behave(c1, s)
    requires forall k, s :: c1 !in behave(k, s) && c3 !in behave(k, s)
    requires forall s :: st.reducer(s, foo).Ok?
    ensures var once := Run(st, [foo], behave);
            |Seen(once.trace, c1)| == 1 && |Seen(once.trace, c2)| == 1 && |Seen(once.trace, c3)| == 1
    ensures var twice := Run(st, [foo, foo], behave);
            |Seen(twice.trace, c1)| == 2 && |Seen(twice.trace, c2)| == 1 && |Seen(twice.trace, c3)| == 2
  {
    var acts := [foo, foo];
    assert acts[1..] == [foo];
    var first := Step(st, foo, behave);
    assert |States(st.reducer, st.state, [foo])| == 1 by {
      StatesLength(st.reducer, st.state, [foo]);
    }
    assert |States(st.reducer, st.state, acts)| == 2 by {
      assert Reduce(st.reducer, first.store.state, [foo]).Ok?;
      StatesLength(st.reducer, st.state, acts);
    }
    UnremovedSeesEveryState(st, [foo], behave, c1);
    UnremovedSeesEveryState(st, [foo], behave, c3);
    UnremovedSeesEveryState(st, acts, behave, c1);
    UnremovedSeesEveryState(st, acts, behave, c3);
    SecondCalledOnce(st, [foo], behave, c1, c2, c3);
    SecondCalledOnce(st, acts, behave, c1, c2, c3);
  }

  /**
    The second callback removes itself and the first does not remove it, so
    it is reached while registered in the first dispatch and never again.
   */
  lemma SecondCalledOnce<S, A, E, Id>(st: Store<S, A, E, Id>, acts: seq<Action<A>>, behave: Behaviour<S, Id>, c1: Id, c2: Id, c3: Id)
    requires Valid(st) && st.registry == [c1, c2, c3] && |acts| > 0
    requires forall s :: c2 in behave(c2, s) && c2 !in behave(c1, s)
    requires st.reducer(st.state, acts[0]).Ok?
    ensures |Seen(Run(st, acts, behave).trace, c2)| == 1
  {
    SecondNotRemovedEarly(st.registry, behave, c1, c2, c3);
    assert NoEarlierRemoval(st.registry, c2, st.reducer(st.state, acts[0]).value, behave);
    SelfUnsubscribeCalledOnce(st, acts, behave, c2);
  }

  /** With three distinct callbacks, only the first is ahead of the second. */
  lemma SecondNotRemovedEarly<S, Id>(reg: seq<Id>, behave: Behaviour<S, Id>, c1: Id, c2: Id, c3: Id)
    requires NoDups(reg) && reg == [c1, c2, c3]
    requires forall s :: c2 !in behave(c1, s)
    ensures forall s :: NoEarlierRemoval(reg, c2, s, behave)
  {
    assert reg[0] != reg[1] && reg[1] != reg[2];
    forall s, i, j | 0 <= i < j < |reg| && reg[j] == c2
      ensures c2 !in behave(reg[i], s)
    {
      assert j == 1 && i == 0;
    }
  }

  /** The test's own callbacks and reducer meet the conditions of `MultipleSubscribers`. */
  lemma MultipleSubscribersTest(initial: Obj, foo: Action<NameAction>, c1: int, c2: int, c3: int)
    requires c1 != c2 && c2 != c3 && c1 != c3
    ensures var st := ThreeSubscribed(initial, c1, c2, c3);
            var once := Run(st, [foo], UnsubscribesItself(c2));
            |Seen(once.trace, c1)| == 1 && |Seen(once.trace, c2)| == 1 && |Seen(once.trace, c3)| == 1
    ensures var st := ThreeSubscribed(initial, c1, c2, c3);
            var twice := Run(st, [foo, foo], UnsubscribesItself(c2));
            |Seen(twice.trace, c1)| == 2 && |Seen(twice.trace, c2)| == 1 && |Seen(twice.trace, c3)| == 2
  {
    var st := ThreeSubscribed(initial, c1, c2, c3);
    MultipleSubscribers(st, foo, UnsubscribesItself(c2), c1, c2, c3);
  }

  /**
    A subscriber hears nothing before the first dispatch, then `'bar'` and
    `'baz'` in that order, always the state the store holds.
   */
  lemma SubscribeToStateChanges()
    ensures var created := Construct<Obj, NameAction, string, int>(SetName, Some(map["name" := "baz"]));
            var st := Subscribe(created.store.value, 1).0;
            var r := Run(st, [Act(("SET_NAME", "bar")), Act(("SET_NAME", "baz"))], Quiet);
            && Notifications(created.trace) == []
            && GetState(r.store) == Some(map["name" := "baz"])
            && Seen(r.trace, 1) == [Some(map["name" := "bar"]), Some(map["name" := "baz"])]
  {
    var m0, m1, m2 := map["name" := "baz"], map["name" := "bar"], map["name" := "baz"];
    var created := Construct<Obj, NameAction, string, int>(SetName, Some(m0));
    var st := Subscribe(created.store.value, 1).0;
    assert st == Store(SetName, Some(m0), [1]);
    var a1, a2 := Act(("SET_NAME", "bar")), Act(("SET_NAME", "baz"));
    var acts := [a1, a2];
    assert acts[1..] == [a2];
    assert m0["name" := "bar"] == m1;
    assert m1["name" := "baz"] == m2;
    assert SetName(Some(m0), a1) == Ok(Some(m1));
    assert SetName(Some(m1), a2) == Ok(Some(m2));
    assert States(SetName, Some(m1), [a2]) == [Some(m2)];
    assert States(SetName, Some(m0), acts) == [Some(m1), Some(m2)];
    assert Reduce(SetName, Some(m1), [a2]) == Ok(Some(m2));
    assert Reduce(SetName, Some(m0), acts) == Ok(Some(m2));
    RunFollowsReduce(st, acts, Quiet);
    UnremovedSeesEveryState(st, acts, Quiet, 1);
  }

  /** An action the reducer ignores leaves the state as it was; `SET_NAME` then sets the name. */
  lemma DispatchActions()
    ensures var st := Construct<Obj, NameAction, string, int>(SetName, Some(map[])).store.value;
            && GetState(Run(st, [Act(("FOO", "bar"))], Quiet).store) == Some(map[])
            && GetState(Run(st, [Act(("FOO", "bar")), Act(("SET_NAME", "foo"))], Quiet).store) == Some(map["name" := "foo"])
  {
    var st := Construct<Obj, NameAction, string, int>(SetName, Some(map[])).store.value;
    var acts := [Act(("FOO", "bar")), Act(("SET_NAME", "foo"))];
    assert acts[1..] == [Act(("SET_NAME", "foo"))];
    RunFollowsReduce(st, [Act(("FOO", "bar"))], Quiet);
    RunFollowsReduce(st, acts, Quiet);
  }
}

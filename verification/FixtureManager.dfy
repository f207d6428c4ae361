/** The container itself: fixture definitions with a cache and finalizers of their
    own, and the manager that resolves parameters by name, recursively. */
module FixtureManagement {
  import opened Collections
  import opened FixtureModel

  class FixtureDef {
    const name: Name
    const spec: Spec
    var cachedResult: Option<(Value, Key)>
    var finalizers: seq<nat>

    constructor (name: Name, spec: Spec)
      ensures this.name == name && this.spec == spec && SlotOf() == Slot(None, [])
    {
      this.name, this.spec := name, spec;
      cachedResult, finalizers := None, [];
    }

    function SlotOf(): Slot
      reads this
    {
      Slot(cachedResult, finalizers)
    }

    /** The finalizer of a generator: resuming it must end it. */
    method Finalize(generator: nat, how: nat -> Resumption) returns (r: Result<(), Error>)
      ensures r.Err? <==> !how(generator).Ends?
    {
      match how(generator)
      case Ends => r := Ok(());
      case YieldsAgain => r := Err(Raised(name));
      case Fails => r := Err(Raised(name));
    }

    /** `clear_cache`: resumes the pending generators, last one first. An error of one
        is caught and reported, and the next one is resumed. */
    method ClearCache(how: nat -> Resumption) returns (log: seq<nat>, caught: seq<nat>)
      modifies this
      ensures log == Reverse(old(finalizers)) && SlotOf() == Slot(None, [])
      ensures caught == Raising(log, how)
    {
      log, caught := [], [];
      for i := |finalizers| downto 0
        invariant |log| == |finalizers| - i && finalizers == old(finalizers)
        invariant forall j :: 0 <= j < |log| ==> log[j] == finalizers[|finalizers| - 1 - j]
        invariant caught == Raising(log, how)
      {
        var r := Finalize(finalizers[i], how);
        assert (log + [finalizers[i]])[..|log|] == log;
        log := log + [finalizers[i]];
        if r.Err? {
          caught := caught + [finalizers[i]];
        }
      }
      cachedResult, finalizers := None, [];
    }
  }

  ghost function SlotsOf(fixtures: map<Name, FixtureDef>): map<Name, Slot>
    reads fixtures.Values
  {
    map n | n in fixtures :: fixtures[n].SlotOf()
  }

  ghost function RegistryOf(fixtures: map<Name, FixtureDef>): Registry {
    map n | n in fixtures :: fixtures[n].spec
  }

  class FixtureManager {
    const fixtures: map<Name, FixtureDef>
    /** The names in registration order. */
    const order: seq<Name>
    /** A measure by which parameters come before the fixtures that use them. */
    ghost const rank: Name -> nat
    var globalSession: nat
    var threadSessions: map<nat, nat>
    var isShutdown: bool
    /** The world outside: the calls of fixture functions and the generators resumed. */
    var calls: seq<Call>
    var resumed: seq<nat>
    /** How generators take being resumed, and the errors of finalizers reported. */
    const how: nat -> Resumption
    var reported: seq<nat>
    ghost var callsBefore: nat

    ghost function Reg(): Registry {
      RegistryOf(fixtures)
    }

    ghost function State(): Store
      reads this, fixtures.Values
    {
      Store(SlotsOf(fixtures), calls, resumed, globalSession, callsBefore)
    }

    ghost predicate Named() {
      && (forall n :: n in fixtures ==> fixtures[n].name == n)
      && NoDup(order) && (forall n :: n in order <==> n in fixtures)
      && Acyclic(Reg(), rank)
    }

    /** Every finalizer that raised was reported, in order, and stopped no other. */
    ghost predicate Reported()
      reads `resumed, `reported
    {
      reported == Raising(resumed, how)
    }

    ghost predicate TornDown()
      reads this, fixtures.Values
    {
      TeardownOk(State()) && forall n :: n in State().slots ==> Empty(State().slots[n])
    }

    ghost predicate Valid()
      reads this, fixtures.Values
    {
      && Named() && Reported()
      && (if isShutdown then TornDown() else Inv(Reg(), rank, State()))
    }

    /** A manager whose fixtures have all been registered, parameters first. */
    constructor (fixtures: map<Name, FixtureDef>, order: seq<Name>, how: nat -> Resumption, ghost rank: Name -> nat)
      requires (forall n :: n in fixtures ==> fixtures[n].name == n)
      requires NoDup(order) && (forall n :: n in order <==> n in fixtures) && Acyclic(RegistryOf(fixtures), rank)
      requires forall n :: n in fixtures ==> fixtures[n].SlotOf() == Slot(None, [])
      ensures Valid() && !isShutdown && calls == [] && resumed == []
      ensures this.fixtures == fixtures && this.order == order && this.rank == rank && this.how == how
    {
      this.fixtures, this.order, this.rank, this.how := fixtures, order, rank, how;
      globalSession, threadSessions, isShutdown := 0, map[], false;
      calls, resumed, reported, callsBefore := [], [], [], 0;
      new;
      hide Inv, Acyclic, NoDup;
      InvAtStart(Reg(), rank, State());
    }

    function CacheKey(scope: Scope, thread: nat): Key
      reads this`globalSession, this`threadSessions
    {
      match scope
      case Singleton => SingletonKey
      case Global => GlobalKey(globalSession)
      case Thread => ThreadKey(thread, if thread in threadSessions then threadSessions[thread] else 0)
    }

    /** `get_fixture`: the cached value, or that of a call with resolved parameters. */
    method GetFixture(name: Name, thread: nat) returns (r: Result<Value, Error>)
      requires Valid()
      modifies this`calls, fixtures.Values
      ensures Valid()
      ensures isShutdown ==> r == Err(ShutDown) && State() == old(State())
      ensures !isShutdown ==> Grows(Reg(), rank, old(State()), State(), rank(name) + 1)
      ensures !isShutdown && Deterministic(Reg()) ==> r == Eval(Reg(), rank, name)
      ensures !isShutdown && name !in fixtures ==> r == Err(NotFound(name)) && State() == old(State())
      ensures !isShutdown && r.Err? ==> Blamed(Reg(), old(State()), State(), r.error)
      ensures !isShutdown && name in fixtures ==>
                Answered(Reg(), old(State()), State(), name, CacheKey(fixtures[name].spec.scope, thread), r)
      decreases rank(name), 2
    {
      hide TeardownOk, OncePerSession, Coherent, PlainRegistry, Deterministic, Grows, KeysKnown, ArgsOk;
      if isShutdown {
        return Err(ShutDown);
      }
      GrowsNowhere(Reg(), rank, State(), rank(name) + 1);
      if name !in fixtures {
        return Err(NotFound(name));
      }
      var def := fixtures[name];
      var key := CacheKey(def.spec.scope, thread);
      var cached := Lookup(def.cachedResult, key);
      if cached.Some? {
        return Ok(cached.value);
      }
      r := ExecuteFixture(name, thread, key);
    }

    /** Calls a fixture that missed its cache, and caches what it gives. */
    method ExecuteFixture(name: Name, thread: nat, key: Key) returns (r: Result<Value, Error>)
      requires Valid() && !isShutdown && name in fixtures
      requires key == CacheKey(fixtures[name].spec.scope, thread) && Lookup(fixtures[name].cachedResult, key).None?
      modifies this`calls, fixtures.Values
      ensures Valid()
      ensures Grows(Reg(), rank, old(State()), State(), rank(name) + 1)
      ensures Deterministic(Reg()) ==> r == Eval(Reg(), rank, name)
      ensures Answered(Reg(), old(State()), State(), name, key, r)
      decreases rank(name), 1
    {
      hide Inv, TeardownOk, Eval, Deterministic, Grows, ArgsOk, Called, Acyclic, NoDup, Raising, Empty, Blamed;
      hide Answered;
      var args := ResolveParameters(name, thread);
      ghost var mid := State();
      if args.Err? {
        GrowsNowhere(Reg(), rank, mid, rank(name) + 1);
        GrowsFurther(Reg(), rank, old(State()), mid, mid, rank(name));
        FailureAnswers(Reg(), rank, old(State()), mid, name, key, args.error);
        return Err(args.error);
      }
      ExecutionCompletes(Reg(), rank, old(State()), mid, name, args.value,
                         fixtures[name].spec.func(args.value, |calls|), key);
      r := Invoke(name, args.value, key);
    }

    /** The call itself, with its effect on the fixture's finalizers and cache. */
    method Invoke(name: Name, args: seq<Value>, key: Key) returns (r: Result<Value, Error>)
      requires Named() && name in fixtures
      modifies this`calls, fixtures[name]
      ensures var o := fixtures[name].spec.func(args, |old(calls)|);
              State() == Called(old(State()), name, args, o, key) && r == ValueOf(name, o)
    {
      hide Acyclic, NoDup, Reg;
      var def := fixtures[name];
      var outcome := def.spec.func(args, |calls|);
      if outcome.Yields? {
        def.finalizers := def.finalizers + [|calls|];
      }
      calls := calls + [Call(name, args, outcome)];
      r := ValueOf(name, outcome);
      if r.Ok? {
        def.cachedResult := Some((r.value, key));
      }
      assert forall m :: m in fixtures && m != name ==> fixtures[m].SlotOf() == old(fixtures[m].SlotOf());
      assert SlotsOf(fixtures) == old(SlotsOf(fixtures))[name := def.SlotOf()];
    }

    /** The values of a fixture's parameters, resolved in order. */
    method ResolveParameters(name: Name, thread: nat) returns (r: Result<seq<Value>, Error>)
      requires Valid() && !isShutdown && name in fixtures
      modifies this`calls, fixtures.Values
      ensures Valid()
      ensures Grows(Reg(), rank, old(State()), State(), rank(name))
      ensures r.Ok? ==> |r.value| == |fixtures[name].spec.params| && ArgsOk(Reg(), rank, State(), name, r.value)
      ensures r.Err? && Deterministic(Reg()) ==> Eval(Reg(), rank, name) == Err(r.error)
      ensures r.Err? ==> Blamed(Reg(), old(State()), State(), r.error)
      decreases rank(name), 0
    {
      hide Inv, TeardownOk, Eval, Deterministic, Grows, ArgsOk, NoDup, Answered, Raising, SlotsOf, Empty, Blamed;
      var params := fixtures[name].spec.params;
      var args: seq<Value> := [];
      GrowsNowhere(Reg(), rank, State(), rank(name));
      NoArgs(Reg(), rank, State(), name);
      for i := 0 to |params|
        invariant Valid() && |args| == i
        invariant Grows(Reg(), rank, old(State()), State(), rank(name))
        invariant ArgsOk(Reg(), rank, State(), name, args)
      {
        ghost var before := State();
        assert params[i] in params;
        var v := GetFixture(params[i], thread);
        GrowsOn(Reg(), rank, old(State()), before, State(), rank(name), rank(params[i]) + 1);
        if v.Err? {
          BlamedSince(Reg(), rank, old(State()), before, State(), v.error, rank(name));
          ResolutionFails(Reg(), rank, before, name, args, v.error);
          return Err(v.error);
        }
        ArgsExtend(Reg(), rank, before, State(), name, args, CacheKey(fixtures[params[i]].spec.scope, thread), v.value);
        args := args + [v.value];
      }
      r := Ok(args);
    }

    method ClearFixture(name: Name)
      requires Named() && Reported() && name in fixtures
      modifies this`resumed, this`reported, fixtures[name]
      ensures Reported() && State() == Cleared(old(State()), name)
    {
      hide Acyclic, NoDup, Reg, Reverse, Raising;
      var log, caught := fixtures[name].ClearCache(how);
      RaisingConcat(resumed, log, how);
      resumed, reported := resumed + log, reported + caught;
      assert forall m :: m in fixtures && m != name ==> fixtures[m].SlotOf() == old(fixtures[m].SlotOf());
      assert SlotsOf(fixtures) == old(SlotsOf(fixtures))[name := fixtures[name].SlotOf()];
    }

    lemma OrderRegistered()
      requires Named()
      ensures forall i :: 0 <= i < |order| ==> order[i] in fixtures
      ensures forall n :: n in fixtures ==> n in Reg() && Reg()[n] == fixtures[n].spec
    {
    }

    /** Clears, in registration order, the fixtures of a scope. */
    method ClearScope(scope: Scope)
      requires Named() && Reported()
      modifies this`resumed, this`reported, fixtures.Values
      ensures Reported() && State() == ClearedEach(old(State()), OfScope(Reg(), order, scope))
    {
      hide *;
      ghost var base, reg := State(), Reg();
      OrderRegistered();
      NothingCleared(base, reg, scope);
      for i := 0 to |order|
        invariant Reported() && State() == ClearedEach(base, OfScope(reg, order[..i], scope))
      {
        OfScopeNext(reg, order, i, scope);
        if fixtures[order[i]].spec.scope == scope {
          ClearFixture(order[i]);
          ClearedNext(base, OfScope(reg, order[..i], scope), order[i]);
        }
      }
      assert order[..|order|] == order;
    }

    /** `start_global_session`: a new key, then every GLOBAL fixture is cleared. */
    method StartGlobalSession() returns (r: Result<(), Error>)
      requires Valid()
      modifies this`globalSession, this`callsBefore, this`resumed, this`reported, fixtures.Values
      ensures Valid()
      ensures isShutdown ==> r == Err(ShutDown) && State() == old(State())
      ensures !isShutdown ==>
                && r.Ok? && var begun := old(State()).(session := old(globalSession) + 1, before := |calls|);
                State() == ClearedEach(begun, OfScope(Reg(), order, Global))
    {
      hide Inv, TeardownOk, NoDup, Acyclic, ClearedEach, OfScope, Current;
      if isShutdown {
        return Err(ShutDown);
      }
      NewSessionKeeps(Reg(), rank, State());
      OfScopeMembers(Reg(), order, Global);
      globalSession, callsBefore := globalSession + 1, |calls|;
      ClearedEachKeeps(Reg(), rank, State(), OfScope(Reg(), order, Global));
      ClearScope(Global);
      r := Ok(());
    }

    /** `clear_thread_fixtures`, which does not look at the shutdown flag. */
    method ClearThreadFixtures()
      requires Valid()
      modifies this`resumed, this`reported, fixtures.Values
      ensures Valid()
      ensures State() == ClearedEach(old(State()), OfScope(Reg(), order, Thread))
    {
      hide Inv, TeardownOk, NoDup, Acyclic, ClearedEach;
      OfScopeMembers(Reg(), order, Thread);
      if !isShutdown {
        ClearedEachKeeps(Reg(), rank, State(), OfScope(Reg(), order, Thread));
      }
      EachIsCleared(State(), OfScope(Reg(), order, Thread));
      ClearScope(Thread);
    }

    /** The entry of `session_context`: a new key for the calling thread. */
    method StartSession(thread: nat)
      requires Valid()
      modifies this`threadSessions
      ensures Valid() && State() == old(State())
      ensures CacheKey(Thread, thread) != old(CacheKey(Thread, thread))
      ensures forall t :: t != thread ==> CacheKey(Thread, t) == old(CacheKey(Thread, t))
    {
      hide Inv, TeardownOk, NoDup, Acyclic;
      var current := if thread in threadSessions then threadSessions[thread] else 0;
      threadSessions := threadSessions[thread := current + 1];
    }

    /** `shutdown`: every fixture is cleared, and nothing is left to resume. */
    method Shutdown()
      requires Valid()
      modifies this`isShutdown, this`resumed, this`reported, fixtures.Values
      ensures Valid() && isShutdown
      ensures State() == if old(isShutdown) then old(State()) else ClearedEach(old(State()), order)
      ensures forall i :: 0 <= i < |calls| && calls[i].outcome.Yields? ==> i in resumed
    {
      hide Inv, TeardownOk, NoDup, Acyclic, ClearedEach, PendingOf, SlotsOf, Raising;
      if isShutdown {
        NothingPending(State());
      } else {
        InvTeardown(Reg(), rank, State());
        SlotsListed();
        EverythingCleared(State(), order);
        isShutdown := true;
        ClearAll();
      }
    }

    lemma SlotsListed()
      requires Named()
      ensures forall n :: n in State().slots ==> n in order
    {
    }

    method ClearAll()
      requires Named() && Reported()
      modifies this`resumed, this`reported, fixtures.Values
      ensures Reported() && State() == ClearedEach(old(State()), order)
    {
      hide *;
      ghost var base := State();
      OrderRegistered();
      NothingCleared(base, Reg(), Global);
      for i := 0 to |order|
        invariant Reported() && State() == ClearedEach(base, order[..i])
      {
        assert order[..i + 1] == order[..i] + [order[i]];
        ClearFixture(order[i]);
        ClearedNext(base, order[..i], order[i]);
      }
      assert order[..|order|] == order;
    }
  }

  /** A fixture asked for twice is called again exactly if it gave None or the second
      asker, in a THREAD scope, is another thread: every fixture has one cache entry,
      which all threads share. */
  method GetTwice(m: FixtureManager, name: Name, t1: nat, t2: nat)
    returns (first: Result<Value, Error>, second: Result<Value, Error>, callsBetween: nat)
    requires m.Valid() && !m.isShutdown && name in m.fixtures
    modifies m`calls, m.fixtures.Values
    ensures m.Valid()
    ensures first.Ok? && second.Ok? ==>
              (|m.calls| == callsBetween <==> first.value != Null && (m.fixtures[name].spec.scope.Thread? ==> t1 == t2))
  {
    hide Inv, TeardownOk, Deterministic, NoDup, Acyclic, Eval, RegistryOf, Grows, Blamed, Raising, FixtureManager.Valid;
    first := m.GetFixture(name, t1);
    callsBetween := |m.calls|;
    second := m.GetFixture(name, t2);
  }
}

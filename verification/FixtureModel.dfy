/** The dependency-injection container on values: what a fixture is, plain recursive
    evaluation, and the history that teardown and caching are judged by. */
module FixtureModel {
  import opened Collections

  type Name = string

  /** Python values as far as the container looks at them: None, or some object. */
  datatype Value = Null | Object(identity: int)

  datatype Scope = Singleton | Global | Thread

  datatype Error = ShutDown | NotFound(name: Name) | NoYield(name: Name) | Raised(name: Name)

  /** How one call of a fixture function ends. Yielding functions are generators. */
  datatype Outcome = Returns(value: Value) | Yields(value: Value) | EndsWithoutYield | Raises

  /** A fixture function is handed its arguments; the serial number of the call
      stands for everything else that its outcome may depend on. */
  datatype Spec = Spec(scope: Scope, params: seq<Name>, func: (seq<Value>, nat) -> Outcome)

  type Registry = map<Name, Spec>

  datatype Key = SingletonKey | GlobalKey(session: nat) | ThreadKey(thread: nat, session: nat)

  function ValueOf(name: Name, o: Outcome): Result<Value, Error> {
    match o
    case Returns(v) => Ok(v)
    case Yields(v) => Ok(v)
    case EndsWithoutYield => Err(NoYield(name))
    case Raises => Err(Raised(name))
  }

  /** `get_cached_result`, followed by the test for None: a cached None is a miss. */
  function Lookup(cached: Option<(Value, Key)>, key: Key): Option<Value> {
    if cached.Some? && cached.value.1 == key && cached.value.0 != Null then Some(cached.value.0) else None
  }

  // ---------- plain recursion ----------

  ghost predicate Acyclic(reg: Registry, rank: Name -> nat) {
    forall n, p :: n in reg && p in reg[n].params ==> rank(p) < rank(n)
  }

  /** No outcome depends on the call. */
  ghost predicate Deterministic(reg: Registry) {
    forall n, args, i, j :: n in reg ==> reg[n].func(args, i) == reg[n].func(args, j)
  }

  ghost function Eval(reg: Registry, rank: Name -> nat, n: Name): Result<Value, Error>
    requires Acyclic(reg, rank)
    decreases rank(n), 0
  {
    if n !in reg then Err(NotFound(n)) else
      match EvalAll(reg, rank, n, |reg[n].params|)
      case Err(e) => Err(e)
      case Ok(args) => ValueOf(n, reg[n].func(args, 0))
  }

  /** The first `k` parameters of `n`, in order, up to the first that fails. */
  ghost function EvalAll(reg: Registry, rank: Name -> nat, n: Name, k: nat): Result<seq<Value>, Error>
    requires Acyclic(reg, rank) && n in reg && k <= |reg[n].params|
    decreases rank(n), 0, k
  {
    if k == 0 then Ok([]) else
      match EvalAll(reg, rank, n, k - 1)
      case Err(e) => Err(e)
      case Ok(args) =>
        assert reg[n].params[k - 1] in reg[n].params;
        match Eval(reg, rank, reg[n].params[k - 1])
        case Err(e) => Err(e)
        case Ok(v) => Ok(args + [v])
  }

  // ---------- the history ----------

  datatype Call = Call(name: Name, args: seq<Value>, outcome: Outcome)

  datatype Slot = Slot(cached: Option<(Value, Key)>, finalizers: seq<nat>)

  /** The container: the slot of each fixture, the calls made so far, the generators
      resumed so far (by the serial number of the call that made them), the current
      global session and the calls made before it. */
  datatype Store = Store(slots: map<Name, Slot>, calls: seq<Call>, resumed: seq<nat>, session: nat, before: nat)

  /** The generators of fixture `n` that yielded and were not resumed, oldest first. */
  ghost function PendingOf(calls: seq<Call>, resumed: seq<nat>, n: Name): seq<nat> {
    if calls == [] then [] else
      var i := |calls| - 1;
      PendingOf(calls[..i], resumed, n)
      + if calls[i].name == n && calls[i].outcome.Yields? && i !in resumed then [i] else []
  }

  lemma {:induction false} PendingMembers(calls: seq<Call>, resumed: seq<nat>, n: Name)
    ensures forall i: nat :: i in PendingOf(calls, resumed, n) <==>
              (i < |calls| && calls[i].name == n && calls[i].outcome.Yields? && i !in resumed)
    ensures NoDup(PendingOf(calls, resumed, n))
  {
    if calls != [] {
      var init := calls[..|calls| - 1];
      PendingMembers(init, resumed, n);
      assert forall i :: 0 <= i < |init| ==> calls[i] == init[i];
    }
  }

  ghost predicate Ascending(s: seq<nat>) {
    forall i, j :: 0 <= i < j < |s| ==> s[i] < s[j]
  }

  /** Pending generators are listed in the order in which they were set up. */
  lemma {:induction false} PendingInOrder(calls: seq<Call>, resumed: seq<nat>, n: Name)
    ensures Ascending(PendingOf(calls, resumed, n))
  {
    if calls != [] {
      var init := calls[..|calls| - 1];
      PendingInOrder(init, resumed, n);
      PendingMembers(init, resumed, n);
      var p := PendingOf(init, resumed, n);
      assert forall i :: 0 <= i < |p| ==> p[i] in p;
    }
  }

  /** Resuming generators of other fixtures, or ones resumed already, changes nothing. */
  lemma {:induction false} PendingUnaffected(calls: seq<Call>, resumed: seq<nat>, more: seq<nat>, n: Name)
    requires forall i :: i in more && i < |calls| ==> calls[i].name != n
    ensures PendingOf(calls, resumed + more, n) == PendingOf(calls, resumed, n)
  {
    if calls != [] {
      PendingUnaffected(calls[..|calls| - 1], resumed, more, n);
    }
  }

  /** Once all its pending generators are resumed, a fixture has none. */
  lemma {:induction false} PendingCleared(calls: seq<Call>, resumed: seq<nat>, more: seq<nat>, n: Name)
    requires forall i :: i in PendingOf(calls, resumed, n) ==> i in more
    ensures PendingOf(calls, resumed + more, n) == []
  {
    var p := PendingOf(calls, resumed + more, n);
    PendingMembers(calls, resumed, n);
    PendingMembers(calls, resumed + more, n);
    assert forall i :: i in p ==> i in PendingOf(calls, resumed, n);
    if p != [] {
      FirstElement(p);
    }
  }

  function Reverse(s: seq<nat>): (r: seq<nat>)
    ensures |r| == |s| && forall i :: 0 <= i < |s| ==> r[i] == s[|s| - 1 - i]
  {
    seq(|s|, i requires 0 <= i < |s| => s[|s| - 1 - i])
  }

  /** How a generator takes being resumed: it ends, yields once more, or raises. */
  datatype Resumption = Ends | YieldsAgain | Fails

  /** The resumed generators whose finalizer raised, in order: a second yield is a
      RuntimeError. */
  function Raising(log: seq<nat>, how: nat -> Resumption): seq<nat> {
    if log == [] then [] else
      var last := log[|log| - 1];
      Raising(log[..|log| - 1], how) + if how(last).Ends? then [] else [last]
  }

  /** The reports name exactly the resumed generators that did not end, in that order. */
  lemma {:induction false} RaisingReports(log: seq<nat>, how: nat -> Resumption, i: nat, j: nat)
    ensures i in Raising(log, how) <==> i in log && how(i) != Ends
    ensures Precedes(Raising(log, how), i, j) <==> Precedes(log, i, j) && how(i) != Ends && how(j) != Ends
  {
    if log != [] {
      var init, last := log[..|log| - 1], log[|log| - 1];
      assert log == init + [last];
      RaisingReports(init, how, i, j);
      PrecedesSnoc(init, last, i, j);
      PrecedesSnoc(Raising(init, how), last, i, j);
      assert Raising(init, how) + [] == Raising(init, how);
    } else {
      assert !Precedes(log, i, j) && !Precedes(Raising(log, how), i, j);
    }
  }

  lemma {:induction false} RaisingConcat(a: seq<nat>, b: seq<nat>, how: nat -> Resumption)
    ensures Raising(a + b, how) == Raising(a, how) + Raising(b, how)
  {
    if b == [] {
      assert a + b == a;
    } else {
      assert (a + b)[..|a + b| - 1] == a + b[..|b| - 1];
      RaisingConcat(a, b[..|b| - 1], how);
    }
  }

  lemma ReverseMembers(s: seq<nat>)
    ensures forall x :: x in Reverse(s) <==> x in s
    ensures NoDup(s) ==> NoDup(Reverse(s))
  {
    forall x | x in s
      ensures x in Reverse(s)
    {
      var i :| 0 <= i < |s| && s[i] == x;
      assert Reverse(s)[|s| - 1 - i] == x;
    }
  }

  /** Finalizers: each fixture has pending exactly its generators that yielded and
      were not resumed, in set-up order, and no generator is resumed twice. */
  ghost predicate TeardownOk(st: Store) {
    && (forall n :: n in st.slots ==> st.slots[n].finalizers == PendingOf(st.calls, st.resumed, n))
    && (forall i :: 0 <= i < |st.calls| ==> st.calls[i].name in st.slots)
    && (forall i :: i in st.resumed ==> i < |st.calls| && st.calls[i].outcome.Yields?)
    && NoDup(st.resumed)
  }

  /** The fixture is cached for the current global session, by a value other than None. */
  predicate Current(reg: Registry, st: Store, n: Name) {
    n in reg && reg[n].scope.Global? && n in st.slots && Lookup(st.slots[n].cached, GlobalKey(st.session)).Some?
  }

  /** The outcome gives the value `v`: the function returned it, or its generator
      yielded it. */
  predicate Gives(o: Outcome, v: Value) {
    o == Returns(v) || o == Yields(v)
  }

  predicate Produced(c: Call) {
    (c.outcome.Returns? || c.outcome.Yields?) && c.outcome.value != Null
  }

  /** A call of the current session that gave a GLOBAL fixture a value other than None. */
  ghost predicate GaveValue(reg: Registry, st: Store, i: int) {
    && st.before <= i < |st.calls| && st.calls[i].name in reg && reg[st.calls[i].name].scope.Global?
    && Produced(st.calls[i])
  }

  /** In the current session a GLOBAL fixture is given a value at most once; from
      then on it is cached and not called again. */
  ghost predicate OncePerSession(reg: Registry, st: Store) {
    && st.before <= |st.calls|
    && (forall i :: GaveValue(reg, st, i) ==> Current(reg, st, st.calls[i].name))
    && (forall i, j :: GaveValue(reg, st, i) && i < j < |st.calls| ==> st.calls[j].name != st.calls[i].name)
  }

  /** The SINGLETON fixture is cached, by a value other than None. */
  predicate Held(reg: Registry, st: Store, n: Name) {
    n in reg && reg[n].scope.Singleton? && n in st.slots && Lookup(st.slots[n].cached, SingletonKey).Some?
  }

  /** A call that gave a SINGLETON fixture a value other than None. */
  ghost predicate GaveSingleton(reg: Registry, st: Store, i: int) {
    && 0 <= i < |st.calls| && st.calls[i].name in reg && reg[st.calls[i].name].scope.Singleton?
    && Produced(st.calls[i])
  }

  /** Once a SINGLETON fixture has been given a value it is cached, in every session,
      and not called again. */
  ghost predicate SingletonOnce(reg: Registry, st: Store) {
    && (forall i :: GaveSingleton(reg, st, i) ==> Held(reg, st, st.calls[i].name))
    && (forall i, j :: GaveSingleton(reg, st, i) && i < j < |st.calls| ==> st.calls[j].name != st.calls[i].name)
  }

  /** Call `i` is one of fixture `n`, and its function gave `v` for the values that
      are now cached for its parameters. */
  ghost predicate Explains(reg: Registry, st: Store, i: int, n: Name, v: Value)
    requires n in reg
  {
    && 0 <= i < |st.calls| && st.calls[i].name == n
    && var c := st.calls[i];
    && c.outcome == reg[n].func(c.args, i) && Gives(c.outcome, v)
    && |c.args| == |reg[n].params|
    && forall j :: 0 <= j < |c.args| ==>
         var p := reg[n].params[j];
         c.args[j] != Null && p in st.slots && st.slots[p].cached == Some((c.args[j], GlobalKey(st.session)))
  }

  /** Every current value was computed from the current values of its parameters. */
  ghost predicate Coherent(reg: Registry, st: Store) {
    forall n :: Current(reg, st, n) ==> exists i :: Explains(reg, st, i, n, st.slots[n].cached.value.0)
  }

  /** What was recorded of a call is what the fixture's function does. */
  ghost predicate CallsRecorded(reg: Registry, st: Store) {
    forall i :: 0 <= i < |st.calls| ==>
      st.calls[i].name in reg && st.calls[i].outcome == reg[st.calls[i].name].func(st.calls[i].args, i)
  }

  /** Every fixture is GLOBAL and no outcome is None. */
  ghost predicate PlainRegistry(reg: Registry) {
    && (forall n :: n in reg ==> reg[n].scope.Global?)
    && (forall n, args, i :: n in reg ==> !Gives(reg[n].func(args, i), Null))
  }

  /** Every cached value, of any scope, is what plain recursion computes. */
  ghost predicate CachesEval(reg: Registry, rank: Name -> nat, st: Store)
    requires Acyclic(reg, rank)
  {
    forall n :: n in st.slots && st.slots[n].cached.Some? ==> Eval(reg, rank, n) == Ok(st.slots[n].cached.value.0)
  }

  /** No value is cached for a global session still to come. */
  ghost predicate KeysKnown(st: Store) {
    forall n :: n in st.slots && st.slots[n].cached.Some? && st.slots[n].cached.value.1.GlobalKey? ==>
      st.slots[n].cached.value.1.session <= st.session
  }

  ghost predicate Inv(reg: Registry, rank: Name -> nat, st: Store) {
    && Acyclic(reg, rank) && st.slots.Keys == reg.Keys && KeysKnown(st) && CallsRecorded(reg, st)
    && TeardownOk(st) && OncePerSession(reg, st) && SingletonOnce(reg, st)
    && (PlainRegistry(reg) ==> Coherent(reg, st))
    && (Deterministic(reg) ==> CachesEval(reg, rank, st))
  }

  /** With GLOBAL fixtures and no None, every current value is the fixture's function
      applied to the current values of its parameters. */
  lemma CurrentIsFunctionOfCurrent(reg: Registry, rank: Name -> nat, st: Store, n: Name)
    returns (args: seq<Value>, serial: nat)
    requires Inv(reg, rank, st) && PlainRegistry(reg) && Current(reg, st, n)
    ensures Gives(reg[n].func(args, serial), st.slots[n].cached.value.0)
    ensures |args| == |reg[n].params|
    ensures forall j :: 0 <= j < |args| ==>
              var p := reg[n].params[j]; Current(reg, st, p) && args[j] == st.slots[p].cached.value.0
  {
    hide Acyclic, TeardownOk, OncePerSession, CachesEval, KeysKnown;
    serial :| Explains(reg, st, serial, n, st.slots[n].cached.value.0);
    args := st.calls[serial].args;
  }

  /** One instance of a SINGLETON: as long as the container is not shut down, whatever
      global sessions are started, at most one call gives it a value other than None. */
  lemma SingletonGivenOnce(reg: Registry, rank: Name -> nat, st: Store, i: nat, j: nat)
    requires Inv(reg, rank, st) && i < |st.calls| && j < |st.calls| && st.calls[i].name == st.calls[j].name
    requires st.calls[i].name in reg && reg[st.calls[i].name].scope.Singleton?
    requires Produced(st.calls[i]) && Produced(st.calls[j])
    ensures i == j
    ensures var slot := st.slots[st.calls[i].name]; Lookup(slot.cached, SingletonKey).Some?
  {
    hide Acyclic, TeardownOk, OncePerSession, CachesEval, Coherent, KeysKnown;
    assert GaveSingleton(reg, st, i) && GaveSingleton(reg, st, j);
  }

  // ---------- what a lookup does to the history ----------

  /** From `a` to `b` only calls were made, of fixtures ranked below `bound`, whose
      slots alone changed; what was current stays cached. */
  ghost predicate Grows(reg: Registry, rank: Name -> nat, a: Store, b: Store, bound: nat) {
    && b.slots.Keys == a.slots.Keys && b.resumed == a.resumed && b.session == a.session && b.before == a.before
    && a.calls <= b.calls
    && (forall i :: |a.calls| <= i < |b.calls| ==> rank(b.calls[i].name) < bound)
    && (forall n :: n in a.slots && rank(n) >= bound ==> b.slots[n] == a.slots[n])
    && (forall n :: Current(reg, a, n) ==> b.slots[n].cached == a.slots[n].cached)
  }

  lemma GrowsOn(reg: Registry, rank: Name -> nat, a: Store, b: Store, c: Store, bound: nat, more: nat)
    requires Grows(reg, rank, a, b, bound) && Grows(reg, rank, b, c, more) && more <= bound
    ensures Grows(reg, rank, a, c, bound)
  {
    forall n | Current(reg, a, n)
      ensures c.slots[n].cached == a.slots[n].cached
    {
      assert Current(reg, b, n);
    }
  }

  /** The arguments a fixture is about to be called with are those that plain
      recursion finds and, in a plain registry, the current values of its parameters. */
  ghost predicate ArgsOk(reg: Registry, rank: Name -> nat, st: Store, n: Name, args: seq<Value>)
    requires Acyclic(reg, rank) && n in reg
  {
    && |args| <= |reg[n].params|
    && (Deterministic(reg) ==> EvalAll(reg, rank, n, |args|) == Ok(args))
    && (PlainRegistry(reg) ==> forall j :: 0 <= j < |args| ==>
          var p := reg[n].params[j];
          args[j] != Null && p in st.slots && st.slots[p].cached == Some((args[j], GlobalKey(st.session))))
  }

  lemma ArgsStay(reg: Registry, rank: Name -> nat, a: Store, b: Store, n: Name, args: seq<Value>, bound: nat)
    requires Acyclic(reg, rank) && n in reg && ArgsOk(reg, rank, a, n, args) && Grows(reg, rank, a, b, bound)
    requires a.slots.Keys == reg.Keys
    ensures ArgsOk(reg, rank, b, n, args)
  {
    if PlainRegistry(reg) {
      forall j | 0 <= j < |args|
        ensures var p := reg[n].params[j];
                args[j] != Null && p in b.slots && b.slots[p].cached == Some((args[j], GlobalKey(b.session)))
      {
        assert Current(reg, a, reg[n].params[j]);
      }
    }
  }

  lemma {:induction false} ParameterFails(reg: Registry, rank: Name -> nat, n: Name, k: nat, j: nat)
    requires Acyclic(reg, rank) && n in reg && k <= j <= |reg[n].params| && EvalAll(reg, rank, n, k).Err?
    ensures EvalAll(reg, rank, n, j) == Err(EvalAll(reg, rank, n, k).error)
  {
    if k < j {
      ParameterFails(reg, rank, n, k, j - 1);
    }
  }

  lemma {:induction false} ResolutionFails(reg: Registry, rank: Name -> nat, st: Store, n: Name, args: seq<Value>,
                                           e: Error)
    requires Acyclic(reg, rank) && n in reg && ArgsOk(reg, rank, st, n, args) && |args| < |reg[n].params|
    requires Deterministic(reg) ==> Eval(reg, rank, reg[n].params[|args|]) == Err(e)
    ensures Deterministic(reg) ==> Eval(reg, rank, n) == Err(e)
  {
    if Deterministic(reg) {
      assert EvalAll(reg, rank, n, |args| + 1) == Err(e);
      ParameterFails(reg, rank, n, |args| + 1, |reg[n].params|);
    }
  }

  lemma NoArgs(reg: Registry, rank: Name -> nat, st: Store, n: Name)
    requires Acyclic(reg, rank) && n in reg
    ensures ArgsOk(reg, rank, st, n, [])
  {
  }

  /** Between `a` and `b` a lookup failed with `e`: a name is not registered, or the call
      made last, that of a fixture `e` names, ended without a yield or raised. */
  ghost predicate Blamed(reg: Registry, a: Store, b: Store, e: Error) {
    match e
    case ShutDown => false
    case NotFound(m) => m !in reg
    case NoYield(m) =>
      |a.calls| < |b.calls| && b.calls[|b.calls| - 1].name == m && b.calls[|b.calls| - 1].outcome.EndsWithoutYield?
    case Raised(m) =>
      |a.calls| < |b.calls| && b.calls[|b.calls| - 1].name == m && b.calls[|b.calls| - 1].outcome.Raises?
  }

  /** What a lookup of `n` under `key` answers: the cached value, or what the call made
      last returned or yielded, which is cached now. An error leaves the cache alone. */
  ghost predicate Answered(reg: Registry, a: Store, b: Store, n: Name, key: Key, r: Result<Value, Error>)
    requires n in reg && n in a.slots
  {
    match Lookup(a.slots[n].cached, key)
    case Some(v) => r == Ok(v) && b == a
    case None =>
      && n in b.slots
      && (r.Err? ==> b.slots[n].cached == a.slots[n].cached && Blamed(reg, a, b, r.error))
      && (r.Ok? ==>
            && b.slots[n].cached == Some((r.value, key))
            && |a.calls| < |b.calls|
            && var last := |b.calls| - 1;
               b.calls[last].name == n && Gives(b.calls[last].outcome, r.value)
               && b.calls[last].outcome == reg[n].func(b.calls[last].args, last))
  }

  lemma BlamedSince(reg: Registry, rank: Name -> nat, a: Store, b: Store, c: Store, e: Error, bound: nat)
    requires Grows(reg, rank, a, b, bound) && Blamed(reg, b, c, e)
    ensures Blamed(reg, a, c, e)
  {
  }

  /** A fixture one of whose parameters fails is not called, and answers with that error. */
  lemma FailureAnswers(reg: Registry, rank: Name -> nat, a: Store, b: Store, n: Name, key: Key, e: Error)
    requires n in reg && n in a.slots && Lookup(a.slots[n].cached, key).None?
    requires Grows(reg, rank, a, b, rank(n)) && Blamed(reg, a, b, e)
    ensures Answered(reg, a, b, n, key, Err(e))
  {
  }

  /** One more parameter is resolved. */
  lemma {:induction false} ArgsExtend(reg: Registry, rank: Name -> nat, a: Store, b: Store, n: Name, args: seq<Value>,
                                      key: Key, v: Value)
    requires Inv(reg, rank, a) && n in reg && ArgsOk(reg, rank, a, n, args) && |args| < |reg[n].params|
    requires var p := reg[n].params[|args|];
             && p in reg && KeyFits(reg, a, p, key) && Grows(reg, rank, a, b, rank(p) + 1)
             && Answered(reg, a, b, p, key, Ok(v))
             && (Deterministic(reg) ==> Eval(reg, rank, p) == Ok(v))
    ensures ArgsOk(reg, rank, b, n, args + [v])
  {
    hide Inv, Grows, Answered, KeyFits, PlainRegistry, Deterministic, Eval, ArgsOk;
    InvKeys(reg, rank, a);
    var p := reg[n].params[|args|];
    ArgsStay(reg, rank, a, b, n, args, rank(p) + 1);
    if PlainRegistry(reg) {
      CachedNow(reg, rank, a, b, p, key, v);
    }
    OneMoreArg(reg, rank, b, n, args, v);
  }

  /** A store before anything has happened. */
  lemma InvAtStart(reg: Registry, rank: Name -> nat, st: Store)
    requires Acyclic(reg, rank) && st.slots.Keys == reg.Keys && forall n :: n in st.slots ==> Empty(st.slots[n])
    requires st.calls == [] && st.resumed == [] && st.before == 0
    ensures Inv(reg, rank, st)
  {
    hide Acyclic, PlainRegistry, Deterministic, Eval;
  }

  lemma InvKeys(reg: Registry, rank: Name -> nat, st: Store)
    requires Inv(reg, rank, st)
    ensures Acyclic(reg, rank) && st.slots.Keys == reg.Keys
  {
  }

  lemma {:induction false} OneMoreArg(reg: Registry, rank: Name -> nat, b: Store, n: Name, args: seq<Value>, v: Value)
    requires Acyclic(reg, rank) && n in reg && ArgsOk(reg, rank, b, n, args) && |args| < |reg[n].params|
    requires Deterministic(reg) ==> Eval(reg, rank, reg[n].params[|args|]) == Ok(v)
    requires PlainRegistry(reg) ==>
               var p := reg[n].params[|args|];
               v != Null && p in b.slots && b.slots[p].cached == Some((v, GlobalKey(b.session)))
    ensures ArgsOk(reg, rank, b, n, args + [v])
  {
    hide PlainRegistry, Deterministic, Eval;
    if Deterministic(reg) {
      assert EvalAll(reg, rank, n, |args| + 1) == Ok(args + [v]);
    }
  }

  /** In a plain registry, what a lookup answers is cached for the current session. */
  lemma CachedNow(reg: Registry, rank: Name -> nat, a: Store, b: Store, p: Name, key: Key, v: Value)
    requires a.slots.Keys == reg.Keys && PlainRegistry(reg)
    requires p in reg && KeyFits(reg, a, p, key) && Grows(reg, rank, a, b, rank(p) + 1)
    requires Answered(reg, a, b, p, key, Ok(v))
    ensures v != Null && p in b.slots && b.slots[p].cached == Some((v, GlobalKey(b.session)))
  {
  }

  lemma GrowsNowhere(reg: Registry, rank: Name -> nat, st: Store, bound: nat)
    ensures Grows(reg, rank, st, st, bound)
  {
  }

  /** The store after fixture `n` was called and, if it gave a value, cached. */
  ghost function Called(st: Store, n: Name, args: seq<Value>, o: Outcome, key: Key): Store
    requires n in st.slots
  {
    var v := ValueOf(n, o);
    var slot := st.slots[n];
    st.(calls := st.calls + [Call(n, args, o)],
        slots := st.slots[n := Slot(if v.Ok? then Some((v.value, key)) else slot.cached,
                                    if o.Yields? then slot.finalizers + [|st.calls|] else slot.finalizers)])
  }

  /** The cache key that a fixture's scope selects. */
  ghost predicate KeyFits(reg: Registry, st: Store, n: Name, key: Key)
    requires n in reg
  {
    match reg[n].scope
    case Singleton => key == SingletonKey
    case Global => key == GlobalKey(st.session)
    case Thread => key.ThreadKey?
  }

  /** Fixture `n` missed its cache and is called with `args`. */
  ghost predicate Calls(reg: Registry, rank: Name -> nat, st: Store, n: Name, args: seq<Value>, o: Outcome, key: Key) {
    && Inv(reg, rank, st) && n in reg && KeyFits(reg, st, n, key) && Lookup(st.slots[n].cached, key).None?
    && |args| == |reg[n].params| && ArgsOk(reg, rank, st, n, args)
    && o == reg[n].func(args, |st.calls|)
  }

  lemma CalledTeardown(reg: Registry, rank: Name -> nat, st: Store, n: Name, args: seq<Value>, o: Outcome, key: Key)
    requires Calls(reg, rank, st, n, args, o, key)
    ensures TeardownOk(Called(st, n, args, o, key))
  {
    var c := Called(st, n, args, o, key);
    assert c.calls[..|st.calls|] == st.calls;
  }

  lemma CalledOnce(reg: Registry, rank: Name -> nat, st: Store, n: Name, args: seq<Value>, o: Outcome, key: Key)
    requires Calls(reg, rank, st, n, args, o, key)
    ensures OncePerSession(reg, Called(st, n, args, o, key))
    ensures Grows(reg, rank, st, Called(st, n, args, o, key), rank(n) + 1)
  {
    hide Acyclic, TeardownOk, Coherent, CachesEval, PlainRegistry, Deterministic, ArgsOk;
    var c := Called(st, n, args, o, key);
    forall i | GaveValue(reg, c, i)
      ensures Current(reg, c, c.calls[i].name)
      ensures forall j :: i < j < |c.calls| ==> c.calls[j].name != c.calls[i].name
    {
      if i < |st.calls| {
        assert GaveValue(reg, st, i);
        assert c.calls[i] == st.calls[i] && Current(reg, st, st.calls[i].name);
        assert forall j :: i < j < |st.calls| ==> c.calls[j] == st.calls[j];
      }
    }
  }

  lemma CalledSingleton(reg: Registry, rank: Name -> nat, st: Store, n: Name, args: seq<Value>, o: Outcome, key: Key)
    requires Calls(reg, rank, st, n, args, o, key)
    ensures SingletonOnce(reg, Called(st, n, args, o, key))
  {
    hide Acyclic, TeardownOk, OncePerSession, Coherent, CachesEval, PlainRegistry, Deterministic, ArgsOk;
    var c := Called(st, n, args, o, key);
    forall i | GaveSingleton(reg, c, i)
      ensures Held(reg, c, c.calls[i].name)
      ensures forall j :: i < j < |c.calls| ==> c.calls[j].name != c.calls[i].name
    {
      if i < |st.calls| {
        assert GaveSingleton(reg, st, i);
        assert c.calls[i] == st.calls[i] && Held(reg, st, st.calls[i].name);
        assert forall j :: i < j < |st.calls| ==> c.calls[j] == st.calls[j];
      }
    }
  }

  lemma CalledCoherent(reg: Registry, rank: Name -> nat, st: Store, n: Name, args: seq<Value>, o: Outcome, key: Key)
    requires Calls(reg, rank, st, n, args, o, key) && PlainRegistry(reg)
    ensures Coherent(reg, Called(st, n, args, o, key))
  {
    hide Deterministic, CachesEval, TeardownOk, OncePerSession;
    var c := Called(st, n, args, o, key);
    forall m | Current(reg, c, m)
      ensures exists i :: Explains(reg, c, i, m, c.slots[m].cached.value.0)
    {
      if m == n && ValueOf(n, o).Ok? {
        var i := |st.calls|;
        assert n !in reg[n].params;
        assert Explains(reg, c, i, m, c.slots[m].cached.value.0);
      } else {
        assert Current(reg, st, m);
        var i :| Explains(reg, st, i, m, st.slots[m].cached.value.0);
        assert c.calls[i] == st.calls[i];
        assert Explains(reg, c, i, m, c.slots[m].cached.value.0);
      }
    }
  }

  lemma {:induction false} CalledEval(reg: Registry, rank: Name -> nat, st: Store, n: Name, args: seq<Value>,
                                      o: Outcome, key: Key)
    requires Calls(reg, rank, st, n, args, o, key) && Deterministic(reg)
    ensures Eval(reg, rank, n) == ValueOf(n, o) && CachesEval(reg, rank, Called(st, n, args, o, key))
  {
    assert reg[n].func(args, |st.calls|) == reg[n].func(args, 0);
  }

  lemma {:induction false} CalledKeeps(reg: Registry, rank: Name -> nat, st: Store, n: Name, args: seq<Value>,
                                       o: Outcome, key: Key)
    requires Calls(reg, rank, st, n, args, o, key)
    ensures Inv(reg, rank, Called(st, n, args, o, key))
    ensures Grows(reg, rank, st, Called(st, n, args, o, key), rank(n) + 1)
    ensures Deterministic(reg) ==> Eval(reg, rank, n) == ValueOf(n, o)
  {
    hide Acyclic, TeardownOk, OncePerSession, SingletonOnce, Coherent, CachesEval, PlainRegistry, Deterministic;
    hide ArgsOk, Grows;
    CalledTeardown(reg, rank, st, n, args, o, key);
    CalledOnce(reg, rank, st, n, args, o, key);
    CalledSingleton(reg, rank, st, n, args, o, key);
    if PlainRegistry(reg) {
      CalledCoherent(reg, rank, st, n, args, o, key);
    }
    if Deterministic(reg) {
      CalledEval(reg, rank, st, n, args, o, key);
    }
  }

  lemma SlotStays(reg: Registry, rank: Name -> nat, a: Store, b: Store, n: Name)
    requires Grows(reg, rank, a, b, rank(n)) && n in a.slots
    ensures n in b.slots && b.slots[n] == a.slots[n] && b.session == a.session && a.calls <= b.calls
  {
  }

  /** From a miss, through resolving the parameters, to the call. */
  lemma {:induction false} ExecutionCompletes(reg: Registry, rank: Name -> nat, a: Store, mid: Store, n: Name,
                                              args: seq<Value>, o: Outcome, key: Key)
    requires Inv(reg, rank, mid) && Grows(reg, rank, a, mid, rank(n))
    requires n in reg && n in a.slots && KeyFits(reg, a, n, key) && Lookup(a.slots[n].cached, key).None?
    requires |args| == |reg[n].params| && ArgsOk(reg, rank, mid, n, args) && o == reg[n].func(args, |mid.calls|)
    ensures var c := Called(mid, n, args, o, key);
            && Inv(reg, rank, c) && Grows(reg, rank, a, c, rank(n) + 1)
            && Answered(reg, a, c, n, key, ValueOf(n, o))
            && (Deterministic(reg) ==> Eval(reg, rank, n) == ValueOf(n, o))
  {
    hide Inv, Eval, PlainRegistry, Deterministic, ArgsOk, Grows;
    SlotStays(reg, rank, a, mid, n);
    CalledKeeps(reg, rank, mid, n, args, o, key);
    GrowsFurther(reg, rank, a, mid, Called(mid, n, args, o, key), rank(n));
  }

  lemma GrowsFurther(reg: Registry, rank: Name -> nat, a: Store, b: Store, c: Store, bound: nat)
    requires Grows(reg, rank, a, b, bound) && Grows(reg, rank, b, c, bound + 1)
    ensures Grows(reg, rank, a, c, bound + 1)
  {
    assert Grows(reg, rank, a, b, bound + 1);
    GrowsOn(reg, rank, a, b, c, bound + 1, bound + 1);
  }

  // ---------- clearing ----------

  /** `clear_cache`: the pending generators are resumed, last one first. */
  ghost function Cleared(st: Store, n: Name): Store {
    if n !in st.slots then st else
    st.(slots := st.slots[n := Slot(None, [])], resumed := st.resumed + Reverse(st.slots[n].finalizers))
  }

  lemma ClearedTeardown(st: Store, n: Name)
    requires TeardownOk(st) && n in st.slots
    ensures TeardownOk(Cleared(st, n))
  {
    var more := Reverse(st.slots[n].finalizers);
    PendingMembers(st.calls, st.resumed, n);
    ReverseMembers(st.slots[n].finalizers);
    forall i, j | 0 <= i < |st.resumed| && 0 <= j < |more|
      ensures st.resumed[i] != more[j]
    {
      assert more[j] in more && st.resumed[i] in st.resumed;
    }
    NoDupConcat(st.resumed, more);
    forall m | m in st.slots
      ensures Cleared(st, n).slots[m].finalizers == PendingOf(st.calls, st.resumed + more, m)
    {
      if m == n {
        PendingCleared(st.calls, st.resumed, more, n);
      } else {
        PendingUnaffected(st.calls, st.resumed, more, m);
      }
    }
  }

  /** Clearing a fixture that is not current keeps the invariant. */
  lemma ClearedKeeps(reg: Registry, rank: Name -> nat, st: Store, n: Name)
    requires Inv(reg, rank, st) && n in st.slots && !Current(reg, st, n) && !Held(reg, st, n)
    ensures Inv(reg, rank, Cleared(st, n))
  {
    hide TeardownOk, Acyclic, Reverse, PlainRegistry, Deterministic;
    ClearedTeardown(st, n);
    var c := Cleared(st, n);
    assert forall m :: Current(reg, c, m) <==> Current(reg, st, m);
    forall i | GaveValue(reg, c, i)
      ensures GaveValue(reg, st, i)
    {
    }
    ClearedSingleton(reg, st, n);
    if PlainRegistry(reg) {
      ClearedCoherent(reg, st, n);
    }
  }

  lemma ClearedSingleton(reg: Registry, st: Store, n: Name)
    requires SingletonOnce(reg, st) && n in st.slots && !Held(reg, st, n)
    ensures SingletonOnce(reg, Cleared(st, n))
  {
    var c := Cleared(st, n);
    assert forall m :: Held(reg, c, m) <==> Held(reg, st, m);
    assert forall i :: GaveSingleton(reg, c, i) <==> GaveSingleton(reg, st, i);
  }

  lemma ClearedCoherent(reg: Registry, st: Store, n: Name)
    requires PlainRegistry(reg) && Coherent(reg, st)
    requires n in st.slots && st.slots.Keys == reg.Keys && !Current(reg, st, n)
    ensures Coherent(reg, Cleared(st, n))
  {
    var c := Cleared(st, n);
    forall m | Current(reg, c, m)
      ensures exists i :: Explains(reg, c, i, m, c.slots[m].cached.value.0)
    {
      assert Current(reg, st, m);
      var i :| Explains(reg, st, i, m, st.slots[m].cached.value.0);
      assert Explains(reg, c, i, m, c.slots[m].cached.value.0);
    }
  }

  /** The given fixtures cleared, one after another. */
  ghost function ClearedEach(st: Store, names: seq<Name>): Store {
    if names == [] then st else
      var k := |names| - 1;
      Cleared(ClearedEach(st, names[..k]), names[k])
  }

  lemma {:induction false} ClearedNext(st: Store, names: seq<Name>, n: Name)
    ensures ClearedEach(st, names + [n]) == Cleared(ClearedEach(st, names), n)
  {
    assert (names + [n])[..|names|] == names;
  }

  lemma {:induction false} NothingCleared(st: Store, reg: Registry, scope: Scope)
    ensures ClearedEach(st, []) == st && OfScope(reg, [], scope) == []
  {
  }

  lemma InvTeardown(reg: Registry, rank: Name -> nat, st: Store)
    requires Inv(reg, rank, st)
    ensures TeardownOk(st)
  {
  }

  predicate Empty(slot: Slot) {
    slot == Slot(None, [])
  }

  lemma {:induction false} EachIsCleared(st: Store, names: seq<Name>)
    ensures var c := ClearedEach(st, names);
            && c.slots.Keys == st.slots.Keys && c.calls == st.calls && c.session == st.session && c.before == st.before
            && st.resumed <= c.resumed
            && forall n :: n in st.slots ==> c.slots[n] == if n in names then Slot(None, []) else st.slots[n]
    ensures TeardownOk(st) ==> TeardownOk(ClearedEach(st, names))
  {
    hide TeardownOk, Reverse;
    if names != [] {
      var k := |names| - 1;
      EachIsCleared(st, names[..k]);
      assert names[k] in names && forall n :: n in names <==> n in names[..k] || n == names[k];
      if TeardownOk(st) && names[k] in st.slots {
        ClearedTeardown(ClearedEach(st, names[..k]), names[k]);
      }
    }
  }

  lemma {:induction false} LastCleared(st: Store, names: seq<Name>)
    requires names != [] && NoDup(names) && names[|names| - 1] in st.slots
    ensures var n := names[|names| - 1];
            ClearedEach(st, names).resumed ==
              ClearedEach(st, names[..|names| - 1]).resumed + Reverse(st.slots[n].finalizers)
  {
    hide Reverse;
    EachIsCleared(st, names[..|names| - 1]);
  }

  lemma {:induction false} AllResumed(st: Store, names: seq<Name>, n: Name, x: nat)
    requires NoDup(names) && (forall m :: m in names ==> m in st.slots) && n in names && x in st.slots[n].finalizers
    ensures x in ClearedEach(st, names).resumed
  {
    hide Reverse, ClearedEach;
    var k := |names| - 1;
    LastCleared(st, names);
    if n == names[k] {
      ReverseMembers(st.slots[n].finalizers);
    } else {
      AllResumed(st, names[..k], n, x);
    }
  }

  /** The order of teardown: fixture after fixture as they are listed, and of one fixture
      the generator that was set up last first. */
  lemma {:induction false} TeardownOrder(st: Store, names: seq<Name>, a: Name, b: Name, x: nat, y: nat)
    requires NoDup(names) && (forall m :: m in names ==> m in st.slots) && a in names && b in names
    requires x in st.slots[a].finalizers && y in st.slots[b].finalizers
    requires Precedes(names, a, b) || (a == b && Precedes(st.slots[a].finalizers, y, x))
    ensures Precedes(ClearedEach(st, names).resumed, x, y)
  {
    hide Reverse, ClearedEach;
    var k := |names| - 1;
    var init, last := names[..k], names[k];
    assert names == init + [last];
    LastCleared(st, names);
    PrecedesSnoc(init, last, a, b);
    LastNotFirst(init, last, b);
    var done, more := ClearedEach(st, init).resumed, Reverse(st.slots[last].finalizers);
    ReverseMembers(st.slots[last].finalizers);
    if b != last {
      TeardownOrder(st, init, a, b, x, y);
      PrecedesLonger(done, more, x, y);
    } else if a == last {
      ReversePrecedes(st.slots[last].finalizers, y, x);
      PrecedesBehind(done, more, x, y);
    } else {
      AllResumed(st, init, a, x);
      PrecedesAcross(done, more, x, y);
    }
  }

  lemma LastNotFirst(init: seq<Name>, last: Name, b: Name)
    requires NoDup(init + [last])
    ensures !Precedes(init + [last], last, b)
  {
    assert (init + [last])[|init|] == last;
  }

  lemma ReversePrecedes(s: seq<nat>, x: nat, y: nat)
    requires Precedes(s, x, y)
    ensures Precedes(Reverse(s), y, x)
  {
    var i, j :| 0 <= i < j < |s| && s[i] == x && s[j] == y;
    assert Reverse(s)[|s| - 1 - j] == y && Reverse(s)[|s| - 1 - i] == x;
  }

  lemma PrecedesBehind(s: seq<nat>, more: seq<nat>, x: nat, y: nat)
    requires Precedes(more, x, y)
    ensures Precedes(s + more, x, y)
  {
    var i, j :| 0 <= i < j < |more| && more[i] == x && more[j] == y;
    assert (s + more)[|s| + i] == x && (s + more)[|s| + j] == y;
  }

  lemma PrecedesAcross(s: seq<nat>, more: seq<nat>, x: nat, y: nat)
    requires x in s && y in more
    ensures Precedes(s + more, x, y)
  {
    var i :| 0 <= i < |s| && s[i] == x;
    var j :| 0 <= j < |more| && more[j] == y;
    assert (s + more)[i] == x && (s + more)[|s| + j] == y;
  }

  lemma {:induction false} ClearedEachKeeps(reg: Registry, rank: Name -> nat, st: Store, names: seq<Name>)
    requires Inv(reg, rank, st) && forall n :: n in names ==> n in st.slots && !Current(reg, st, n) && !Held(reg, st, n)
    ensures Inv(reg, rank, ClearedEach(st, names))
  {
    hide Inv, Reverse;
    if names != [] {
      var k := |names| - 1;
      assert names[k] in names;
      ClearedEachKeeps(reg, rank, st, names[..k]);
      EachIsCleared(st, names[..k]);
      ClearedKeeps(reg, rank, ClearedEach(st, names[..k]), names[k]);
    }
  }

  /** When no finalizer is left, every generator that ever yielded was resumed. */
  lemma NothingPending(st: Store)
    requires TeardownOk(st) && forall n :: n in st.slots ==> Empty(st.slots[n])
    ensures forall i :: 0 <= i < |st.calls| && st.calls[i].outcome.Yields? ==> i in st.resumed
  {
    forall i | 0 <= i < |st.calls| && st.calls[i].outcome.Yields?
      ensures i in st.resumed
    {
      assert Empty(st.slots[st.calls[i].name]);
      PendingMembers(st.calls, st.resumed, st.calls[i].name);
    }
  }

  /** Clearing every fixture leaves nothing to resume. */
  lemma {:induction false} EverythingCleared(st: Store, order: seq<Name>)
    requires TeardownOk(st) && forall n :: n in st.slots ==> n in order
    ensures var c := ClearedEach(st, order);
            && TeardownOk(c) && (forall n :: n in c.slots ==> Empty(c.slots[n]))
            && forall i :: 0 <= i < |c.calls| && c.calls[i].outcome.Yields? ==> i in c.resumed
  {
    hide TeardownOk, ClearedEach;
    EachIsCleared(st, order);
    NothingPending(ClearedEach(st, order));
  }

  /** The fixtures of one scope, in registration order. */
  ghost function OfScope(reg: Registry, order: seq<Name>, scope: Scope): seq<Name> {
    if order == [] then [] else
      var k := |order| - 1;
      OfScope(reg, order[..k], scope) + if order[k] in reg && reg[order[k]].scope == scope then [order[k]] else []
  }

  lemma {:induction false} OfScopeMembers(reg: Registry, order: seq<Name>, scope: Scope)
    ensures forall n :: n in OfScope(reg, order, scope) <==> (n in order && n in reg && reg[n].scope == scope)
  {
    if order != [] {
      var k := |order| - 1;
      assert forall n :: n in order <==> n in order[..k] || n == order[k];
      OfScopeMembers(reg, order[..k], scope);
    }
  }

  /** They are listed, and so cleared, in registration order. */
  lemma {:induction false} OfScopeInOrder(reg: Registry, order: seq<Name>, scope: Scope, a: Name, b: Name)
    requires a in reg && reg[a].scope == scope && b in reg && reg[b].scope == scope
    ensures Precedes(OfScope(reg, order, scope), a, b) <==> Precedes(order, a, b)
  {
    if order != [] {
      var init, last := order[..|order| - 1], order[|order| - 1];
      assert order == init + [last];
      OfScopeMembers(reg, init, scope);
      OfScopeInOrder(reg, init, scope, a, b);
      PrecedesSnoc(init, last, a, b);
      PrecedesSnoc(OfScope(reg, init, scope), last, a, b);
      assert OfScope(reg, init, scope) + [] == OfScope(reg, init, scope);
    } else {
      assert !Precedes(order, a, b) && !Precedes(OfScope(reg, order, scope), a, b);
    }
  }

  lemma {:induction false} OfScopeNext(reg: Registry, order: seq<Name>, i: nat, scope: Scope)
    requires i < |order| && order[i] in reg
    ensures OfScope(reg, order[..i + 1], scope)
         == var before := OfScope(reg, order[..i], scope);
            if reg[order[i]].scope == scope then before + [order[i]] else before
  {
    assert order[..i + 1][..i] == order[..i];
  }

  /** A new global session: nothing is current any more. */
  lemma NewSessionKeeps(reg: Registry, rank: Name -> nat, st: Store)
    requires Inv(reg, rank, st)
    ensures var t := st.(session := st.session + 1, before := |st.calls|);
            Inv(reg, rank, t) && forall n :: !Current(reg, t, n)
  {
    hide Acyclic, PlainRegistry, Deterministic, PendingOf;
    var t := st.(session := st.session + 1, before := |st.calls|);
    assert forall n :: !Current(reg, t, n);
    assert forall i :: !GaveValue(reg, t, i);
  }
}

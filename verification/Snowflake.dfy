/** The id generator: bit-packed ids from a clock, with the sequence that counts
    within a millisecond and the two ways of handling a clock that ran backwards. */
module Snowflake {
  // ---------- bits ----------

  function Pow2(k: nat): (p: nat)
    ensures p >= 1
  {
    if k == 0 then 1 else 2 * Pow2(k - 1)
  }

  function ShiftLeft(a: int, k: nat): int {
    a * Pow2(k)
  }

  /** `a | b` on integers of any size, `a` in two's complement. */
  function BitOr(a: int, b: nat): (r: int)
    ensures a >= 0 ==> r >= 0
    decreases b
  {
    if b == 0 then a else 2 * BitOr(a / 2, b / 2) + if a % 2 == 1 || b % 2 == 1 then 1 else 0
  }

  /** `a & b`. */
  function BitAnd(a: nat, b: nat): nat
    decreases b
  {
    if b == 0 then 0 else 2 * BitAnd(a / 2, b / 2) + if a % 2 == 1 && b % 2 == 1 then 1 else 0
  }

  /** Or-ing into the `k` low bits that a shift left free is adding. */
  lemma {:induction false} OrIsSum(t: int, b: nat, k: nat)
    requires b < Pow2(k)
    ensures BitOr(ShiftLeft(t, k), b) == ShiftLeft(t, k) + b
  {
    if b != 0 {
      var half := t * Pow2(k - 1);
      assert t * Pow2(k) == 2 * half;
      OrIsSum(t, b / 2, k - 1);
    }
  }

  lemma {:induction false} OrParts(a: int, b: nat)
    ensures BitOr(a, b) / 2 == BitOr(a / 2, b / 2)
    ensures BitOr(a, b) % 2 == if a % 2 == 1 || b % 2 == 1 then 1 else 0
  {
  }

  lemma {:induction false} OrZero(b: nat)
    ensures BitOr(0, b) == b
  {
    if b != 0 {
      OrZero(b / 2);
    }
  }

  lemma {:induction false} OrSelf(b: nat)
    ensures BitOr(b, b) == b
  {
    if b != 0 {
      OrSelf(b / 2);
    }
  }

  /** Numbers below 2^k vanish in `k` ones. */
  lemma {:induction false} OnesAbsorb(b: nat, k: nat)
    requires b < Pow2(k)
    ensures BitOr(Pow2(k) - 1, b) == Pow2(k) - 1
  {
    if b != 0 {
      assert (2 * Pow2(k - 1) - 1) / 2 == Pow2(k - 1) - 1;
      OnesAbsorb(b / 2, k - 1);
    }
  }

  lemma {:induction false} BelowItsPower(k: nat)
    ensures k < Pow2(k)
  {
    if k > 0 {
      BelowItsPower(k - 1);
    }
  }

  lemma {:induction false} OrAssociates(a: int, b: nat, c: nat)
    ensures BitOr(BitOr(a, b), c) == BitOr(a, BitOr(b, c))
    decreases b + c
  {
    if c == 0 {
    } else if b == 0 {
      OrZero(c);
    } else {
      OrParts(a, b);
      OrParts(b, c);
      OrAssociates(a / 2, b / 2, c / 2);
      OrParts(BitOr(a, b), c);
      OrParts(a, BitOr(b, c));
    }
  }

  lemma {:induction false} OrOfShifts(a: int, b: nat, k: nat)
    ensures ShiftLeft(b, k) >= 0 && BitOr(ShiftLeft(a, k), ShiftLeft(b, k)) == ShiftLeft(BitOr(a, b), k)
  {
    hide BitOr, ShiftLeft;
    ShiftStep(a, k);
    ShiftStep(b, k);
    ShiftStep(BitOr(a, b), k);
    if k > 0 {
      OrOfShifts(a, b, k - 1);
      DoubledOr(ShiftLeft(a, k - 1), ShiftLeft(b, k - 1));
    }
  }

  lemma ShiftStep(a: int, k: nat)
    ensures ShiftLeft(a, k) == if k == 0 then a else 2 * ShiftLeft(a, k - 1)
  {
    if k > 0 {
      var p := Pow2(k - 1);
      assert a * (2 * p) == 2 * (a * p);
    }
  }

  lemma {:induction false} DoubledOr(a: int, b: nat)
    ensures BitOr(2 * a, 2 * b) == 2 * BitOr(a, b)
  {
    OrParts(2 * a, 2 * b);
  }

  /** And-ing with a mask of `k` ones leaves what is above the last multiple of 2^k. */
  lemma {:induction false} AndSplits(a: nat, k: nat) returns (c: nat)
    ensures a == Pow2(k) * c + BitAnd(a, Pow2(k) - 1) && BitAnd(a, Pow2(k) - 1) < Pow2(k)
  {
    if k == 0 {
      c := a;
    } else {
      var q := Pow2(k - 1);
      c := AndSplits(a / 2, k - 1);
      AndDoubled(a, q);
      Doubled(a, q, c, BitAnd(a / 2, q - 1));
    }
  }

  lemma AndDoubled(a: nat, q: nat)
    requires q > 0
    ensures BitAnd(a, 2 * q - 1) == 2 * BitAnd(a / 2, q - 1) + a % 2
  {
    assert (2 * q - 1) / 2 == q - 1 && (2 * q - 1) % 2 == 1;
  }

  lemma Doubled(a: nat, q: nat, c: nat, r: nat)
    requires a / 2 == q * c + r
    ensures a == (2 * q) * c + (2 * r + a % 2)
  {
    assert (2 * q) * c == 2 * (q * c);
  }

  // ---------- packing ----------

  const DATACENTER_BITS := 5
  const MACHINE_BITS := 5
  const SEQUENCE_BITS := 12
  const EPOCH := 1288834974657
  const SMALL_ROLLBACK_MS := 100

  predicate InRange(datacenter: nat, machine: nat) {
    datacenter < 32 && machine < 32
  }

  function Pack(elapsed: int, datacenter: nat, machine: nat, sequence: nat): int {
    BitOr(BitOr(BitOr(ShiftLeft(elapsed, SEQUENCE_BITS + MACHINE_BITS + DATACENTER_BITS),
                      ShiftLeft(datacenter, SEQUENCE_BITS + MACHINE_BITS)),
                ShiftLeft(machine, SEQUENCE_BITS)),
          sequence)
  }

  lemma Powers()
    ensures Pow2(5) == 32 && Pow2(10) == 1024 && Pow2(12) == 4096 && Pow2(17) == 131072 && Pow2(22) == 4194304
  {
    assert Pow2(3) == 8;
    assert Pow2(6) == 64;
    assert Pow2(9) == 512;
    assert Pow2(12) == 4096;
    assert Pow2(15) == 32768;
    assert Pow2(18) == 262144;
    assert Pow2(20) == 1048576;
  }

  /** The shifted-or is the arithmetic sum of the shifted fields. */
  lemma PackIsSum(elapsed: int, datacenter: nat, machine: nat, sequence: nat)
    requires InRange(datacenter, machine) && sequence < 4096
    ensures Pack(elapsed, datacenter, machine, sequence) ==
              elapsed * 4194304 + datacenter * 131072 + machine * 4096 + sequence
  {
    Powers();
    hide BitOr;
    var a := ShiftLeft(elapsed, 22);
    OrIsSum(elapsed, ShiftLeft(datacenter, 17), 22);
    var b := elapsed * 32 + datacenter;
    assert ShiftLeft(b, 17) == a + ShiftLeft(datacenter, 17);
    OrIsSum(b, ShiftLeft(machine, 12), 17);
    var c := b * 32 + machine;
    assert ShiftLeft(c, 12) == ShiftLeft(b, 17) + ShiftLeft(machine, 12);
    OrIsSum(c, sequence, 12);
  }

  lemma Divided(a: int, d: int, q: int, r: int)
    requires d == 32 || d == 4096 || d == 131072 || d == 4194304
    requires a == d * q + r && 0 <= r < d
    ensures a / d == q && a % d == r
  {
    if d == 32 {
    } else if d == 4096 {
    } else if d == 131072 {
    } else {
      assert a == 4194304 * q + r;
    }
  }

  /** All four fields can be read off the id. */
  lemma PackIsInvertible(elapsed: int, datacenter: nat, machine: nat, sequence: nat)
    requires InRange(datacenter, machine) && sequence < 4096
    ensures var id := Pack(elapsed, datacenter, machine, sequence);
            && id / 4194304 == elapsed && (id / 131072) % 32 == datacenter
            && (id / 4096) % 32 == machine && id % 4096 == sequence
  {
    PackIsSum(elapsed, datacenter, machine, sequence);
    hide Pack;
    var id := Pack(elapsed, datacenter, machine, sequence);
    var high := elapsed * 32 + datacenter;
    Divided(id, 4194304, elapsed, datacenter * 131072 + machine * 4096 + sequence);
    Divided(id, 131072, high, machine * 4096 + sequence);
    Divided(high, 32, elapsed, datacenter);
    Divided(id, 4096, high * 32 + machine, sequence);
    Divided(high * 32 + machine, 32, high, machine);
  }

  /** And-ing with the twelve ones of `max_sequence` is the remainder by 4096. */
  lemma {:induction false} MaskIsRemainder(a: nat)
    ensures BitAnd(a, Pow2(SEQUENCE_BITS) - 1) == a % 4096
  {
    Powers();
    hide BitAnd, Pow2;
    var c := AndSplits(a, SEQUENCE_BITS);
    RemainderOf(a, c, BitAnd(a, 4095));
  }

  lemma RemainderOf(a: nat, c: nat, r: nat)
    requires a == 4096 * c + r && r < 4096
    ensures r == a % 4096
  {
  }

  /** Two generators with different numbers never produce the same id, whatever
      their epochs, clocks and sequences. */
  lemma GeneratorsNeverCollide(e1: int, d1: nat, m1: nat, s1: nat, e2: int, d2: nat, m2: nat, s2: nat)
    requires InRange(d1, m1) && InRange(d2, m2) && s1 < 4096 && s2 < 4096
    requires (d1, m1) != (d2, m2)
    ensures Pack(e1, d1, m1, s1) != Pack(e2, d2, m2, s2)
  {
    PackIsInvertible(e1, d1, m1, s1);
    PackIsInvertible(e2, d2, m2, s2);
  }

  // ---------- numbers that need not be in range ----------

  /** The two numbers as they lie below the elapsed time: ten bits are theirs, what
      is above them is or-ed into the elapsed time. */
  function NodeOf(datacenter: nat, machine: nat): nat {
    BitOr(ShiftLeft(datacenter, MACHINE_BITS), machine)
  }

  /** The id for any numbers at all. */
  lemma {:induction false} PackOfNode(elapsed: int, datacenter: nat, machine: nat, sequence: nat)
    requires sequence < 4096
    ensures var node := NodeOf(datacenter, machine);
            Pack(elapsed, datacenter, machine, sequence)
            == (BitOr(elapsed, node / 1024) * 1024 + node % 1024) * 4096 + sequence
  {
    Powers();
    hide BitOr;
    var e5, e10, node := ShiftLeft(elapsed, 5), ShiftLeft(elapsed, 10), NodeOf(datacenter, machine);
    assert ShiftLeft(elapsed, 22) == ShiftLeft(e5, 17);
    OrOfShifts(e5, datacenter, 17);
    assert ShiftLeft(BitOr(e5, datacenter), 17) == ShiftLeft(ShiftLeft(BitOr(e5, datacenter), 5), 12);
    OrOfShifts(ShiftLeft(BitOr(e5, datacenter), 5), machine, 12);
    OrOfShifts(e5, datacenter, 5);
    assert ShiftLeft(e5, 5) == e10;
    OrAssociates(e10, ShiftLeft(datacenter, 5), machine);
    OrIsSum(BitOr(e10, node), sequence, 12);
    OrWithHigh(elapsed, node);
  }

  lemma {:induction false} OrWithHigh(elapsed: int, node: nat)
    ensures BitOr(ShiftLeft(elapsed, 10), node) == BitOr(elapsed, node / 1024) * 1024 + node % 1024
  {
    Powers();
    hide BitOr;
    var high, low := node / 1024, node % 1024;
    OrIsSum(high, low, 10);
    OrAssociates(ShiftLeft(elapsed, 10), ShiftLeft(high, 10), low);
    OrOfShifts(elapsed, high, 10);
    OrIsSum(BitOr(elapsed, high), low, 10);
  }

  predicate SameId(e1: int, d1: nat, m1: nat, s1: nat, e2: int, d2: nat, m2: nat, s2: nat) {
    s1 < 4096 && s2 < 4096 && Pack(e1, d1, m1, s1) == Pack(e2, d2, m2, s2)
  }

  /** Two generators, whatever their numbers, can issue a common id if and only if
      the low ten bits of their node numbers agree. */
  lemma GeneratorsCollideIff(d1: nat, m1: nat, d2: nat, m2: nat)
    ensures (exists e1: nat, s1: nat, e2: nat, s2: nat :: SameId(e1, d1, m1, s1, e2, d2, m2, s2))
            <==> NodeOf(d1, m1) % 1024 == NodeOf(d2, m2) % 1024
    ensures (exists e1: int, s1: nat, e2: int, s2: nat :: SameId(e1, d1, m1, s1, e2, d2, m2, s2))
            <==> NodeOf(d1, m1) % 1024 == NodeOf(d2, m2) % 1024
  {
    hide Pack, NodeOf, BitOr, Pow2;
    var n1, n2 := NodeOf(d1, m1), NodeOf(d2, m2);
    forall e1: int, s1: nat, e2: int, s2: nat | SameId(e1, d1, m1, s1, e2, d2, m2, s2)
      ensures n1 % 1024 == n2 % 1024
    {
      PackOfNode(e1, d1, m1, s1);
      PackOfNode(e2, d2, m2, s2);
      LowTenBits(BitOr(e1, n1 / 1024), n1 % 1024, s1, BitOr(e2, n2 / 1024), n2 % 1024, s2);
    }
    if n1 % 1024 == n2 % 1024 {
      var e := CommonElapsed(n1 / 1024, n2 / 1024);
      PackOfNode(e, d1, m1, 0);
      PackOfNode(e, d2, m2, 0);
      assert SameId(e, d1, m1, 0, e, d2, m2, 0);
    }
  }

  lemma LowTenBits(a: int, low: nat, s: nat, b: int, low': nat, s': nat)
    requires low < 1024 && low' < 1024 && s < 4096 && s' < 4096
    requires (a * 1024 + low) * 4096 + s == (b * 1024 + low') * 4096 + s'
    ensures a == b && low == low' && s == s'
  {
    assert a * 1024 + low == b * 1024 + low';
  }

  /** An elapsed time in which both high parts vanish. */
  lemma CommonElapsed(h1: nat, h2: nat) returns (e: nat)
    ensures BitOr(e, h1) == e && BitOr(e, h2) == e
  {
    hide BitOr, Pow2;
    var k := h1 + h2;
    BelowItsPower(k);
    e := Pow2(k) - 1;
    OnesAbsorb(h1, k);
    OnesAbsorb(h2, k);
  }

  /** Numbers taken from the octets of an address need not be in range: the addresses
      x.y.0.32 and x.y.1.0 share all their ids. */
  lemma OctetsCollide(elapsed: int, sequence: nat)
    requires sequence < 4096
    ensures Pack(elapsed, 0, 32, sequence) == Pack(elapsed, 1, 0, sequence)
  {
    Powers();
    assert ShiftLeft(32, 12) == ShiftLeft(1, 17);
  }

  /** The node number stays below the elapsed time. */
  predicate Fits(datacenter: nat, machine: nat) {
    datacenter < 32 && machine < 1024
  }

  lemma FitsIff(datacenter: nat, machine: nat)
    ensures Fits(datacenter, machine) <==> NodeOf(datacenter, machine) / 1024 == 0
  {
    Powers();
    hide BitOr;
    var a := ShiftLeft(datacenter, 5);
    OrBelowIff(a, machine, 10);
  }

  lemma {:induction false} OrBelowIff(a: nat, b: nat, k: nat)
    ensures BitOr(a, b) < Pow2(k) <==> a < Pow2(k) && b < Pow2(k)
  {
    if k == 0 {
      if a == 0 {
        OrZero(b);
      } else if b != 0 {
        OrNotZero(a, b);
      }
    } else {
      OrParts(a, b);
      OrBelowIff(a / 2, b / 2, k - 1);
    }
  }

  lemma {:induction false} OrNotZero(a: nat, b: nat)
    requires a != 0
    ensures BitOr(a, b) != 0
  {
    if b != 0 {
      OrParts(a, b);
      if a / 2 != 0 {
        OrNotZero(a / 2, b / 2);
      }
    }
  }

  // ---------- one call ----------

  /** The fields that calls change. */
  datatype Gen = Gen(start: int, last: int, sequence: nat)

  /** What the clock shows during a call: at the start, after the sleep, and at the
      first moment of the wait for the next millisecond that is past `last`. */
  datatype Readings = Readings(first: int, afterSleep: int, afterSpin: int)

  function LargeRollback(g: Gen, r: Readings): bool {
    g.last - r.first > SMALL_ROLLBACK_MS
  }

  /** The time a call goes by before the sequence is looked at. */
  function TimeOf(g: Gen, r: Readings): int {
    if g.last > r.first && !LargeRollback(g, r) then r.afterSleep else r.first
  }

  function Rebased(g: Gen, r: Readings): Gen {
    if LargeRollback(g, r) then Gen(r.first, r.first, 0) else g
  }

  function Advance(g: Gen, r: Readings): Gen {
    var b, t := Rebased(g, r), TimeOf(g, r);
    if b.last == t then
      var s := (b.sequence + 1) % 4096;
      Gen(b.start, if s == 0 then r.afterSpin else t, s)
    else Gen(b.start, t, 0)
  }

  /** The id that a generator in state `g` issued last. */
  function IdOf(g: Gen, datacenter: nat, machine: nat): int {
    Pack(g.last - g.start, datacenter, machine, g.sequence)
  }

  /** The wait for the next millisecond ends past the last timestamp. */
  predicate SpunPast(g: Gen, r: Readings) {
    r.afterSpin > Rebased(g, r).last
  }

  /** Ids of one generator compare by time, then by sequence. */
  lemma IdsCompare(e1: int, s1: nat, e2: int, s2: nat, datacenter: nat, machine: nat)
    requires Fits(datacenter, machine) && s1 < 4096 && s2 < 4096
    ensures Pack(e1, datacenter, machine, s1) < Pack(e2, datacenter, machine, s2) <==> e1 < e2 || (e1 == e2 && s1 < s2)
  {
    hide Pack, NodeOf;
    FitsIff(datacenter, machine);
    PackOfNode(e1, datacenter, machine, s1);
    PackOfNode(e2, datacenter, machine, s2);
  }

  /** A call issues a larger id than the call before exactly when the clock is not
      behind, or caught up during the sleep; a large rollback increases the id only
      from the very first id of an epoch. */
  lemma IdIncreasesIff(g: Gen, r: Readings, datacenter: nat, machine: nat)
    requires Fits(datacenter, machine) && g.sequence < 4096 && g.last >= g.start && SpunPast(g, r)
    ensures Advance(g, r).sequence < 4096
    ensures IdOf(Advance(g, r), datacenter, machine) > IdOf(g, datacenter, machine) <==>
              || r.first >= g.last
              || (g.last - r.first <= 100 && r.afterSleep >= g.last)
              || (g.last - r.first > 100 && g.last == g.start && g.sequence == 0)
  {
    hide Pack;
    var h := Advance(g, r);
    IdsCompare(g.last - g.start, g.sequence, h.last - h.start, h.sequence, datacenter, machine);
  }

  /** The epoch reset meant to avoid duplicates makes them: every large rollback
      issues the same id. */
  lemma LargeRollbacksCollide(g: Gen, r: Readings, g': Gen, r': Readings, datacenter: nat, machine: nat)
    requires LargeRollback(g, r) && LargeRollback(g', r')
    ensures IdOf(Advance(g, r), datacenter, machine) == IdOf(Advance(g', r'), datacenter, machine)
            == Pack(0, datacenter, machine, 1)
  {
    hide Pack;
  }

  // ---------- runs ----------

  /** The clock never falls more than 100 ms behind, and catches up during the sleep. */
  predicate Steady(g: Gen, r: Readings) {
    SpunPast(g, r) && (r.first >= g.last || (!LargeRollback(g, r) && r.afterSleep >= g.last))
  }

  /** The states after each call of a run. */
  function States(g: Gen, run: seq<Readings>): (s: seq<Gen>)
    ensures |s| == |run|
  {
    if run == [] then [] else
      var init := States(g, run[..|run| - 1]);
      init + [Advance(if init == [] then g else init[|init| - 1], run[|run| - 1])]
  }

  function Initial(sequence: nat): Gen {
    Gen(EPOCH, -1, sequence)
  }

  ghost predicate SteadyRun(g: Gen, run: seq<Readings>) {
    var s := States(g, run);
    && (run != [] ==> run[0].first >= EPOCH && SpunPast(g, run[0]))
    && forall i :: 0 < i < |run| ==> Steady(s[i - 1], run[i])
  }

  lemma StatesPrefix(g: Gen, run: seq<Readings>)
    requires run != []
    ensures var init := run[..|run| - 1];
            States(g, run)[..|run| - 1] == States(g, init)
            && (SteadyRun(g, run) ==> SteadyRun(g, init))
  {
    var init := run[..|run| - 1];
    var s, t := States(g, run), States(g, init);
    assert s[..|run| - 1] == t;
    if SteadyRun(g, run) {
      forall i | 0 < i < |init|
        ensures Steady(t[i - 1], init[i])
      {
        assert s[i - 1] == t[i - 1] && init[i] == run[i];
      }
    }
  }

  ghost predicate Increasing(s: seq<Gen>, datacenter: nat, machine: nat) {
    forall i, j :: 0 <= i < j < |s| ==> IdOf(s[i], datacenter, machine) < IdOf(s[j], datacenter, machine)
  }

  ghost predicate Distinct(s: seq<Gen>, datacenter: nat, machine: nat) {
    forall i, j :: 0 <= i < j < |s| ==> IdOf(s[i], datacenter, machine) != IdOf(s[j], datacenter, machine)
  }

  /** Over any run with a steady clock the ids strictly increase, also where the
      sequence wraps around within a millisecond. */
  lemma {:induction false} IdsIncrease(sequence: nat, run: seq<Readings>, datacenter: nat, machine: nat)
    requires Fits(datacenter, machine) && SteadyRun(Initial(sequence), run)
    ensures var s := States(Initial(sequence), run);
            && (forall i :: 0 <= i < |s| ==> s[i].sequence < 4096 && s[i].last >= s[i].start)
            && Increasing(s, datacenter, machine)
  {
    hide Pack, Steady;
    if run != [] {
      var g, n := Initial(sequence), |run| - 1;
      var s, t := States(g, run), States(g, run[..n]);
      StatesPrefix(g, run);
      IdsIncrease(sequence, run[..n], datacenter, machine);
      if n > 0 {
        assert s[n] == Advance(t[n - 1], run[n]) && s[n - 1] == t[n - 1];
        SteadyStep(t[n - 1], run[n], datacenter, machine);
      }
      assert forall i :: 0 <= i < n ==> s[i] == t[i];
    }
  }

  lemma SteadyStep(g: Gen, r: Readings, datacenter: nat, machine: nat)
    requires Fits(datacenter, machine) && g.sequence < 4096 && g.last >= g.start && Steady(g, r)
    ensures var h := Advance(g, r);
            && h.sequence < 4096 && h.last >= h.start
            && IdOf(g, datacenter, machine) < IdOf(h, datacenter, machine)
  {
    hide Pack;
    IdIncreasesIff(g, r, datacenter, machine);
  }

  /** Over any run with a steady clock an id tells the time at which it was issued: the
      reading with which its call ended, in milliseconds since 1288834974657. */
  lemma {:induction false} IdTellsTime(sequence: nat, run: seq<Readings>, i: nat, datacenter: nat, machine: nat)
    requires InRange(datacenter, machine) && SteadyRun(Initial(sequence), run) && i < |run|
    ensures var s := States(Initial(sequence), run);
            && s[i].start == 1288834974657
            && IdOf(s[i], datacenter, machine) / 4194304 + 1288834974657 == s[i].last
            && (s[i].last == run[i].first || s[i].last == run[i].afterSleep || s[i].last == run[i].afterSpin)
  {
    hide Pack, States, BitOr;
    var s := States(Initial(sequence), run);
    IdsIncrease(sequence, run, datacenter, machine);
    StateAfter(Initial(sequence), run, i);
    if i > 0 {
      IdTellsTime(sequence, run, i - 1, datacenter, machine);
    }
    PackIsInvertible(s[i].last - s[i].start, datacenter, machine, s[i].sequence);
  }

  /** While the clock stands still, ids are consecutive. */
  lemma {:induction false} ConsecutiveIds(g: Gen, run: seq<Readings>, i: nat, datacenter: nat, machine: nat)
    requires i < |run| && g.sequence + i + 1 < 4096 && forall k :: 0 <= k < |run| ==> run[k].first == g.last
    ensures var s := States(g, run);
            && s[i] == Gen(g.start, g.last, g.sequence + i + 1)
            && IdOf(s[i], datacenter, machine) == IdOf(g, datacenter, machine) + i + 1
  {
    hide Pack, States, NodeOf, BitOr;
    StateAfter(g, run, i);
    if i > 0 {
      ConsecutiveIds(g, run, i - 1, datacenter, machine);
    }
    PackOfNode(g.last - g.start, datacenter, machine, g.sequence);
    PackOfNode(g.last - g.start, datacenter, machine, g.sequence + i + 1);
  }

  /** A millisecond holds 4096 ids: after the first, 4095 more are issued as the clock
      stands still, one by one, and the next call waits for a later millisecond. */
  lemma {:induction false} MillisecondHolds(g: Gen, run: seq<Readings>, datacenter: nat, machine: nat)
    requires g.sequence == 0 && |run| == 4096 && forall k :: 0 <= k < |run| ==> run[k].first == g.last
    ensures var s := States(g, run);
            && (forall i :: 0 <= i < 4095 ==>
                  IdOf(s[i], datacenter, machine) == IdOf(g, datacenter, machine) + i + 1)
            && s[4095] == Gen(g.start, run[4095].afterSpin, 0)
  {
    hide Pack, States;
    forall i | 0 <= i < 4095
      ensures IdOf(States(g, run)[i], datacenter, machine) == IdOf(g, datacenter, machine) + i + 1
    {
      ConsecutiveIds(g, run, i, datacenter, machine);
    }
    ConsecutiveIds(g, run, 4094, datacenter, machine);
    StateAfter(g, run, 4095);
  }

  /** In every run with a steady clock the ids increase, if and only if in every such
      run they are distinct, if and only if the numbers fit: with octets, if and only
      if that for the datacenter is below 32. */
  lemma IdsIncreaseIff(datacenter: nat, machine: nat)
    ensures (forall sequence: nat, run :: SteadyRun(Initial(sequence), run) ==>
               Increasing(States(Initial(sequence), run), datacenter, machine))
            <==> Fits(datacenter, machine)
    ensures (forall sequence: nat, run :: SteadyRun(Initial(sequence), run) ==>
               Distinct(States(Initial(sequence), run), datacenter, machine))
            <==> Fits(datacenter, machine)
  {
    hide Pack, SteadyRun, States;
    if Fits(datacenter, machine) {
      forall sequence: nat, run | SteadyRun(Initial(sequence), run)
        ensures Increasing(States(Initial(sequence), run), datacenter, machine)
      {
        IdsIncrease(sequence, run, datacenter, machine);
      }
    } else {
      var run := IdsRepeat(datacenter, machine);
      assert SteadyRun(Initial(0), run);
    }
  }

  /** When the numbers do not fit, a steady clock makes a generator repeat an id. */
  lemma IdsRepeat(datacenter: nat, machine: nat) returns (run: seq<Readings>)
    requires !Fits(datacenter, machine)
    ensures SteadyRun(Initial(0), run)
    ensures var s := States(Initial(0), run);
            |s| == 2 && IdOf(s[0], datacenter, machine) == IdOf(s[1], datacenter, machine)
  {
    hide Pack, BitOr, NodeOf;
    FitsIff(datacenter, machine);
    var high := NodeOf(datacenter, machine) / 1024;
    var now, later := EPOCH, EPOCH + high;
    run := [Readings(now, now, now + 1), Readings(later, later, later + 1)];
    assert run[..1] == [run[0]] && run[..1][..0] == [];
    assert States(Initial(0), run[..1]) == [Gen(EPOCH, now, 0)];
    assert States(Initial(0), run) == [Gen(EPOCH, now, 0), Gen(EPOCH, later, 0)];
    PackOfNode(0, datacenter, machine, 0);
    PackOfNode(high, datacenter, machine, 0);
    OrZero(high);
    OrSelf(high);
  }

  // ---------- runs with large rollbacks ----------

  /** Call `k` of a run finds the clock more than 100 ms behind, and resets the epoch. */
  predicate ResetAt(s: seq<Gen>, run: seq<Readings>, k: int) {
    0 < k < |run| && |s| == |run| && LargeRollback(s[k - 1], run[k])
  }

  /** Every call finds a steady clock or resets the epoch. */
  ghost predicate ResettingRun(g: Gen, run: seq<Readings>) {
    var s := States(g, run);
    && (run != [] ==> run[0].first >= EPOCH && SpunPast(g, run[0]))
    && forall i :: 0 < i < |run| ==> Steady(s[i - 1], run[i]) || (ResetAt(s, run, i) && SpunPast(s[i - 1], run[i]))
  }

  /** The time that has passed since a reset stays below what had passed since the
      original epoch when the first id was issued. */
  ghost predicate ResetsAreRecent(s: seq<Gen>, run: seq<Readings>) {
    forall k, m :: ResetAt(s, run, k) && k <= m < |s| ==> s[m].last - run[k].first < s[0].last - EPOCH
  }

  ghost predicate OneReset(s: seq<Gen>, run: seq<Readings>) {
    forall j, k :: ResetAt(s, run, j) && ResetAt(s, run, k) ==> j == k
  }

  lemma {:induction false} StateAfter(g: Gen, run: seq<Readings>, i: nat)
    requires i < |run|
    ensures States(g, run)[i] == Advance(if i == 0 then g else States(g, run)[i - 1], run[i])
  {
    var n := |run| - 1;
    var init := States(g, run[..n]);
    assert States(g, run) == init + [Advance(if init == [] then g else init[|init| - 1], run[n])];
    if i < n {
      StateAfter(g, run[..n], i);
    }
  }

  /** The states of a run are sound, and each is explained by the one before it. */
  lemma {:induction false} ResettingStates(sequence: nat, run: seq<Readings>, i: nat)
    requires ResettingRun(Initial(sequence), run) && i < |run|
    ensures var s := States(Initial(sequence), run);
            && s[i].sequence < 4096 && s[i].last >= s[i].start
            && (i == 0 ==> s[0].start == EPOCH)
            && (ResetAt(s, run, i) ==> s[i] == Gen(run[i].first, run[i].first, 1))
            && (i > 0 && !ResetAt(s, run, i) ==> s[i].start == s[i - 1].start && s[i].last >= s[i - 1].last)
  {
    hide States;
    StateAfter(Initial(sequence), run, i);
    if i > 0 {
      ResettingStates(sequence, run, i - 1);
    }
  }

  /** Between two resets the ids increase. */
  lemma {:induction false} SegmentIncreases(sequence: nat, run: seq<Readings>, i: nat, j: nat,
                                            datacenter: nat, machine: nat)
    requires Fits(datacenter, machine) && ResettingRun(Initial(sequence), run) && i < j < |run|
    requires forall k :: i < k <= j ==> !ResetAt(States(Initial(sequence), run), run, k)
    ensures var s := States(Initial(sequence), run);
            IdOf(s[i], datacenter, machine) < IdOf(s[j], datacenter, machine) && s[i].last <= s[j].last
  {
    hide Pack, States;
    var s := States(Initial(sequence), run);
    StateAfter(Initial(sequence), run, j);
    ResettingStates(sequence, run, j - 1);
    ResettingStates(sequence, run, j);
    SteadyStep(s[j - 1], run[j], datacenter, machine);
    if i < j - 1 {
      SegmentIncreases(sequence, run, i, j - 1, datacenter, machine);
    }
  }

  /** The start of the epoch is that of the last reset, or the original one. */
  lemma {:induction false} StartSince(sequence: nat, run: seq<Readings>, i: nat, j: nat)
    requires ResettingRun(Initial(sequence), run) && i <= j < |run|
    requires forall k :: i < k <= j ==> !ResetAt(States(Initial(sequence), run), run, k)
    ensures var s := States(Initial(sequence), run); s[j].start == s[i].start && s[j].last >= s[i].last
  {
    hide States;
    if i < j {
      ResettingStates(sequence, run, j);
      StartSince(sequence, run, i, j - 1);
    }
  }

  /** Every id before a recent reset is larger than every one after it. */
  lemma {:induction false} IdsAcrossReset(sequence: nat, run: seq<Readings>, k: nat, i: nat, j: nat,
                                          datacenter: nat, machine: nat)
    requires Fits(datacenter, machine) && ResettingRun(Initial(sequence), run) && i < k <= j < |run|
    requires var s := States(Initial(sequence), run);
             ResetAt(s, run, k) && OneReset(s, run) && ResetsAreRecent(s, run)
    ensures var s := States(Initial(sequence), run);
            IdOf(s[j], datacenter, machine) < IdOf(s[i], datacenter, machine)
  {
    hide Pack, States;
    var s := States(Initial(sequence), run);
    ResettingStates(sequence, run, 0);
    ResettingStates(sequence, run, i);
    ResettingStates(sequence, run, j);
    ResettingStates(sequence, run, k);
    StartSince(sequence, run, 0, i);
    StartSince(sequence, run, k, j);
    IdsCompare(s[j].last - s[j].start, s[j].sequence, s[i].last - s[i].start, s[i].sequence, datacenter, machine);
  }

  /** The epoch reset avoids duplicates exactly once. In every run whose clock is steady
      but for large rollbacks, while the time since a reset is short, the ids are
      distinct if and only if at most one call resets the epoch. */
  lemma {:induction false} DistinctIffOneReset(sequence: nat, run: seq<Readings>, datacenter: nat, machine: nat)
    requires Fits(datacenter, machine) && ResettingRun(Initial(sequence), run)
    requires ResetsAreRecent(States(Initial(sequence), run), run)
    ensures var s := States(Initial(sequence), run);
            Distinct(s, datacenter, machine) <==> OneReset(s, run)
  {
    hide Pack, States, Steady, SpunPast;
    var s := States(Initial(sequence), run);
    forall j, k | ResetAt(s, run, j) && ResetAt(s, run, k) && j < k
      ensures IdOf(s[j], datacenter, machine) == IdOf(s[k], datacenter, machine)
    {
      StateAfter(Initial(sequence), run, j);
      StateAfter(Initial(sequence), run, k);
      LargeRollbacksCollide(s[j - 1], run[j], s[k - 1], run[k], datacenter, machine);
    }
    if OneReset(s, run) {
      forall i, j | 0 <= i < j < |s|
        ensures IdOf(s[i], datacenter, machine) != IdOf(s[j], datacenter, machine)
      {
        if k :| i < k <= j && ResetAt(s, run, k) {
          IdsAcrossReset(sequence, run, k, i, j, datacenter, machine);
        } else {
          SegmentIncreases(sequence, run, i, j, datacenter, machine);
        }
      }
    } else {
      var j, k :| ResetAt(s, run, j) && ResetAt(s, run, k) && j != k;
      var a, b := if j < k then j else k, if j < k then k else j;
      assert ResetAt(s, run, a) && ResetAt(s, run, b) && a < b;
      assert 0 <= a < b < |s| && IdOf(s[a], datacenter, machine) == IdOf(s[b], datacenter, machine);
    }
  }

  /** The times since the start of the epoch, and the sequences, of two ids differ. */
  predicate TimesDiffer(a: Gen, b: Gen) {
    a.last - a.start != b.last - b.start || a.sequence != b.sequence
  }

  /** However long the run, its ids are distinct if and only if at most one call resets
      the epoch and no id after the reset has the time and sequence of one before it. */
  lemma {:induction false} DistinctIffTimesDiffer(sequence: nat, run: seq<Readings>, datacenter: nat, machine: nat)
    requires Fits(datacenter, machine) && ResettingRun(Initial(sequence), run)
    ensures var s := States(Initial(sequence), run);
            Distinct(s, datacenter, machine) <==>
              && OneReset(s, run)
              && forall i, k, j :: ResetAt(s, run, k) && 0 <= i < k <= j < |s| ==> TimesDiffer(s[i], s[j])
  {
    hide Pack, States, Steady, SpunPast;
    var s := States(Initial(sequence), run);
    forall i, j | 0 <= i < j < |s|
      ensures IdOf(s[i], datacenter, machine) != IdOf(s[j], datacenter, machine) <==> TimesDiffer(s[i], s[j])
    {
      ResettingStates(sequence, run, i);
      ResettingStates(sequence, run, j);
      var a, b := s[i].last - s[i].start, s[j].last - s[j].start;
      IdsCompare(a, s[i].sequence, b, s[j].sequence, datacenter, machine);
      IdsCompare(b, s[j].sequence, a, s[i].sequence, datacenter, machine);
    }
    forall j, k | ResetAt(s, run, j) && ResetAt(s, run, k)
      ensures !TimesDiffer(s[j], s[k])
    {
      ResettingStates(sequence, run, j);
      ResettingStates(sequence, run, k);
    }
    forall i, j | 0 <= i < j < |s| && forall k :: i < k <= j ==> !ResetAt(s, run, k)
      ensures TimesDiffer(s[i], s[j])
    {
      SegmentIncreases(sequence, run, i, j, datacenter, machine);
    }
    ByTimes(s, run, datacenter, machine);
  }

  lemma {:induction false} ByTimes(s: seq<Gen>, run: seq<Readings>, datacenter: nat, machine: nat)
    requires |s| == |run|
    requires forall i, j :: 0 <= i < j < |s| ==>
               (IdOf(s[i], datacenter, machine) != IdOf(s[j], datacenter, machine) <==> TimesDiffer(s[i], s[j]))
    requires forall j, k :: ResetAt(s, run, j) && ResetAt(s, run, k) ==> !TimesDiffer(s[j], s[k])
    requires forall i, j :: 0 <= i < j < |s| && (forall k :: i < k <= j ==> !ResetAt(s, run, k)) ==>
               TimesDiffer(s[i], s[j])
    ensures Distinct(s, datacenter, machine) <==>
              && OneReset(s, run)
              && forall i, k, j :: ResetAt(s, run, k) && 0 <= i < k <= j < |s| ==> TimesDiffer(s[i], s[j])
  {
    hide Pack, IdOf, LargeRollback;
    if !OneReset(s, run) {
      var j, k :| ResetAt(s, run, j) && ResetAt(s, run, k) && j != k;
      var a, b := if j < k then j else k, if j < k then k else j;
      assert ResetAt(s, run, a) && ResetAt(s, run, b) && a < b;
      assert 0 <= a < b < |s| && IdOf(s[a], datacenter, machine) == IdOf(s[b], datacenter, machine);
    }
  }

  lemma {:induction false} ThreeStates(g: Gen, a: Readings, b: Readings, c: Readings)
    ensures var x := Advance(g, a);
            var y := Advance(x, b);
            States(g, [a, b, c]) == [x, y, Advance(y, c)]
  {
    hide Advance;
    assert [a, b, c][..2] == [a, b] && [a, b][..1] == [a] && [a][..0] == [];
    assert States(g, []) == [];
    assert States(g, [a]) == [Advance(g, a)];
    assert States(g, [a, b]) == [Advance(g, a), Advance(Advance(g, a), b)];
  }

  /** Such a run with two resets, the second soon after the first, repeats an id. */
  lemma {:induction false} TwoResetsRepeat(datacenter: nat, machine: nat) returns (run: seq<Readings>)
    ensures ResettingRun(Initial(0), run)
    ensures var s := States(Initial(0), run);
            && ResetsAreRecent(s, run) && |s| == 3 && ResetAt(s, run, 1) && ResetAt(s, run, 2)
            && IdOf(s[1], datacenter, machine) == IdOf(s[2], datacenter, machine)
  {
    hide Pack;
    var t := EPOCH + 1000;
    var a, b, c := Readings(t, t, t + 1), Readings(t - 200, t - 200, t + 1), Readings(t - 400, t - 400, t + 1);
    run := [a, b, c];
    ThreeStates(Initial(0), a, b, c);
    hide States;
    assert States(Initial(0), run) == [Gen(EPOCH, t, 0), Gen(t - 200, t - 200, 1), Gen(t - 400, t - 400, 1)];
  }

  /** The time since the reset matters: a single reset repeats an id as soon as the
      generator has been running for as long again. */
  lemma {:induction false} LateIdsRepeat(datacenter: nat, machine: nat) returns (run: seq<Readings>)
    ensures ResettingRun(Initial(0), run)
    ensures var s := States(Initial(0), run);
            && OneReset(s, run) && |s| == 3 && ResetAt(s, run, 1)
            && IdOf(s[0], datacenter, machine) == IdOf(s[2], datacenter, machine)
  {
    hide Pack;
    var t := EPOCH + 1000;
    var a, b, c := Readings(t, t, t + 1), Readings(EPOCH, EPOCH, t + 1), Readings(t, t, t + 1);
    run := [a, b, c];
    ThreeStates(Initial(0), a, b, c);
    hide States;
    assert States(Initial(0), run) == [Gen(EPOCH, t, 0), Gen(EPOCH, EPOCH, 1), Gen(EPOCH, t, 0)];
  }

  // ---------- the generator ----------

  /** The system clock: the n-th reading, in the order they are taken. */
  class Clock {
    const readings: nat -> int
    var taken: nat

    constructor (readings: nat -> int)
      ensures this.readings == readings && taken == 0
    {
      this.readings, taken := readings, 0;
    }

    method Now() returns (t: int)
      modifies this
      ensures t == readings(old(taken)) && taken == old(taken) + 1
    {
      t := readings(taken);
      taken := taken + 1;
    }
  }

  /** The clock does not stand still for ever. */
  ghost predicate Ticks(readings: nat -> int) {
    forall t, n: nat :: ComesAfter(readings, t, n)
  }

  ghost predicate ComesAfter(readings: nat -> int, t: int, n: nat) {
    exists k: nat :: k >= n && readings(k) > t
  }

  lemma SomeLater(readings: nat -> int, t: int, n: nat) returns (k: nat)
    requires Ticks(readings)
    ensures k >= n && readings(k) > t
  {
    assert ComesAfter(readings, t, n);
    k :| k >= n && readings(k) > t;
  }

  class SnowflakeGenerator {
    const datacenter: nat
    const machine: nat
    var start: int
    var last: int
    var sequence: nat

    function State(): Gen
      reads this
    {
      Gen(start, last, sequence)
    }

    constructor (datacenter: nat, machine: nat, sequence: nat)
      ensures this.datacenter == datacenter && this.machine == machine && State() == Initial(sequence)
    {
      this.datacenter, this.machine, this.sequence := datacenter, machine, sequence;
      start, last := EPOCH, -1;
    }

    /** Spins until the clock is past `last`. */
    method TillNextMillis(clock: Clock) returns (t: int)
      requires Ticks(clock.readings)
      modifies clock
      ensures clock.taken > old(clock.taken) && t == clock.readings(clock.taken - 1) && t > last
      ensures forall k :: old(clock.taken) <= k < clock.taken - 1 ==> clock.readings(k) <= last
    {
      ghost var enough := SomeLater(clock.readings, last, clock.taken);
      t := clock.Now();
      while t <= last
        invariant clock.taken > old(clock.taken) && t == clock.readings(clock.taken - 1)
        invariant forall k :: old(clock.taken) <= k < clock.taken - 1 ==> clock.readings(k) <= last
        invariant t <= last ==> clock.taken <= enough
        decreases enough - clock.taken
      {
        t := clock.Now();
      }
    }

    /** One call of `generate_id`, before the id is turned into a string. */
    method GenerateId(clock: Clock) returns (id: int, ghost r: Readings)
      requires Ticks(clock.readings)
      modifies this, clock
      ensures r.first == clock.readings(old(clock.taken)) && r.afterSleep == clock.readings(old(clock.taken) + 1)
      ensures SpunPast(old(State()), r) && exists k :: k > old(clock.taken) && r.afterSpin == clock.readings(k)
      ensures State() == Advance(old(State()), r)
      ensures id == IdOf(State(), datacenter, machine)
    {
      hide Pack, BitAnd, Pow2, Ticks, ComesAfter;
      ghost var first := clock.taken;
      var timestamp := clock.Now();
      var rollback := last - timestamp;
      if rollback > 0 {
        if rollback <= SMALL_ROLLBACK_MS {
          timestamp := clock.Now();
        } else {
          start, last, sequence := timestamp, timestamp, 0;
        }
      }
      ghost var spin := SomeLater(clock.readings, last, first + 1);
      if last == timestamp {
        MaskIsRemainder(sequence + 1);
        sequence := BitAnd(sequence + 1, Pow2(SEQUENCE_BITS) - 1);
        if sequence == 0 {
          timestamp := TillNextMillis(clock);
          spin := clock.taken - 1;
        }
      } else {
        sequence := 0;
      }
      last := timestamp;
      r := Readings(clock.readings(first), clock.readings(first + 1), clock.readings(spin));
      id := Pack(timestamp - start, datacenter, machine, sequence);
    }
  }
}

/** What one cycle may send: the runnable tasks, their ranking within a queue and
    the number of them that the queue's idle slots admit. */
module Dispatch {
  import opened Collections
  import opened TaskModel

  // ---------- runnable and priority tasks ----------

  predicate Ready(s: Statuses, g: Graph, id: TaskId)
    requires id in s
  {
    && Sendable(s[id])
    && forall d :: d in Prereqs(g, id) ==> d in s && s[d].Success?
  }

  /** The ready tasks, in the order of the task map. */
  function Runnable(order: seq<TaskId>, s: Statuses, g: Graph): (r: seq<TaskId>)
    requires forall id :: id in order ==> id in s
    ensures forall id :: id in r <==> id in order && Ready(s, g, id)
    ensures NoDup(order) ==> NoDup(r)
  {
    if order == [] then [] else
      var rest := Runnable(order[..|order| - 1], s, g);
      var last := order[|order| - 1];
      assert forall id :: id in order <==> id in order[..|order| - 1] || id == last;
      if Ready(s, g, last) then rest + [last] else rest
  }

  // ---------- ranking ----------

  type Infos = map<TaskId, Info>

  /** The tasks of `run` for queue `q` that are (or are not) in `prio`, in order. */
  function Lane(run: seq<TaskId>, info: Infos, prio: set<TaskId>, q: QueueName, urgent: bool): (r: seq<TaskId>)
    requires forall id :: id in run ==> id in info
    ensures forall id :: id in r <==> id in run && info[id].queue == q && (id in prio) == urgent
    ensures NoDup(run) ==> NoDup(r)
  {
    if run == [] then [] else
      var rest := Lane(run[..|run| - 1], info, prio, q, urgent);
      var last := run[|run| - 1];
      assert forall id :: id in run <==> id in run[..|run| - 1] || id == last;
      if info[last].queue == q && (last in prio) == urgent then rest + [last] else rest
  }

  /** `x` goes behind every task of `s` that is at least as heavy. */
  function Insert(x: TaskId, s: seq<TaskId>, info: Infos): seq<TaskId>
    requires x in info && forall id :: id in s ==> id in info
  {
    if s == [] || info[s[|s| - 1]].weight >= info[x].weight then s + [x]
    else Insert(x, s[..|s| - 1], info) + [s[|s| - 1]]
  }

  /** A stable sort by descending weight: `list.sort(key=weight, reverse=True)`. */
  function SortByWeight(s: seq<TaskId>, info: Infos): (r: seq<TaskId>)
    requires forall id :: id in s ==> id in info
    ensures forall id :: id in r ==> id in s
  {
    if s == [] then [] else
      var rest := SortByWeight(s[..|s| - 1], info);
      InsertPermutes(s[|s| - 1], rest, info);
      Insert(s[|s| - 1], rest, info)
  }

  lemma {:induction false} InsertPermutes(x: TaskId, s: seq<TaskId>, info: Infos)
    requires x in info && forall id :: id in s ==> id in info
    ensures multiset(Insert(x, s, info)) == multiset(s) + multiset{x}
    ensures forall id :: id in Insert(x, s, info) <==> id in s || id == x
  {
    if !(s == [] || info[s[|s| - 1]].weight >= info[x].weight) {
      InsertPermutes(x, s[..|s| - 1], info);
      assert s == s[..|s| - 1] + [s[|s| - 1]];
    }
    assert forall id :: id in Insert(x, s, info) <==> id in multiset(Insert(x, s, info));
  }

  lemma {:induction false} SortPermutes(s: seq<TaskId>, info: Infos)
    requires forall id :: id in s ==> id in info
    ensures multiset(SortByWeight(s, info)) == multiset(s)
  {
    hide Insert;
    if s != [] {
      var init, last := s[..|s| - 1], s[|s| - 1];
      SortPermutes(init, info);
      InsertPermutes(last, SortByWeight(init, info), info);
      SnocMultiset(init, last);
      assert s == init + [last];
    }
  }

  /** `a` is heavier than `b`, or as heavy and before it in `s`. */
  ghost predicate Heavier(s: seq<TaskId>, info: Infos, a: TaskId, b: TaskId)
    requires a in info && b in info
  {
    info[a].weight > info[b].weight || (info[a].weight == info[b].weight && Precedes(s, a, b))
  }

  ghost predicate SortedBy(s: seq<TaskId>, info: Infos, r: seq<TaskId>)
    requires forall id :: id in r ==> id in info
  {
    forall i, j :: 0 <= i < j < |r| ==> Heavier(s, info, r[i], r[j])
  }

  /** Inserting a task that follows all of `r` in `s` keeps `r` sorted. */
  lemma {:induction false} InsertSorts(s: seq<TaskId>, info: Infos, x: TaskId, r: seq<TaskId>)
    requires x in info && forall id :: id in r ==> id in info && Precedes(s, id, x)
    requires SortedBy(s, info, r)
    ensures forall id :: id in Insert(x, r, info) <==> id in r || id == x
    ensures SortedBy(s, info, Insert(x, r, info))
  {
    InsertPermutes(x, r, info);
    if r != [] && info[r[|r| - 1]].weight < info[x].weight {
      var init, last := r[..|r| - 1], r[|r| - 1];
      InsertSorts(s, info, x, init);
      InsertPermutes(x, init, info);
      var t := Insert(x, init, info);
      forall i | 0 <= i < |t|
        ensures Heavier(s, info, t[i], last)
      {
        assert t[i] in t;
        if t[i] != x {
          var k :| 0 <= k < |init| && init[k] == t[i];
          assert r[k] == t[i];
        }
      }
    } else {
      var t := Insert(x, r, info);
      forall i | 0 <= i < |r|
        ensures Heavier(s, info, r[i], x)
      {
        assert Precedes(s, r[i], x);
        if i < |r| - 1 {
          assert Heavier(s, info, r[i], r[|r| - 1]);
        }
      }
    }
  }

  /** The sort is by descending weight and stable. */
  lemma {:induction false} SortIsStable(s: seq<TaskId>, info: Infos)
    requires forall id :: id in s ==> id in info
    ensures SortedBy(s, info, SortByWeight(s, info))
  {
    if s != [] {
      var init, x := s[..|s| - 1], s[|s| - 1];
      SortIsStable(init, info);
      var r := SortByWeight(init, info);
      forall i, j | 0 <= i < j < |r|
        ensures Heavier(s, info, r[i], r[j])
      {
        assert Heavier(init, info, r[i], r[j]);
        if Precedes(init, r[i], r[j]) {
          var k, l :| 0 <= k < l < |init| && init[k] == r[i] && init[l] == r[j];
          assert s[k] == r[i] && s[l] == r[j];
        }
      }
      forall id | id in r
        ensures Precedes(s, id, x)
      {
        var k :| 0 <= k < |init| && init[k] == id;
        assert s[k] == id && s[|s| - 1] == x;
      }
      InsertSorts(s, info, x, r);
    }
  }

  // ---------- the slot budget ----------

  /** The order in which queue `q` is served: priority tasks, then the others. */
  function Ranked(run: seq<TaskId>, info: Infos, prio: set<TaskId>, q: QueueName): (r: seq<TaskId>)
    requires forall id :: id in run ==> id in info
    ensures forall id :: id in r ==> id in run && info[id].queue == q
  {
    SortByWeight(Lane(run, info, prio, q, true), info) + SortByWeight(Lane(run, info, prio, q, false), info)
  }

  /** As many entries of `r` as there are `idle` slots. */
  function Top(r: seq<TaskId>, idle: int): (t: seq<TaskId>)
    ensures forall id :: id in t ==> id in r
  {
    if idle <= 0 then [] else if idle < |r| then r[..idle] else r
  }

  /** The send attempts for queue `q` when it has `idle` free slots. */
  function Granted(run: seq<TaskId>, info: Infos, prio: set<TaskId>, q: QueueName, idle: int): (r: seq<TaskId>)
    requires forall id :: id in run ==> id in info
    ensures forall id :: id in r ==> id in run && info[id].queue == q
  {
    Top(Ranked(run, info, prio, q), idle)
  }

  function QueuesOf(run: seq<TaskId>, info: Infos): (r: seq<QueueName>)
    requires forall id :: id in run ==> id in info
    ensures |r| == |run|
    ensures forall i :: 0 <= i < |r| ==> r[i] == info[run[i]].queue
  {
    seq(|run|, i requires 0 <= i < |run| => info[run[i]].queue)
  }

  /** All the send attempts, queue after queue. */
  function Attempts(queues: seq<QueueName>, run: seq<TaskId>, info: Infos, prio: set<TaskId>,
                    idle: QueueName -> int): (r: seq<TaskId>)
    requires forall id :: id in run ==> id in info
    ensures forall id :: id in r ==> id in run && info[id].queue in queues
  {
    if queues == [] then [] else
      var q := queues[|queues| - 1];
      Attempts(queues[..|queues| - 1], run, info, prio, idle) + Granted(run, info, prio, q, idle(q))
  }

  function AttemptsOf(run: seq<TaskId>, info: Infos, prio: set<TaskId>, idle: QueueName -> int): (r: seq<TaskId>)
    requires forall id :: id in run ==> id in info
    ensures forall id :: id in r ==> id in run
  {
    Attempts(FirstSeen(QueuesOf(run, info)), run, info, prio, idle)
  }

  /** The statuses after the attempts of which `accepts` says which succeeded. */
  ghost function Sent(s: Statuses, attempts: seq<TaskId>, accepts: TaskId -> bool): Statuses {
    map id | id in s :: if id in attempts && accepts(id) then Waiting else s[id]
  }

  // ---------- what the attempts are ----------

  /** `a` is served before `b`: it is urgent and `b` is not, or they are alike and
      `a` is heavier, or as heavy and earlier among the runnable tasks. */
  ghost predicate Better(run: seq<TaskId>, info: Infos, prio: set<TaskId>, a: TaskId, b: TaskId)
    requires a in info && b in info
  {
    || (a in prio && b !in prio)
    || ((a in prio <==> b in prio) && Heavier(run, info, a, b))
  }

  lemma {:induction false} LaneKeepsOrder(run: seq<TaskId>, info: Infos, prio: set<TaskId>, q: QueueName, urgent: bool,
                       a: TaskId, b: TaskId)
    requires forall id :: id in run ==> id in info
    requires Precedes(Lane(run, info, prio, q, urgent), a, b)
    ensures Precedes(run, a, b)
  {
    var init, last := run[..|run| - 1], run[|run| - 1];
    var r := Lane(init, info, prio, q, urgent);
    var l := Lane(run, info, prio, q, urgent);
    var i, j :| 0 <= i < j < |l| && l[i] == a && l[j] == b;
    if j < |r| {
      assert r[i] == a && r[j] == b;
      LaneKeepsOrder(init, info, prio, q, urgent, a, b);
      var k, m :| 0 <= k < m < |init| && init[k] == a && init[m] == b;
      assert run[k] == a && run[m] == b;
    } else {
      assert b == last && r[i] == a && a in r;
      var k :| 0 <= k < |init| && init[k] == a;
      assert run[k] == a && run[|run| - 1] == b;
    }
  }

  lemma {:induction false} LaneSorted(run: seq<TaskId>, info: Infos, prio: set<TaskId>, q: QueueName, urgent: bool)
    requires forall id :: id in run ==> id in info
    ensures SortedBy(run, info, SortByWeight(Lane(run, info, prio, q, urgent), info))
  {
    var l := Lane(run, info, prio, q, urgent);
    var r := SortByWeight(l, info);
    SortIsStable(l, info);
    forall i, j | 0 <= i < j < |r|
      ensures Heavier(run, info, r[i], r[j])
    {
      assert Heavier(l, info, r[i], r[j]);
      if Precedes(l, r[i], r[j]) {
        LaneKeepsOrder(run, info, prio, q, urgent, r[i], r[j]);
      }
    }
  }

  lemma SameElements(a: seq<TaskId>, b: seq<TaskId>)
    requires multiset(a) == multiset(b)
    ensures forall id :: id in a <==> id in b
    ensures NoDup(b) ==> NoDup(a)
  {
    assert forall id :: id in a <==> id in multiset(a);
    assert forall id :: id in b <==> id in multiset(b);
    if NoDup(b) {
      forall i, j | 0 <= i < j < |a|
        ensures a[i] != a[j]
      {
        if a[i] == a[j] {
          var x := a[i];
          assert a == a[..i] + [x] + a[i + 1..j] + [x] + a[j + 1..];
          assert multiset(a)[x] >= 2;
          NoDupCounts(b, x);
        }
      }
    }
  }

  lemma {:induction false} NoDupCounts(b: seq<TaskId>, x: TaskId)
    requires NoDup(b)
    ensures multiset(b)[x] <= 1
  {
    if b != [] {
      NoDupCounts(b[1..], x);
      assert b == [b[0]] + b[1..];
    }
  }

  lemma {:induction false} SortedLane(run: seq<TaskId>, info: Infos, prio: set<TaskId>, q: QueueName, urgent: bool)
    requires NoDup(run) && forall id :: id in run ==> id in info
    ensures var r := SortByWeight(Lane(run, info, prio, q, urgent), info);
            && NoDup(r)
            && (forall id :: id in r <==> id in run && info[id].queue == q && (id in prio) == urgent)
            && (forall i, j :: 0 <= i < j < |r| ==> Heavier(run, info, r[i], r[j]))
  {
    var l := Lane(run, info, prio, q, urgent);
    SortPermutes(l, info);
    SameElements(SortByWeight(l, info), l);
    LaneSorted(run, info, prio, q, urgent);
  }

  /** A ranking holds exactly the runnable tasks of the queue, once each, every
      one better than those behind it. */
  lemma RankedIsRanking(run: seq<TaskId>, info: Infos, prio: set<TaskId>, q: QueueName)
    requires NoDup(run) && forall id :: id in run ==> id in info
    ensures var r := Ranked(run, info, prio, q);
            && NoDup(r)
            && (forall id :: id in r <==> id in run && info[id].queue == q)
            && (forall i, j :: 0 <= i < j < |r| ==> Better(run, info, prio, r[i], r[j]))
  {
    SortedLane(run, info, prio, q, true);
    SortedLane(run, info, prio, q, false);
    var u := SortByWeight(Lane(run, info, prio, q, true), info);
    var n := SortByWeight(Lane(run, info, prio, q, false), info);
    RankingOfParts(run, info, prio, u, n);
  }

  lemma RankingOfParts(run: seq<TaskId>, info: Infos, prio: set<TaskId>, u: seq<TaskId>, n: seq<TaskId>)
    requires forall id :: id in u + n ==> id in info
    requires NoDup(u) && NoDup(n)
    requires (forall id :: id in u ==> id in prio) && (forall id :: id in n ==> id !in prio)
    requires SortedBy(run, info, u) && SortedBy(run, info, n)
    ensures NoDup(u + n)
    ensures forall i, j :: 0 <= i < j < |u + n| ==> Better(run, info, prio, (u + n)[i], (u + n)[j])
  {
    var r := u + n;
    forall i, j | 0 <= i < j < |r|
      ensures r[i] != r[j] && Better(run, info, prio, r[i], r[j])
    {
      if j < |u| {
        assert u[i] in u && u[j] in u && Heavier(run, info, u[i], u[j]);
      } else if i >= |u| {
        var k, l := i - |u|, j - |u|;
        assert n[k] in n && n[l] in n && Heavier(run, info, n[k], n[l]);
      } else {
        assert u[i] in u && n[j - |u|] in n;
      }
    }
  }

  lemma {:induction false} AttemptsForQueue(queues: seq<QueueName>, run: seq<TaskId>, info: Infos,
                                            prio: set<TaskId>, idle: QueueName -> int)
    requires NoDup(run) && NoDup(queues) && forall id :: id in run ==> id in info
    ensures var all := Attempts(queues, run, info, prio, idle);
            && NoDup(all)
            && forall id :: id in all <==>
                 id in run && info[id].queue in queues
                 && id in Granted(run, info, prio, info[id].queue, idle(info[id].queue))
  {
    if queues != [] {
      var init, q := queues[..|queues| - 1], queues[|queues| - 1];
      AttemptsForQueue(init, run, info, prio, idle);
      RankedIsRanking(run, info, prio, q);
      assert forall x :: x in queues <==> x in init || x == q;
      var a, b := Attempts(init, run, info, prio, idle), Granted(run, info, prio, q, idle(q));
      forall i, j | 0 <= i < |a| && 0 <= j < |b|
        ensures a[i] != b[j]
      {
        assert a[i] in a && b[j] in b;
      }
    }
  }

  /** Attempts are made queue after queue, and within a queue best first. */
  lemma {:induction false} AttemptsInOrder(queues: seq<QueueName>, run: seq<TaskId>, info: Infos,
                                           prio: set<TaskId>, idle: QueueName -> int)
    requires NoDup(run) && forall id :: id in run ==> id in info
    ensures AllInTurn(queues, run, info, prio, Attempts(queues, run, info, prio, idle))
  {
    hide InTurn, Granted;
    if queues != [] {
      var init, q := queues[..|queues| - 1], queues[|queues| - 1];
      AttemptsInOrder(init, run, info, prio, idle);
      GrantedInTurn(init, q, run, info, prio, idle(q));
      var a, b := Attempts(init, run, info, prio, idle), Granted(run, info, prio, q, idle(q));
      assert queues == init + [q];
      forall i, j | 0 <= i < j < |a + b|
        ensures InTurn(queues, run, info, prio, (a + b)[i], (a + b)[j])
      {
        if j < |a| {
          InTurnLonger(init, q, run, info, prio, a[i], a[j]);
        } else if i < |a| {
          assert a[i] in a && b[j - |a|] in b;
          LaterQueue(init, q, run, info, prio, a[i], b[j - |a|]);
        }
      }
    }
  }

  ghost predicate AllInTurn(queues: seq<QueueName>, run: seq<TaskId>, info: Infos, prio: set<TaskId>, all: seq<TaskId>)
  {
    forall i, j :: 0 <= i < j < |all| ==> InTurn(queues, run, info, prio, all[i], all[j])
  }

  lemma GrantedInTurn(init: seq<QueueName>, q: QueueName, run: seq<TaskId>, info: Infos, prio: set<TaskId>, idle: int)
    requires NoDup(run) && forall id :: id in run ==> id in info
    ensures AllInTurn(init + [q], run, info, prio, Granted(run, info, prio, q, idle))
  {
    hide Better, Precedes;
    RankedIsRanking(run, info, prio, q);
    var r := Granted(run, info, prio, q, idle);
    assert forall i :: 0 <= i < |r| ==> r[i] in r;
  }

  lemma LaterQueue(init: seq<QueueName>, q: QueueName, run: seq<TaskId>, info: Infos, prio: set<TaskId>,
                   a: TaskId, b: TaskId)
    requires a in run && b in run && a in info && b in info && info[a].queue in init && info[b].queue == q
    ensures InTurn(init + [q], run, info, prio, a, b)
  {
    hide Better;
    var k :| 0 <= k < |init| && init[k] == info[a].queue;
    assert (init + [q])[k] == info[a].queue && (init + [q])[|init|] == q;
  }

  /** The queue of `a` is served before that of `b`, or it is the same and `a` is better. */
  ghost predicate InTurn(queues: seq<QueueName>, run: seq<TaskId>, info: Infos, prio: set<TaskId>, a: TaskId, b: TaskId)
  {
    && a in run && b in run && a in info && b in info
    && (Precedes(queues, info[a].queue, info[b].queue)
        || (info[a].queue == info[b].queue && Better(run, info, prio, a, b)))
  }

  lemma InTurnLonger(init: seq<QueueName>, q: QueueName, run: seq<TaskId>, info: Infos, prio: set<TaskId>,
                     a: TaskId, b: TaskId)
    requires InTurn(init, run, info, prio, a, b)
    ensures InTurn(init + [q], run, info, prio, a, b)
  {
    if Precedes(init, info[a].queue, info[b].queue) {
      PrecedesLonger(init, [q], info[a].queue, info[b].queue);
    }
  }

  /** Runnable tasks are listed in the order of the map. */
  lemma {:induction false} RunnableKeepsOrder(order: seq<TaskId>, s: Statuses, g: Graph, a: TaskId, b: TaskId)
    requires forall id :: id in order ==> id in s
    requires Precedes(Runnable(order, s, g), a, b)
    ensures Precedes(order, a, b)
  {
    var init, last := order[..|order| - 1], order[|order| - 1];
    var r, l := Runnable(init, s, g), Runnable(order, s, g);
    assert order == init + [last];
    var i, j :| 0 <= i < j < |l| && l[i] == a && l[j] == b;
    if j < |r| {
      assert r[i] == a && r[j] == b;
      RunnableKeepsOrder(init, s, g, a, b);
      PrecedesLonger(init, [last], a, b);
    } else {
      assert b == last && r[i] == a && a in r;
      var k :| 0 <= k < |init| && init[k] == a;
      assert order[k] == a && order[|order| - 1] == b;
    }
  }

  /** The first `k` entries of a ranking are a set of `k` tasks, each better than
      every task left over. */
  lemma TopOfRanking(run: seq<TaskId>, info: Infos, prio: set<TaskId>, r: seq<TaskId>, k: nat)
    requires NoDup(r) && k <= |r| && forall id :: id in r ==> id in info
    requires forall i, j :: 0 <= i < j < |r| ==> Better(run, info, prio, r[i], r[j])
    ensures |set id | id in r[..k]| == k && |set id | id in r| == |r|
    ensures forall a, b :: a in r[..k] && b in r && b !in r[..k] ==> Better(run, info, prio, a, b)
  {
    Cardinality(r[..k]);
    Cardinality(r);
    assert forall m :: 0 <= m < k ==> r[m] in r[..k];
    forall a, b | a in r[..k] && b in r && b !in r[..k]
      ensures Better(run, info, prio, a, b)
    {
      var i :| 0 <= i < k && r[i] == a;
      var j :| 0 <= j < |r| && r[j] == b;
    }
  }

  lemma AttemptsAreGranted(run: seq<TaskId>, info: Infos, prio: set<TaskId>, idle: QueueName -> int)
    requires NoDup(run) && forall id :: id in run ==> id in info
    ensures var all := AttemptsOf(run, info, prio, idle);
            && NoDup(all)
            && forall id :: id in all <==>
                 id in run && id in Granted(run, info, prio, info[id].queue, idle(info[id].queue))
  {
    var queues := FirstSeen(QueuesOf(run, info));
    AttemptsForQueue(queues, run, info, prio, idle);
    forall id | id in run
      ensures info[id].queue in queues
    {
      var i :| 0 <= i < |run| && run[i] == id;
      assert QueuesOf(run, info)[i] == info[id].queue;
    }
  }

  /** Dispatch sends exactly the best tasks within capacity: the attempts name no
      task twice; of the runnable tasks of a queue they hold all when the idle
      slots suffice and otherwise as many as there are slots (none when there is
      none), and every attempted task is better than every one passed over. */
  lemma BestWithinCapacity(run: seq<TaskId>, info: Infos, prio: set<TaskId>, idle: QueueName -> int, q: QueueName)
    requires NoDup(run) && forall id :: id in run ==> id in info
    ensures var all := AttemptsOf(run, info, prio, idle);
            var wanted := set id | id in run && info[id].queue == q;
            var given := set id | id in all && info[id].queue == q;
            && NoDup(all)
            && given <= wanted
            && |given| == (if idle(q) <= 0 then 0 else if idle(q) < |wanted| then idle(q) else |wanted|)
            && forall a, b :: a in given && b in wanted - given ==> Better(run, info, prio, a, b)
  {
    AttemptsAreGranted(run, info, prio, idle);
    var k := QueueShare(run, info, prio, idle, q);
    var r := Ranked(run, info, prio, q);
    RankedIsRanking(run, info, prio, q);
    TopOfRanking(run, info, prio, r, k);
  }

  /** What queue `q` wants is its ranking; what it is given, a prefix of that. */
  lemma QueueShare(run: seq<TaskId>, info: Infos, prio: set<TaskId>, idle: QueueName -> int, q: QueueName)
    returns (k: nat)
    requires NoDup(run) && forall id :: id in run ==> id in info
    ensures var r := Ranked(run, info, prio, q);
            && k == (if idle(q) <= 0 then 0 else if idle(q) < |r| then idle(q) else |r|)
            && (set id | id in run && info[id].queue == q) == (set id | id in r)
            && (set id | id in AttemptsOf(run, info, prio, idle) && info[id].queue == q) == (set id | id in r[..k])
  {
    AttemptsAreGranted(run, info, prio, idle);
    RankedIsRanking(run, info, prio, q);
    var r := Ranked(run, info, prio, q);
    k := if idle(q) <= 0 then 0 else if idle(q) < |r| then idle(q) else |r|;
    assert Granted(run, info, prio, q, idle(q)) == r[..k];
  }

  lemma {:induction false} Cardinality(s: seq<TaskId>)
    requires NoDup(s)
    ensures |set id | id in s| == |s|
  {
    if s != [] {
      var init, last := s[..|s| - 1], s[|s| - 1];
      Cardinality(init);
      assert (set id | id in s) == (set id | id in init) + {last};
    }
  }
}

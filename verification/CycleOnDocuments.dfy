/** What a scheduling cycle comes to, said of the fetched documents alone: of their ids,
    statuses, dependencies, parents, queues and weights, and their order in the list. */
module CycleOnDocuments {
  import opened Collections
  import opened TaskModel
  import opened FailurePropagation
  import opened Dispatch
  import opened Cycle

  function Ids(recs: seq<Record>): (r: seq<TaskId>)
    ensures |r| == |recs|
  {
    seq(|recs|, i requires 0 <= i < |recs| => recs[i].id)
  }

  function Sources(recs: seq<Record>): (r: seq<TaskId>)
    ensures |r| == |recs|
  {
    seq(|recs|, i requires 0 <= i < |recs| => recs[i].sourceId)
  }

  // ---------- the map ----------

  /** Of several documents of a task, the last one counts. */
  lemma {:induction false} LastDocumentCounts(recs: seq<Record>, i: nat)
    requires i < |recs| && forall j :: i < j < |recs| ==> recs[j].id != recs[i].id
    ensures recs[i].id in RecordMap(recs) && RecordMap(recs)[recs[i].id] == recs[i]
  {
    if i < |recs| - 1 {
      LastDocumentCounts(recs[..|recs| - 1], i);
    }
  }

  /** The map lists the tasks in the order of their first documents. */
  lemma {:induction false} MapInDocumentOrder(recs: seq<Record>, a: TaskId, b: TaskId)
    ensures Precedes(OrderOf(recs), a, b) <==> MentionedBefore(Ids(recs), a, b)
  {
    if recs != [] {
      var init, last := recs[..|recs| - 1], recs[|recs| - 1];
      assert Ids(recs) == Ids(init) + [last.id];
      MapInDocumentOrder(init, a, b);
      MappedRecord(init, b);
      IdIn(init, b);
      IdIn(init, a);
      MappedRecord(init, a);
      MentionedLonger(Ids(init), last.id, a, b);
      PrecedesSnoc(OrderOf(init), last.id, a, b);
    }
  }

  lemma IdIn(recs: seq<Record>, id: TaskId)
    ensures id in Ids(recs) <==> exists i :: 0 <= i < |recs| && recs[i].id == id
  {
    if id in Ids(recs) {
      var i :| 0 <= i < |recs| && Ids(recs)[i] == id;
      assert recs[i].id == id;
    }
    if i :| 0 <= i < |recs| && recs[i].id == id {
      assert Ids(recs)[i] == id;
    }
  }

  /** The parents are visited in the order in which documents first name them. */
  lemma {:induction false} ParentsInDocumentOrder(recs: seq<Record>, p: TaskId, q: TaskId)
    requires p != "" && q != ""
    ensures p in ParentsOf(recs) <==> p in Sources(recs)
    ensures Precedes(ParentsOf(recs), p, q) <==> MentionedBefore(Sources(recs), p, q)
  {
    if recs != [] {
      var init, last := recs[..|recs| - 1], recs[|recs| - 1];
      assert Sources(recs) == Sources(init) + [last.sourceId];
      ParentsInDocumentOrder(init, p, q);
      ParentsInDocumentOrder(init, q, p);
      MentionedLonger(Sources(init), last.sourceId, p, q);
      PrecedesSnoc(ParentsOf(init), last.sourceId, p, q);
    }
  }

  // ---------- failures ----------

  /** A failure of `a` is one of `b`: `b` depends on `a`, or is its parent. */
  ghost predicate PassesFailure(recs: seq<Record>, a: TaskId, b: TaskId) {
    DependsOn(recs, b, a) || (b != "" && ChildOf(recs, a, b))
  }

  /** Failure edges are the dependencies and the child-to-parent links of the documents. */
  lemma FailuresFollowDocuments(recs: seq<Record>, a: TaskId, b: TaskId)
    ensures FailureEdge(GraphOf(recs), a, b) <==> PassesFailure(recs, a, b)
  {
    hide GraphOf, DependsOn, ChildOf;
    GraphRecordsDependencies(recs, b, a);
    GraphRecordsChildren(recs, a, b);
  }

  /** From a FAILED document failures pass, through unfinished ones, to the last. */
  ghost predicate FailsThrough(recs: seq<Record>, p: seq<TaskId>) {
    var m := RecordMap(recs);
    && |p| > 0 && (forall i :: 0 <= i < |p| ==> p[i] in m)
    && m[p[0]].status.Failed?
    && forall i :: 0 < i < |p| ==> PassesFailure(recs, p[i - 1], p[i]) && Unfinished(m[p[i]].status)
  }

  predicate Unfinished(s: Status) {
    s.Pending? || s.Running? || s.Retrying? || s.Waiting?
  }

  ghost predicate Condemned(recs: seq<Record>, id: TaskId) {
    exists p :: FailsThrough(recs, p) && p[|p| - 1] == id
  }

  lemma ChainsAgree(recs: seq<Record>, p: seq<TaskId>)
    ensures FailsThrough(recs, p) <==> FailureChain(StatusMap(recs), GraphOf(recs), p)
  {
    hide GraphOf, PassesFailure, FailureEdge, RecordMap;
    var m, s, g := RecordMap(recs), StatusMap(recs), GraphOf(recs);
    forall i | 0 < i < |p|
      ensures PassesFailure(recs, p[i - 1], p[i]) <==> FailureEdge(g, p[i - 1], p[i])
    {
      FailuresFollowDocuments(recs, p[i - 1], p[i]);
    }
    if FailureChain(s, g, p) {
      forall i | 0 <= i < |p|
        ensures p[i] in m
      {
        assert i > 0 ==> p[i] in s;
      }
    }
  }

  lemma CondemnedIsDoomed(recs: seq<Record>, id: TaskId)
    ensures Condemned(recs, id) <==> Doomed(StatusMap(recs), GraphOf(recs), id)
  {
    hide FailureEdge, PassesFailure, GraphOf, StatusMap, RecordMap;
    if p :| FailsThrough(recs, p) && p[|p| - 1] == id {
      ChainsAgree(recs, p);
    }
    if p :| FailureChain(StatusMap(recs), GraphOf(recs), p) && p[|p| - 1] == id {
      ChainsAgree(recs, p);
    }
  }

  // ---------- the outcome ----------

  /** Task `id` has children, and each was SUCCESS from the start, or has become so as a
      parent that the documents name before `id`. */
  ghost predicate Completes(recs: seq<Record>, final: Statuses, id: TaskId) {
    var m := RecordMap(recs);
    && id != "" && (exists c :: ChildOf(recs, c, id))
    && forall c :: ChildOf(recs, c, id) ==>
         || (c in m && m[c].status.Success?)
         || (c != "" && c in final && final[c].Success? && MentionedBefore(Sources(recs), c, id))
  }

  /** The status of every task after a cycle. FAILED are those that failures reach; any
      other SUCCESS or STOPPED task stays so; of the rest, those whose children are done
      are SUCCESS, those sent are WAITING, and nothing else changes. */
  lemma {:induction false} OutcomeOnDocuments(recs: seq<Record>, idle: QueueName -> int, accepts: TaskId -> bool,
                                              id: TaskId)
    requires id in RecordMap(recs)
    ensures var out, before := CycleOf(recs, idle, accepts), RecordMap(recs)[id].status;
            && out.final.Keys == RecordMap(recs).Keys
            && out.final[id] == if Condemned(recs, id) then Failed
                                else if before.Success? || before.Stopped? then before
                                else if Completes(recs, out.final, id) then Success
                                else if id in out.attempts && accepts(id) then Waiting
                                else before
  {
    hide GraphOf, RecordMap, Doomed, Condemned, RollUp, Propagated, CycleOf, ParentsOf;
    var s0, g := StatusMap(recs), GraphOf(recs);
    var out := CycleOf(recs, idle, accepts);
    WholeCycleOutcome(recs, idle, accepts);
    CondemnedIsDoomed(recs, id);
    if !Final(s0[id]) && !Doomed(s0, g, id) {
      OpenOutcome(recs, idle, accepts, id);
    }
  }

  /** The statuses between dispatch and roll-up. */
  ghost function AfterDispatch(recs: seq<Record>, idle: QueueName -> int, accepts: TaskId -> bool): Statuses {
    Sent(Propagated(StatusMap(recs), GraphOf(recs)), CycleOf(recs, idle, accepts).attempts, accepts)
  }

  lemma {:induction false} AfterDispatchOutcome(recs: seq<Record>, idle: QueueName -> int, accepts: TaskId -> bool)
    ensures var s0, g, s2 := StatusMap(recs), GraphOf(recs), AfterDispatch(recs, idle, accepts);
            && s2.Keys == s0.Keys == RecordMap(recs).Keys && FailuresRolledUp(s2, g) && NoDup(g.parents)
            && CycleOf(recs, idle, accepts).final == RollUp(s2, g, g.parents)
            && (forall id :: id in s0 ==> (s2[id].Success? <==> s0[id].Success?))
            && forall id :: id in s0 && !Final(s0[id]) && !Doomed(s0, g, id) ==>
                 s2[id] == if id in CycleOf(recs, idle, accepts).attempts && accepts(id) then Waiting else s0[id]
  {
    hide GraphOf, Doomed, RollUp, Settled, Ready;
    var s0, g := StatusMap(recs), GraphOf(recs);
    AttemptsReady(recs, idle, accepts);
    AttemptsSendable(recs, idle, accepts);
    PropagatedIsSettled(s0, g);
    SentKeepsFinal(Propagated(s0, g), g, CycleOf(recs, idle, accepts).attempts, accepts);
    ParentsDistinct(recs);
    forall id | id in s0 && Doomed(s0, g, id)
      ensures !s0[id].Success?
    {
      DoomedInMap(s0, g, id);
    }
  }

  lemma AttemptsSendable(recs: seq<Record>, idle: QueueName -> int, accepts: TaskId -> bool)
    ensures var s1 := Propagated(StatusMap(recs), GraphOf(recs));
            forall id :: id in CycleOf(recs, idle, accepts).attempts ==> id in s1 && Sendable(s1[id])
  {
    hide CycleOf, Propagated, GraphOf;
    AttemptsReady(recs, idle, accepts);
  }

  lemma {:induction false} ParentsDistinct(recs: seq<Record>)
    ensures NoDup(GraphOf(recs).parents) && GraphOf(recs).parents == ParentsOf(recs)
  {
  }

  lemma OpenOutcome(recs: seq<Record>, idle: QueueName -> int, accepts: TaskId -> bool, id: TaskId)
    requires id in StatusMap(recs) && !Final(StatusMap(recs)[id]) && !Doomed(StatusMap(recs), GraphOf(recs), id)
    ensures var out, before := CycleOf(recs, idle, accepts), StatusMap(recs)[id];
            && id in out.final
            && out.final[id] == if Completes(recs, out.final, id) then Success
                                else if id in out.attempts && accepts(id) then Waiting
                                else before
  {
    hide CycleOf, AfterDispatch, GraphOf, RollUp, RecordMap, Doomed, FailuresRolledUp, ParentsOf, NoDup;
    var g, s2 := GraphOf(recs), AfterDispatch(recs, idle, accepts);
    AfterDispatchOutcome(recs, idle, accepts);
    RollUpOutcome(s2, g, g.parents);
    GraphRecordsChildren(recs, id, id);
    CompletesAgrees(recs, s2, CycleOf(recs, idle, accepts).final, id);
    if id in g.parents {
      RollUpCompletesIff(s2, g, g.parents, id);
    } else {
      RollUpSpares(s2, g, g.parents, id);
    }
  }

  /** The condition of the roll-up, said of the documents. */
  lemma {:induction false} CompletesAgrees(recs: seq<Record>, s2: Statuses, final: Statuses, id: TaskId)
    requires s2.Keys == final.Keys == RecordMap(recs).Keys
    requires forall c :: c in s2 ==> (s2[c].Success? <==> RecordMap(recs)[c].status.Success?)
    ensures var g := GraphOf(recs);
            Completes(recs, final, id) <==> id in g.parents && CompletesAmong(s2, final, g, g.parents, id)
  {
    hide GraphOf, RecordMap, ParentsOf, MentionedBefore, Precedes, ChildOf, Children;
    var g := GraphOf(recs);
    forall c
      ensures c in Children(g, id) <==> id != "" && ChildOf(recs, c, id)
      ensures ChildOf(recs, c, id) ==> c in s2
      ensures id in g.parents ==> (Precedes(g.parents, c, id) <==> c != "" && MentionedBefore(Sources(recs), c, id))
    {
      GraphRecordsChildren(recs, c, id);
      if ChildOf(recs, c, id) {
        ChildInMap(recs, c, id);
      }
      if id in g.parents {
        ParentPrecedes(recs, c, id);
      }
    }
    GraphRecordsChildren(recs, id, id);
  }

  lemma {:induction false} ChildInMap(recs: seq<Record>, c: TaskId, p: TaskId)
    requires ChildOf(recs, c, p)
    ensures c in RecordMap(recs)
  {
    MappedRecord(recs, c);
  }

  lemma ParentPrecedes(recs: seq<Record>, p: TaskId, q: TaskId)
    requires q in GraphOf(recs).parents
    ensures Precedes(GraphOf(recs).parents, p, q) <==> p != "" && MentionedBefore(Sources(recs), p, q)
  {
    ParentsDistinct(recs);
    hide GraphOf;
    if p != "" {
      ParentsInDocumentOrder(recs, p, q);
    }
  }

  // ---------- what is sent ----------

  /** The task may be sent: it is PENDING or RETRYING, no failure reaches it, and every
      task it depends on is in the list with SUCCESS. */
  ghost predicate MaySend(recs: seq<Record>, id: TaskId) {
    var m := RecordMap(recs);
    && id in m && (m[id].status.Pending? || m[id].status.Retrying?) && !Condemned(recs, id)
    && forall dep :: DependsOn(recs, id, dep) ==> dep in m && m[dep].status.Success?
  }

  /** A parent of the task is RUNNING, and no failure reaches it. */
  ghost predicate IsUrgent(recs: seq<Record>, c: TaskId) {
    exists p :: RunningParent(recs, c, p)
  }

  ghost predicate RunningParent(recs: seq<Record>, c: TaskId, p: TaskId) {
    var m := RecordMap(recs);
    p != "" && ChildOf(recs, c, p) && p in m && m[p].status.Running? && !Condemned(recs, p)
  }

  /** `a` is urgent and `b` is not, or they are alike and `a` is heavier, or as heavy and
      named earlier in the list. */
  ghost predicate Outranks(recs: seq<Record>, a: TaskId, b: TaskId) {
    var m := RecordMap(recs);
    && a in m && b in m
    && ((IsUrgent(recs, a) && !IsUrgent(recs, b))
        || ((IsUrgent(recs, a) <==> IsUrgent(recs, b))
            && (m[a].weight > m[b].weight
                || (m[a].weight == m[b].weight && MentionedBefore(Ids(recs), a, b)))))
  }

  ghost function Settling(recs: seq<Record>): Statuses {
    Propagated(StatusMap(recs), GraphOf(recs))
  }

  ghost function RunOf(recs: seq<Record>): seq<TaskId> {
    OrderListsMap(recs);
    Runnable(OrderOf(recs), Settling(recs), GraphOf(recs))
  }

  ghost function UrgentOf(recs: seq<Record>): set<TaskId> {
    UrgentSet(Settling(recs), GraphOf(recs))
  }

  lemma {:induction false} SettlingIs(recs: seq<Record>, id: TaskId)
    ensures id in Settling(recs) <==> id in RecordMap(recs)
    ensures id in RecordMap(recs) ==>
              Settling(recs)[id] == if Condemned(recs, id) then Failed else RecordMap(recs)[id].status
    ensures id in RecordMap(recs) && Condemned(recs, id) ==> !RecordMap(recs)[id].status.Success?
  {
    hide Condemned, Doomed, GraphOf, RecordMap;
    CondemnedIsDoomed(recs, id);
    if Doomed(StatusMap(recs), GraphOf(recs), id) {
      DoomedInMap(StatusMap(recs), GraphOf(recs), id);
    }
  }

  /** The priority subtasks are the children that documents record of RUNNING tasks. */
  lemma UrgentAreChildren(recs: seq<Record>, s: Statuses, c: TaskId)
    ensures c in UrgentSet(s, GraphOf(recs)) <==>
              exists p :: p != "" && ChildOf(recs, c, p) && p in s && s[p].Running?
  {
    var g := GraphOf(recs);
    hide GraphOf, ChildOf;
    forall p
      ensures c in Children(g, p) <==> p != "" && ChildOf(recs, c, p)
    {
      GraphRecordsChildren(recs, c, p);
    }
    if c in UrgentSet(s, g) {
      var p :| p in g.children && p in s && s[p].Running? && c in g.children[p];
      assert c in Children(g, p);
    }
    if p :| p != "" && ChildOf(recs, c, p) && p in s && s[p].Running? {
      assert c in Children(g, p);
    }
  }

  lemma UrgentIs(recs: seq<Record>, c: TaskId)
    ensures c in UrgentOf(recs) <==> IsUrgent(recs, c)
  {
    hide GraphOf, UrgentSet, Settling, ChildOf, Condemned, RecordMap;
    UrgentAreChildren(recs, Settling(recs), c);
    forall p
      ensures RunningParent(recs, c, p) <==>
                p != "" && ChildOf(recs, c, p) && p in Settling(recs) && Settling(recs)[p].Running?
    {
      SettlingIs(recs, p);
    }
  }

  lemma RunIs(recs: seq<Record>, id: TaskId)
    ensures id in RunOf(recs) <==> MaySend(recs, id)
    ensures NoDup(RunOf(recs))
  {
    hide GraphOf, Settling, Condemned, RecordMap, DependsOn, OrderOf;
    OrderListsMap(recs);
    SettlingIs(recs, id);
    forall dep
      ensures dep in Prereqs(GraphOf(recs), id) <==> DependsOn(recs, id, dep)
      ensures dep in Settling(recs) && Settling(recs)[dep].Success? <==>
                dep in RecordMap(recs) && RecordMap(recs)[dep].status.Success?
    {
      GraphRecordsDependencies(recs, id, dep);
      SettlingIs(recs, dep);
    }
  }

  lemma RunInDocumentOrder(recs: seq<Record>, a: TaskId, b: TaskId)
    requires Precedes(RunOf(recs), a, b)
    ensures MentionedBefore(Ids(recs), a, b)
  {
    OrderListsMap(recs);
    RunnableKeepsOrder(OrderOf(recs), Settling(recs), GraphOf(recs), a, b);
    MapInDocumentOrder(recs, a, b);
  }

  lemma BetterOutranks(recs: seq<Record>, a: TaskId, b: TaskId)
    requires a in RunOf(recs) && b in RunOf(recs) && a in InfoMap(recs) && b in InfoMap(recs)
    requires Better(RunOf(recs), InfoMap(recs), UrgentOf(recs), a, b)
    ensures Outranks(recs, a, b)
  {
    hide RunOf, UrgentOf, IsUrgent, MentionedBefore, RecordMap, Precedes;
    UrgentIs(recs, a);
    UrgentIs(recs, b);
    if Precedes(RunOf(recs), a, b) {
      RunInDocumentOrder(recs, a, b);
    }
  }

  lemma AttemptsAre(recs: seq<Record>, idle: QueueName -> int, accepts: TaskId -> bool)
    ensures forall id :: id in RunOf(recs) ==> id in InfoMap(recs)
    ensures CycleOf(recs, idle, accepts).attempts == AttemptsOf(RunOf(recs), InfoMap(recs), UrgentOf(recs), idle)
    ensures NoDup(RunOf(recs))
    ensures forall id :: id in RunOf(recs) <==> MaySend(recs, id)
  {
    hide GraphOf, Propagated, AttemptsOf, UrgentSet, Concluded, Runnable, MaySend;
    forall id
      ensures id in RunOf(recs) <==> MaySend(recs, id)
      ensures MaySend(recs, id) ==> id in InfoMap(recs)
    {
      RunIs(recs, id);
      MaySendInMap(recs, id);
    }
  }

  lemma {:induction false} MaySendInMap(recs: seq<Record>, id: TaskId)
    ensures MaySend(recs, id) ==> id in RecordMap(recs) && id in InfoMap(recs)
  {
  }

  /** What a cycle sends to a queue is, of the tasks that may be sent there, as many as the
      queue has idle slots, or all; each outranks every one that is left; no task twice. */
  lemma {:induction false} SentOnDocuments(recs: seq<Record>, idle: QueueName -> int, accepts: TaskId -> bool,
                                           q: QueueName)
    ensures var m, all := RecordMap(recs), CycleOf(recs, idle, accepts).attempts;
            && NoDup(all) && (forall id :: id in all ==> MaySend(recs, id))
            && var wanted := set id | id in m && m[id].queue == q && MaySend(recs, id);
               var given := set id | id in all && id in m && m[id].queue == q;
               && given <= wanted
               && |given| == (if idle(q) <= 0 then 0 else if idle(q) < |wanted| then idle(q) else |wanted|)
               && forall a, b :: a in given && b in wanted - given ==> Outranks(recs, a, b)
  {
    hide RunOf, UrgentOf, CycleOf, MaySend, Outranks, RecordMap, AttemptsOf, Better;
    var run, info, prio := RunOf(recs), InfoMap(recs), UrgentOf(recs);
    AttemptsAre(recs, idle, accepts);
    BestWithinCapacity(run, info, prio, idle, q);
    var all := AttemptsOf(run, info, prio, idle);
    var m := RecordMap(recs);
    var wanted := set id | id in m && m[id].queue == q && MaySend(recs, id);
    var given := set id | id in all && id in m && m[id].queue == q;
    assert wanted == set id | id in run && info[id].queue == q;
    assert given == set id | id in all && info[id].queue == q;
    forall a, b | a in given && b in wanted - given
      ensures Outranks(recs, a, b)
    {
      BetterOutranks(recs, a, b);
    }
  }

  /** Queue `q` is served before `r`: one of its tasks is named earlier than all of `r`. */
  ghost predicate ServedBefore(recs: seq<Record>, q: QueueName, r: QueueName) {
    exists x :: EarlierThanAll(recs, x, q, r)
  }

  ghost predicate EarlierThanAll(recs: seq<Record>, x: TaskId, q: QueueName, r: QueueName) {
    var m := RecordMap(recs);
    && MaySend(recs, x) && x in m && m[x].queue == q
    && forall y :: MaySend(recs, y) && y in m && m[y].queue == r ==> MentionedBefore(Ids(recs), x, y)
  }

  /** Messages go out queue after queue, and to each queue in order of rank. */
  lemma {:induction false} SendOrder(recs: seq<Record>, idle: QueueName -> int, accepts: TaskId -> bool, i: nat, j: nat)
    requires i < j < |CycleOf(recs, idle, accepts).attempts|
    ensures var m, all := RecordMap(recs), CycleOf(recs, idle, accepts).attempts;
            && all[i] in m && all[j] in m
            && if m[all[i]].queue == m[all[j]].queue then Outranks(recs, all[i], all[j])
               else ServedBefore(recs, m[all[i]].queue, m[all[j]].queue)
  {
    hide RunOf, UrgentOf, CycleOf, MaySend, Outranks, RecordMap, Better, ServedBefore, FirstSeen, Attempts, Precedes;
    var run, info, prio := RunOf(recs), InfoMap(recs), UrgentOf(recs);
    AttemptsAre(recs, idle, accepts);
    var queues := FirstSeen(QueuesOf(run, info));
    AttemptsInOrder(queues, run, info, prio, idle);
    var a, b := CycleOf(recs, idle, accepts).attempts[i], CycleOf(recs, idle, accepts).attempts[j];
    assert InTurn(queues, run, info, prio, a, b);
    if info[a].queue == info[b].queue {
      DistinctNotBefore(queues, info[a].queue);
      BetterOutranks(recs, a, b);
    } else {
      QueueOrder(recs, info[a].queue, info[b].queue);
    }
  }

  lemma DistinctNotBefore(queues: seq<QueueName>, q: QueueName)
    requires NoDup(queues)
    ensures !Precedes(queues, q, q)
  {
  }

  lemma QueueOrder(recs: seq<Record>, q: QueueName, r: QueueName)
    requires forall id :: id in RunOf(recs) ==> id in InfoMap(recs)
    requires Precedes(FirstSeen(QueuesOf(RunOf(recs), InfoMap(recs))), q, r)
    ensures ServedBefore(recs, q, r)
  {
    hide RunOf, MaySend, RecordMap, FirstSeen, Precedes;
    var run, info := RunOf(recs), InfoMap(recs);
    var qs := QueuesOf(run, info);
    FirstSeenInOrder(qs, q, r);
    var k :| OccursBefore(qs, k, q, r);
    assert forall n :: 0 <= n <= k ==> qs[..k + 1][n] == qs[n];
    var x := run[k];
    RunIs(recs, x);
    forall y | MaySend(recs, y) && y in RecordMap(recs) && RecordMap(recs)[y].queue == r
      ensures MentionedBefore(Ids(recs), x, y)
    {
      RunIs(recs, y);
      var l :| 0 <= l < |run| && run[l] == y;
      assert qs[l] == r && l > k;
      PrecedesAt(run, k, l);
      RunInDocumentOrder(recs, x, y);
    }
    assert EarlierThanAll(recs, x, q, r);
  }

  lemma PrecedesAt(s: seq<TaskId>, i: nat, j: nat)
    requires i < j < |s|
    ensures Precedes(s, s[i], s[j])
  {
  }
}

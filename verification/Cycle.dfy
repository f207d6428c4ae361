/** One scheduling cycle as a function of the fetched documents, the idle slots and
    the sends that succeed; and what such a cycle guarantees. */
module Cycle {
  import opened Collections
  import opened TaskModel
  import opened FailurePropagation
  import opened Dispatch

  // ---------- the task map and the graph of a list of documents ----------

  /** The ids of the task map, in order of first occurrence. */
  function OrderOf(recs: seq<Record>): (r: seq<TaskId>)
    ensures NoDup(r)
  {
    if recs == [] then [] else
      var rest := OrderOf(recs[..|recs| - 1]);
      var id := recs[|recs| - 1].id;
      if id in rest then rest else rest + [id]
  }

  /** A later document replaces an earlier one with the same id. */
  function RecordMap(recs: seq<Record>): map<TaskId, Record> {
    if recs == [] then map[] else
      RecordMap(recs[..|recs| - 1])[recs[|recs| - 1].id := recs[|recs| - 1]]
  }

  lemma {:induction false} MappedRecord(recs: seq<Record>, id: TaskId)
    ensures id in RecordMap(recs) ==> RecordMap(recs)[id] in recs && RecordMap(recs)[id].id == id
    ensures id in RecordMap(recs) <==> id in OrderOf(recs)
    ensures id in RecordMap(recs) <==> exists i :: 0 <= i < |recs| && recs[i].id == id
  {
    if recs != [] {
      MappedRecord(recs[..|recs| - 1], id);
    }
  }

  function StatusMap(recs: seq<Record>): Statuses {
    var m := RecordMap(recs);
    map id | id in m :: m[id].status
  }

  function InfoMap(recs: seq<Record>): Infos {
    var m := RecordMap(recs);
    map id | id in m :: Info(m[id].queue, m[id].weight)
  }

  /** Some document of task `id` lists `dep` under `depends_on`. */
  ghost predicate DependsOn(recs: seq<Record>, id: TaskId, dep: TaskId) {
    dep != "" && exists i :: 0 <= i < |recs| && recs[i].id == id && dep in recs[i].dependsOn
  }

  ghost function DependencySet(recs: seq<Record>, id: TaskId): set<TaskId> {
    set i, d | 0 <= i < |recs| && recs[i].id == id && d in recs[i].dependsOn && d != "" :: d
  }

  ghost function DependentSet(recs: seq<Record>, dep: TaskId): set<TaskId> {
    set i | 0 <= i < |recs| && dep in recs[i].dependsOn && dep != "" :: recs[i].id
  }

  /** The children of `p`, in list order. */
  function ChildIds(recs: seq<Record>, p: TaskId): seq<TaskId> {
    if recs == [] then [] else
      var last := recs[|recs| - 1];
      ChildIds(recs[..|recs| - 1], p) + if last.sourceId == p then [last.id] else []
  }

  /** The parents that some document names, in order of first mention. */
  function ParentsOf(recs: seq<Record>): (r: seq<TaskId>)
    ensures NoDup(r) && "" !in r
  {
    if recs == [] then [] else
      var rest := ParentsOf(recs[..|recs| - 1]);
      var p := recs[|recs| - 1].sourceId;
      if p == "" || p in rest then rest else rest + [p]
  }

  ghost function GraphOf(recs: seq<Record>): Graph {
    Graph(
      map i | 0 <= i < |recs| && DependencySet(recs, recs[i].id) != {} :: recs[i].id := DependencySet(recs, recs[i].id),
      map i, d | 0 <= i < |recs| && d in recs[i].dependsOn && d != "" :: d := DependentSet(recs, d),
      ParentsOf(recs),
      map p | p in ParentsOf(recs) :: ChildIds(recs, p))
  }

  /** The in-edges are exactly the recorded dependencies, the out-edges their inverse. */
  lemma GraphRecordsDependencies(recs: seq<Record>, id: TaskId, dep: TaskId)
    ensures dep in Prereqs(GraphOf(recs), id) <==> DependsOn(recs, id, dep)
    ensures id in Dependents(GraphOf(recs), dep) <==> DependsOn(recs, id, dep)
  {
    var g := GraphOf(recs);
    if DependsOn(recs, id, dep) {
      var i :| 0 <= i < |recs| && recs[i].id == id && dep in recs[i].dependsOn;
      assert dep in DependencySet(recs, recs[i].id) && id in DependentSet(recs, dep);
      assert id in g.ins && g.ins[id] == DependencySet(recs, id);
      assert dep in g.outs;
      assert g.outs[dep] == DependentSet(recs, dep);
    }
    if id in Dependents(g, dep) {
      assert id in DependentSet(recs, dep);
    }
  }

  /** Document `c` names `p` as its parent. */
  ghost predicate ChildOf(recs: seq<Record>, c: TaskId, p: TaskId) {
    exists i :: 0 <= i < |recs| && recs[i].id == c && recs[i].sourceId == p
  }

  lemma {:induction false} ChildIdsAre(recs: seq<Record>, p: TaskId)
    ensures forall c :: c in ChildIds(recs, p) <==> ChildOf(recs, c, p)
  {
    if recs != [] {
      var init, last := recs[..|recs| - 1], recs[|recs| - 1];
      ChildIdsAre(init, p);
      forall c
        ensures ChildOf(recs, c, p) <==> ChildOf(init, c, p) || (last.id == c && last.sourceId == p)
      {
        ChildOfNext(init, last, c, p);
        assert recs == init + [last];
      }
    }
  }

  lemma {:induction false} ParentsAre(recs: seq<Record>, p: TaskId)
    ensures p in ParentsOf(recs) <==> p != "" && exists c :: ChildOf(recs, c, p)
  {
    if recs != [] {
      var init, last := recs[..|recs| - 1], recs[|recs| - 1];
      assert recs == init + [last];
      ParentsAre(init, p);
      if p in ParentsOf(recs) {
        var c := if last.sourceId == p then last.id else var c :| ChildOf(init, c, p); c;
        ChildOfNext(init, last, c, p);
      }
      forall c | ChildOf(recs, c, p)
        ensures ChildOf(init, c, p) || last.sourceId == p
      {
        ChildOfNext(init, last, c, p);
      }
    }
  }

  lemma ChildOfNext(init: seq<Record>, last: Record, c: TaskId, p: TaskId)
    ensures ChildOf(init + [last], c, p) <==> ChildOf(init, c, p) || (last.id == c && last.sourceId == p)
  {
    var recs := init + [last];
    if i :| 0 <= i < |init| && init[i].id == c && init[i].sourceId == p {
      assert recs[i].id == c && recs[i].sourceId == p;
    }
    assert recs[|init|] == last;
  }

  /** The children of a task are exactly the documents that name it as their parent. */
  lemma GraphRecordsChildren(recs: seq<Record>, c: TaskId, p: TaskId)
    ensures c in Children(GraphOf(recs), p) <==> p != "" && ChildOf(recs, c, p)
    ensures p in GraphOf(recs).parents <==> p != "" && exists x :: ChildOf(recs, x, p)
  {
    ChildIdsAre(recs, p);
    ParentsAre(recs, p);
  }

  // ---------- parent roll-up ----------

  ghost predicate HasChild(s: Statuses, g: Graph, p: TaskId) {
    exists c :: c in Children(g, p) && c in s
  }

  ghost predicate AllChildrenSucceeded(s: Statuses, g: Graph, p: TaskId) {
    forall c :: c in Children(g, p) && c in s ==> s[c].Success?
  }

  ghost predicate SomeChildFailed(s: Statuses, g: Graph, p: TaskId) {
    exists c :: c in Children(g, p) && c in s && s[c].Failed?
  }

  ghost function RollOne(s: Statuses, g: Graph, p: TaskId): Statuses {
    if p !in s || Final(s[p]) || !HasChild(s, g, p) then s
    else if AllChildrenSucceeded(s, g, p) then s[p := Success]
    else if SomeChildFailed(s, g, p) then s[p := Failed]
    else s
  }

  /** The parents are visited in order; each sees what the ones before it became. */
  ghost function RollUp(s: Statuses, g: Graph, parents: seq<TaskId>): Statuses {
    if parents == [] then s
    else RollOne(RollUp(s, g, parents[..|parents| - 1]), g, parents[|parents| - 1])
  }

  /** An open task has no failed child. */
  ghost predicate FailuresRolledUp(s: Statuses, g: Graph) {
    forall p, c :: p in s && c in s && c in Children(g, p) && s[c].Failed? ==> Final(s[p])
  }

  /** When failures have been propagated, the roll-up fails no further task; a task
      it completes has children and all of them, in the end, succeeded. */
  lemma {:induction false} RollUpOutcome(s: Statuses, g: Graph, parents: seq<TaskId>)
    requires FailuresRolledUp(s, g)
    ensures var r := RollUp(s, g, parents);
            && r.Keys == s.Keys
            && forall id :: id in s ==>
                 r[id] == s[id]
                 || (!Final(s[id]) && r[id].Success? && id in parents
                     && HasChild(r, g, id) && AllChildrenSucceeded(r, g, id))
  {
    if parents != [] {
      var init, p := parents[..|parents| - 1], parents[|parents| - 1];
      RollUpOutcome(s, g, init);
      var r := RollUp(s, g, init);
      var r' := RollOne(r, g, p);
      forall id | id in s
        ensures r'[id] == s[id]
                || (!Final(s[id]) && r'[id].Success? && id in parents
                    && HasChild(r', g, id) && AllChildrenSucceeded(r', g, id))
      {
        if r[id] != s[id] || id == p {
          assert HasChild(r, g, id) ==> HasChild(r', g, id);
          assert AllChildrenSucceeded(r, g, id) ==> AllChildrenSucceeded(r', g, id);
        }
      }
    }
  }

  /** Exactly which parents complete: those with children each of which had succeeded
      beforehand, or completed when it was visited earlier as a parent itself. */
  lemma {:induction false} RollUpCompletesIff(s: Statuses, g: Graph, parents: seq<TaskId>, p: TaskId)
    requires FailuresRolledUp(s, g) && NoDup(parents)
    requires p in s && !Final(s[p]) && p in parents
    ensures var r := RollUp(s, g, parents);
            r.Keys == s.Keys && (r[p].Success? <==> CompletesAmong(s, r, g, parents, p))
  {
    var init, last := parents[..|parents| - 1], parents[|parents| - 1];
    RollUpOutcome(s, g, init);
    RollUpOutcome(s, g, parents);
    assert parents == init + [last];
    forall c
      ensures Precedes(parents, c, p) <==> Precedes(init, c, p) || (p == last && c in init)
    {
      PrecedesSnoc(init, last, c, p);
    }
    if p == last {
      VisitedCompletesIff(s, g, init, p);
    } else {
      RollUpCompletesIff(s, g, init, p);
      LastNotBefore(init, last, p);
    }
  }

  ghost predicate CompletesAmong(s: Statuses, r: Statuses, g: Graph, parents: seq<TaskId>, p: TaskId)
    requires r.Keys == s.Keys
  {
    && HasChild(s, g, p)
    && forall c :: c in Children(g, p) && c in s ==> s[c].Success? || (r[c].Success? && Precedes(parents, c, p))
  }

  /** The parent visited last. */
  lemma {:induction false} VisitedCompletesIff(s: Statuses, g: Graph, init: seq<TaskId>, p: TaskId)
    requires FailuresRolledUp(s, g) && p in s && !Final(s[p]) && p !in init
    ensures var r := RollUp(s, g, init); var r' := RollOne(r, g, p);
            && r.Keys == r'.Keys == s.Keys
            && (r'[p].Success? <==> HasChild(s, g, p) && forall c :: c in Children(g, p) && c in s ==>
                                      s[c].Success? || (r'[c].Success? && c in init))
  {
    RollUpOutcome(s, g, init);
    var r := RollUp(s, g, init);
    hide RollUp, FailuresRolledUp;
    assert HasChild(r, g, p) <==> HasChild(s, g, p);
    assert r[p] == s[p];
  }

  lemma LastNotBefore(init: seq<TaskId>, last: TaskId, p: TaskId)
    requires last !in init
    ensures !Precedes(init, last, p)
  {
  }

  /** An open parent with a FAILED child is FAILED, whatever its other children are. */
  lemma {:induction false} FailedChildFailsParent(s: Statuses, g: Graph, parents: seq<TaskId>, p: TaskId, c: TaskId)
    requires p in s && !Final(s[p]) && p in parents && c in Children(g, p) && c in s && s[c].Failed?
    ensures var r := RollUp(s, g, parents); r.Keys == s.Keys && r[p].Failed? && r[c].Failed?
  {
    var init, last := parents[..|parents| - 1], parents[|parents| - 1];
    RollUpKeepsFinal(s, g, init);
    if p in init {
      FailedChildFailsParent(s, g, init, p, c);
    } else {
      RollUpSpares(s, g, init, p);
    }
  }

  lemma {:induction false} RollUpKeepsFinal(s: Statuses, g: Graph, parents: seq<TaskId>)
    ensures var r := RollUp(s, g, parents);
            r.Keys == s.Keys && forall id :: id in s && Final(s[id]) ==> r[id] == s[id]
  {
    if parents != [] {
      RollUpKeepsFinal(s, g, parents[..|parents| - 1]);
    }
  }

  lemma {:induction false} RollUpSpares(s: Statuses, g: Graph, parents: seq<TaskId>, p: TaskId)
    requires p in s && p !in parents
    ensures p in RollUp(s, g, parents) && RollUp(s, g, parents)[p] == s[p]
  {
    if parents != [] {
      RollUpSpares(s, g, parents[..|parents| - 1], p);
    }
  }

  /** A task whose children had all succeeded beforehand is completed. */
  lemma {:induction false} RollUpCompletes(s: Statuses, g: Graph, parents: seq<TaskId>, p: TaskId)
    requires FailuresRolledUp(s, g)
    requires p in s && !Final(s[p]) && p in parents
    requires HasChild(s, g, p) && AllChildrenSucceeded(s, g, p)
    ensures p in RollUp(s, g, parents) && RollUp(s, g, parents)[p].Success?
  {
    var init, last := parents[..|parents| - 1], parents[|parents| - 1];
    RollUpOutcome(s, g, init);
    RollUpOutcome(s, g, parents);
    var r := RollUp(s, g, init);
    if p in init {
      RollUpCompletes(s, g, init, p);
    } else {
      assert HasChild(r, g, p) && AllChildrenSucceeded(r, g, p);
    }
  }

  // ---------- the cycle ----------

  /** The ids to which a message is sent or attempted, and the statuses at the end. */
  datatype Outcome = Outcome(attempts: seq<TaskId>, final: Statuses)

  ghost function UrgentSet(s: Statuses, g: Graph): set<TaskId> {
    set p, c | p in g.children && p in s && s[p].Running? && c in g.children[p] :: c
  }

  /** Steps 2 to 7 for the fetched documents `recs`. */
  ghost function CycleOf(recs: seq<Record>, idle: QueueName -> int, accepts: TaskId -> bool): Outcome {
    var g := GraphOf(recs);
    var s1 := Propagated(StatusMap(recs), g);
    var order := OrderOf(recs);
    OrderListsMap(recs);
    var attempts := AttemptsOf(Runnable(order, s1, g), InfoMap(recs), UrgentSet(s1, g), idle);
    Outcome(attempts, Concluded(s1, g, attempts, accepts))
  }

  /** The queues that a cycle serves, in order. */
  ghost function QueuesServed(recs: seq<Record>): seq<QueueName> {
    var s1 := Propagated(StatusMap(recs), GraphOf(recs));
    OrderListsMap(recs);
    FirstSeen(QueuesOf(Runnable(OrderOf(recs), s1, GraphOf(recs)), InfoMap(recs)))
  }

  /** The attempts of a cycle for the first `k` queues that it serves. */
  ghost function AttemptsBefore(recs: seq<Record>, idle: QueueName -> int, k: nat): seq<TaskId>
    requires k <= |QueuesServed(recs)|
  {
    var g := GraphOf(recs);
    var s1 := Propagated(StatusMap(recs), g);
    OrderListsMap(recs);
    Attempts(QueuesServed(recs)[..k], Runnable(OrderOf(recs), s1, g), InfoMap(recs), UrgentSet(s1, g), idle)
  }

  lemma {:induction false} OrderListsMap(recs: seq<Record>)
    ensures forall id :: id in OrderOf(recs) <==> id in RecordMap(recs)
  {
    forall id
      ensures id in OrderOf(recs) <==> id in RecordMap(recs)
    {
      MappedRecord(recs, id);
    }
  }

  /** The attempts of a cycle: distinct tasks, each of them ready after propagation. */
  lemma AttemptsReady(recs: seq<Record>, idle: QueueName -> int, accepts: TaskId -> bool)
    ensures var g := GraphOf(recs);
            var s1 := Propagated(StatusMap(recs), g);
            var attempts := CycleOf(recs, idle, accepts).attempts;
            && NoDup(attempts)
            && forall id :: id in attempts ==> id in s1 && Ready(s1, g, id)
  {
    var g := GraphOf(recs);
    var s1 := Propagated(StatusMap(recs), g);
    OrderListsMap(recs);
    var run := Runnable(OrderOf(recs), s1, g);
    AttemptsAreGranted(run, InfoMap(recs), UrgentSet(s1, g), idle);
  }

  /** Steps 6 and 7 after a propagation: dispatch and roll-up. */
  ghost function Concluded(s: Statuses, g: Graph, attempts: seq<TaskId>, accepts: TaskId -> bool): Statuses {
    RollUp(Sent(s, attempts, accepts), g, g.parents)
  }

  lemma SentKeepsFinal(s: Statuses, g: Graph, attempts: seq<TaskId>, accepts: TaskId -> bool)
    requires forall id :: id in s && s[id].Failed? ==> Settled(s, g, id)
    requires forall id :: id in attempts ==> id in s && Sendable(s[id])
    ensures FailuresRolledUp(Sent(s, attempts, accepts), g)
  {
    var r := Sent(s, attempts, accepts);
    forall p, c | p in r && c in r && c in Children(g, p) && r[c].Failed?
      ensures Final(r[p])
    {
      assert s[c].Failed? && Settled(s, g, c);
      assert FailureEdge(g, c, p);
    }
  }

  /** Propagation, dispatch and roll-up over any task map and any graph. */
  lemma ConcludedOutcome(s0: Statuses, g: Graph, attempts: seq<TaskId>, accepts: TaskId -> bool)
    requires var s1 := Propagated(s0, g); forall id :: id in attempts ==> id in s1 && Sendable(s1[id])
    ensures var final := Concluded(Propagated(s0, g), g, attempts, accepts);
            && final.Keys == s0.Keys
            && (forall id :: id in s0 && Final(s0[id]) ==> final[id] == s0[id])
            && (forall id :: id in s0 ==> (final[id].Failed? <==> Doomed(s0, g, id)))
            && (forall id :: id in s0 && final[id].Success? && !s0[id].Success? ==>
                  HasChild(final, g, id) && AllChildrenSucceeded(final, g, id))
            && (forall id :: id in s0 && !Final(s0[id]) && final[id] != s0[id] && !Final(final[id]) ==>
                  final[id].Waiting? && Sendable(s0[id]) && id in attempts && accepts(id))
            && (forall id :: id in attempts && accepts(id) ==>
                  id in final && (final[id].Waiting? || final[id].Success?))
  {
    var s1 := Propagated(s0, g);
    PropagatedIsSettled(s0, g);
    SentKeepsFinal(s1, g, attempts, accepts);
    RollUpOutcome(Sent(s1, attempts, accepts), g, g.parents);
    forall id | id in s0
      ensures Final(s0[id]) ==> s1[id] == s0[id]
      ensures s1[id].Failed? <==> Doomed(s0, g, id)
    {
      if Doomed(s0, g, id) {
        DoomedInMap(s0, g, id);
      }
    }
  }

  /** An open task that is not doomed and whose children had all succeeded completes. */
  lemma ConcludedCompletes(s0: Statuses, g: Graph, attempts: seq<TaskId>, accepts: TaskId -> bool, p: TaskId)
    requires ParentsListed(g)
    requires var s1 := Propagated(s0, g); forall id :: id in attempts ==> id in s1 && Sendable(s1[id])
    requires p in s0 && !Final(s0[p]) && !Doomed(s0, g, p)
    requires HasChild(s0, g, p) && AllChildrenSucceeded(s0, g, p)
    ensures var final := Concluded(Propagated(s0, g), g, attempts, accepts);
            p in final && final[p].Success?
  {
    var s1 := Propagated(s0, g);
    var s2 := Sent(s1, attempts, accepts);
    PropagatedIsSettled(s0, g);
    SentKeepsFinal(s1, g, attempts, accepts);
    forall id | id in s0 && s0[id].Success?
      ensures s2[id].Success?
    {
      if Doomed(s0, g, id) {
        DoomedInMap(s0, g, id);
      }
    }
    var c :| c in Children(g, p) && c in s0;
    assert c in s2;
    RollUpCompletes(s2, g, g.parents, p);
  }

  /** The outcome of a whole cycle, whatever the list of tasks. */
  lemma WholeCycleOutcome(recs: seq<Record>, idle: QueueName -> int, accepts: TaskId -> bool)
    ensures var s0, g := StatusMap(recs), GraphOf(recs);
            var final := CycleOf(recs, idle, accepts).final;
            && final.Keys == s0.Keys
            // final statuses never change
            && (forall id :: id in s0 && Final(s0[id]) ==> final[id] == s0[id])
            // the failed tasks are exactly the doomed ones
            && (forall id :: id in s0 ==> (final[id].Failed? <==> Doomed(s0, g, id)))
            // a task that became SUCCESS has children, all of them SUCCESS
            && (forall id :: id in s0 && final[id].Success? && !s0[id].Success? ==>
                  HasChild(final, g, id) && AllChildrenSucceeded(final, g, id))
            // the only other change is to WAITING, of a task that was sent
            && (forall id :: id in s0 && !Final(s0[id]) && final[id] != s0[id] && !Final(final[id]) ==>
                  final[id].Waiting? && Sendable(s0[id]) && id in CycleOf(recs, idle, accepts).attempts && accepts(id))
            // and every task that was sent is WAITING, or completed by its children
            && (forall id :: id in CycleOf(recs, idle, accepts).attempts && accepts(id) ==>
                  id in final && (final[id].Waiting? || final[id].Success?))
  {
    AttemptsReady(recs, idle, accepts);
    ConcludedOutcome(StatusMap(recs), GraphOf(recs), CycleOf(recs, idle, accepts).attempts, accepts);
  }

  /** A task of the list that is open, not doomed, and whose children had all
      succeeded before the cycle is SUCCESS after it. */
  lemma FinishedParentCompletes(recs: seq<Record>, idle: QueueName -> int, accepts: TaskId -> bool, p: TaskId)
    requires var s0, g := StatusMap(recs), GraphOf(recs);
             && p in s0 && !Final(s0[p]) && !Doomed(s0, g, p)
             && HasChild(s0, g, p) && AllChildrenSucceeded(s0, g, p)
    ensures var final := CycleOf(recs, idle, accepts).final; p in final && final[p].Success?
  {
    AttemptsReady(recs, idle, accepts);
    ConcludedCompletes(StatusMap(recs), GraphOf(recs), CycleOf(recs, idle, accepts).attempts, accepts, p);
  }

  /** Failures come from dependencies and children alone. A task all of whose listed
      dependencies and children are STOPPED or SUCCESS does not become FAILED in a
      cycle, whatever became of its parent. */
  lemma NeitherStopsNorParentsFail(recs: seq<Record>, idle: QueueName -> int, accepts: TaskId -> bool, id: TaskId)
    requires id in StatusMap(recs) && !StatusMap(recs)[id].Failed?
    requires forall a :: a in StatusMap(recs) && (DependsOn(recs, id, a) || ChildOf(recs, a, id)) ==>
               StatusMap(recs)[a].Stopped? || StatusMap(recs)[a].Success?
    ensures var final := CycleOf(recs, idle, accepts).final; id in final && !final[id].Failed?
  {
    hide CycleOf, StatusMap, DependsOn, ChildOf;
    var s0, g := StatusMap(recs), GraphOf(recs);
    forall a | a in s0 && FailureEdge(g, a, id)
      ensures s0[a].Stopped? || s0[a].Success?
    {
      GraphRecordsDependencies(recs, id, a);
      GraphRecordsChildren(recs, a, id);
    }
    NotReached(s0, g, id);
    WholeCycleOutcome(recs, idle, accepts);
  }

  lemma ReadyTasksAreSafe(recs: seq<Record>, s0: Statuses, attempts: seq<TaskId>)
    requires var s1 := Propagated(s0, GraphOf(recs));
             forall id :: id in attempts ==> id in s1 && Ready(s1, GraphOf(recs), id)
    ensures forall id :: id in attempts ==> id in s0 && Sendable(s0[id]) && !Doomed(s0, GraphOf(recs), id)
    ensures forall id, dep :: id in attempts && DependsOn(recs, id, dep) ==>
              dep in s0 && s0[dep].Success? && dep !in attempts
  {
    forall id, dep | id in attempts && DependsOn(recs, id, dep)
      ensures dep in s0 && s0[dep].Success? && dep !in attempts
    {
      GraphRecordsDependencies(recs, id, dep);
    }
  }

  /** Every task sent in a cycle is outside the failure closure and has all its
      recorded dependencies in the list with SUCCESS; so no task sent in a cycle
      depends on another one sent in it. */
  lemma DispatchSafety(recs: seq<Record>, idle: QueueName -> int, accepts: TaskId -> bool)
    ensures var s0 := StatusMap(recs);
            var attempts := CycleOf(recs, idle, accepts).attempts;
            && NoDup(attempts)
            && (forall id :: id in attempts ==> id in s0 && Sendable(s0[id]) && !Doomed(s0, GraphOf(recs), id))
            && (forall id, dep :: id in attempts && DependsOn(recs, id, dep) ==>
                  dep in s0 && s0[dep].Success? && dep !in attempts)
  {
    AttemptsReady(recs, idle, accepts);
    ReadyTasksAreSafe(recs, StatusMap(recs), CycleOf(recs, idle, accepts).attempts);
  }

  // ---------- persistence ----------

  /** The database write that a task needs: none, a compare-and-set to WAITING, or
      an unconditional write of a final status. */
  datatype Write = NoWrite | CompareAndSet(expected: Status) | Overwrite(status: Status)

  function WriteFor(original: Option<Status>, now: Status): Write {
    if now.Waiting? && original.Some? && Sendable(original.value) then CompareAndSet(original.value)
    else if original != Some(now) && Final(now) then Overwrite(now)
    else NoWrite
  }

  /** What the write does to a stored status. */
  function Applied(w: Write, stored: Status): Status {
    match w
    case NoWrite => stored
    case CompareAndSet(expected) => if stored == expected then Waiting else stored
    case Overwrite(status) => status
  }

  /** The changes a cycle makes to the status of a task. */
  ghost predicate CycleChange(before: Status, after: Status) {
    || after == before
    || (!Final(before) && Final(after))
    || (Sendable(before) && after.Waiting?)
  }

  lemma ChangesOnly(recs: seq<Record>, idle: QueueName -> int, accepts: TaskId -> bool)
    ensures var s0, final := StatusMap(recs), CycleOf(recs, idle, accepts).final;
            final.Keys == s0.Keys && forall id :: id in s0 ==> CycleChange(s0[id], final[id])
  {
    WholeCycleOutcome(recs, idle, accepts);
  }

  /** Persistence loses nothing: with no other writer in between, every document
      ends with the status the cycle gave its task. */
  lemma PersistenceIsComplete(recs: seq<Record>, idle: QueueName -> int, accepts: TaskId -> bool)
    ensures var s0, final := StatusMap(recs), CycleOf(recs, idle, accepts).final;
            && final.Keys == s0.Keys
            && forall id :: id in s0 ==> Applied(WriteFor(Some(s0[id]), final[id]), s0[id]) == final[id]
  {
    ChangesOnly(recs, idle, accepts);
    ChangesArePersisted(StatusMap(recs), CycleOf(recs, idle, accepts).final);
  }

  /** A task whose status the cycle did not change is not written. A write changes a
      stored status to that of the cycle and, where it says WAITING, only if the stored
      status is still the one that was fetched. */
  lemma WritesOnlyChanges(before: Status, after: Status, stored: Status)
    requires CycleChange(before, after)
    ensures WriteFor(Some(before), after).NoWrite? <==> after == before
    ensures var r := Applied(WriteFor(Some(before), after), stored);
            r == if after == before || (after.Waiting? && stored != before) then stored else after
  {
  }

  lemma ChangesArePersisted(s0: Statuses, final: Statuses)
    requires final.Keys == s0.Keys && forall id :: id in s0 ==> CycleChange(s0[id], final[id])
    ensures forall id :: id in s0 ==> Applied(WriteFor(Some(s0[id]), final[id]), s0[id]) == final[id]
  {
  }

  // ---------- cycles over fetched lists ----------

  predicate Active(s: Status): (r: bool)
    ensures r == !Final(s)
  {
    s.Pending? || s.Running? || s.Retrying? || s.Waiting?
  }

  /** The active documents of the collection, in cursor order. */
  function ActiveOnly(docs: seq<Record>): (r: seq<Record>)
    ensures forall x :: x in r <==> x in docs && Active(x.status)
  {
    if docs == [] then [] else
      var last := docs[|docs| - 1];
      assert forall x :: x in docs <==> x in docs[..|docs| - 1] || x == last;
      ActiveOnly(docs[..|docs| - 1]) + if Active(last.status) then [last] else []
  }

  const FETCH_LIMIT := 1000

  function Fetch(docs: seq<Record>): (r: seq<Record>)
    ensures |r| <= 1000 && forall x :: x in r ==> x in docs && Active(x.status)
    ensures |r| < 1000 ==> forall x :: x in docs && Active(x.status) ==> x in r
  {
    var active := ActiveOnly(docs);
    if |active| <= FETCH_LIMIT then active else active[..FETCH_LIMIT]
  }

  /** The documents before number `i` that are not SUCCESS, FAILED or STOPPED. */
  ghost function ActiveBefore(docs: seq<Record>, i: nat): set<nat>
    requires i <= |docs|
  {
    set k: nat | k < i && !docs[k].status.Success? && !docs[k].status.Failed? && !docs[k].status.Stopped?
  }

  lemma {:induction false} ActiveAt(docs: seq<Record>, i: nat)
    requires i < |docs| && Active(docs[i].status)
    ensures var n := |ActiveBefore(docs, i)|; n < |ActiveOnly(docs)| && ActiveOnly(docs)[n] == docs[i]
  {
    hide ActiveBefore;
    var n := |docs| - 1;
    ActiveBeforePrefix(docs, n, i);
    if i == n {
      ActiveCount(docs[..n]);
    } else {
      ActiveAt(docs[..n], i);
    }
  }

  lemma ActiveBeforePrefix(docs: seq<Record>, n: nat, i: nat)
    requires i <= n <= |docs|
    ensures ActiveBefore(docs[..n], i) == ActiveBefore(docs, i)
  {
  }

  lemma {:induction false} ActiveCount(docs: seq<Record>)
    ensures |ActiveOnly(docs)| == |ActiveBefore(docs, |docs|)|
  {
    if docs != [] {
      ActiveCount(docs[..|docs| - 1]);
      hide ActiveBefore;
      ActiveNext(docs);
    } else {
      assert ActiveBefore(docs, 0) == {};
    }
  }

  lemma ActiveNext(docs: seq<Record>)
    requires docs != []
    ensures var n := |docs| - 1;
            |ActiveBefore(docs, |docs|)| == |ActiveBefore(docs[..n], n)| + if Active(docs[n].status) then 1 else 0
  {
    var n: nat := |docs| - 1;
    var before := ActiveBefore(docs[..n], n);
    assert n !in before;
    if Active(docs[n].status) {
      assert ActiveBefore(docs, |docs|) == before + {n};
    } else {
      assert ActiveBefore(docs, |docs|) == before;
    }
  }

  /** The fetch returns the first 1000 documents of the cursor that are not in a final
      state, in its order, or all of them if there are no more. */
  lemma FetchIsFirstActive(docs: seq<Record>, i: nat)
    requires i < |docs| && !docs[i].status.Success? && !docs[i].status.Failed? && !docs[i].status.Stopped?
    ensures var n, all := |ActiveBefore(docs, i)|, |ActiveBefore(docs, |docs|)|;
            && |Fetch(docs)| == (if all < 1000 then all else 1000)
            && (n < 1000 ==> n < |Fetch(docs)| && Fetch(docs)[n] == docs[i])
  {
    ActiveAt(docs, i);
    ActiveCount(docs);
  }

  /** Nothing is doomed when nothing has failed. */
  lemma NoFailureNoDoom(s: Statuses, g: Graph)
    requires forall id :: id in s ==> !s[id].Failed?
    ensures Propagated(s, g) == s
  {
    forall id | id in s
      ensures !Doomed(s, g, id)
    {
      if Doomed(s, g, id) {
        assert false;
      }
    }
  }

  lemma ReadyWithoutDependencies(recs: seq<Record>, id: TaskId)
    requires forall r :: r in recs ==> Active(r.status)
    requires id in StatusMap(recs)
    ensures Ready(StatusMap(recs), GraphOf(recs), id) <==>
              Sendable(StatusMap(recs)[id]) && !exists dep :: DependsOn(recs, id, dep)
  {
    var s, g := StatusMap(recs), GraphOf(recs);
    forall dep
      ensures dep in Prereqs(g, id) <==> DependsOn(recs, id, dep)
    {
      GraphRecordsDependencies(recs, id, dep);
    }
    forall d | d in s
      ensures Active(s[d])
    {
      MappedRecord(recs, d);
    }
  }

  /** Over a fetched list, which has no task in a final state, a cycle does nothing
      but dispatch: no failure is propagated and no parent completed, and a task is
      ready exactly when it is PENDING or RETRYING and records no dependency. */
  lemma FetchedCycleOnlyDispatches(recs: seq<Record>, idle: QueueName -> int, accepts: TaskId -> bool)
    requires forall r :: r in recs ==> Active(r.status)
    ensures var s0, g := StatusMap(recs), GraphOf(recs);
            var out := CycleOf(recs, idle, accepts);
            && Propagated(s0, g) == s0
            && out.final == Sent(s0, out.attempts, accepts)
            && forall id :: id in s0 ==>
                 (Ready(s0, g, id) <==> Sendable(s0[id]) && !exists dep :: DependsOn(recs, id, dep))
  {
    var s0, g := StatusMap(recs), GraphOf(recs);
    forall id | id in s0
      ensures !Final(s0[id])
      ensures Ready(s0, g, id) <==> Sendable(s0[id]) && !exists dep :: DependsOn(recs, id, dep)
    {
      MappedRecord(recs, id);
      ReadyWithoutDependencies(recs, id);
    }
    NoFailureNoDoom(s0, g);
    var s2 := Sent(s0, CycleOf(recs, idle, accepts).attempts, accepts);
    NothingToRollUp(s2, g, g.parents);
  }

  lemma {:induction false} NothingToRollUp(s: Statuses, g: Graph, parents: seq<TaskId>)
    requires forall id :: id in s ==> !Final(s[id])
    ensures RollUp(s, g, parents) == s
  {
    if parents != [] {
      NothingToRollUp(s, g, parents[..|parents| - 1]);
    }
  }

  /** A fetched task is sent to a queue with a slot for every fetched task if and
      only if it may be sent and records no dependency, whatever has become of the
      tasks it depends on. */
  lemma FetchedTaskIsSentIff(docs: seq<Record>, idle: QueueName -> int, accepts: TaskId -> bool, id: TaskId)
    requires id in StatusMap(Fetch(docs))
    requires idle(InfoMap(Fetch(docs))[id].queue) >= |Fetch(docs)|
    ensures var recs := Fetch(docs);
            id in CycleOf(recs, idle, accepts).attempts <==>
              Sendable(StatusMap(recs)[id]) && !exists dep :: DependsOn(recs, id, dep)
  {
    var recs := Fetch(docs);
    var s0, g, info := StatusMap(recs), GraphOf(recs), InfoMap(recs);
    FetchedCycleOnlyDispatches(recs, idle, accepts);
    OrderListsMap(recs);
    var run := Runnable(OrderOf(recs), s0, g);
    var prio, q := UrgentSet(s0, g), info[id].queue;
    AttemptsAreGranted(run, info, prio, idle);
    RankedIsRanking(run, info, prio, q);
    var r := Ranked(run, info, prio, q);
    OrderShorter(recs);
    DistinctWithin(r, OrderOf(recs));
    assert idle(q) >= |r|;
    assert Granted(run, info, prio, q, idle(q)) == if idle(q) <= 0 then [] else r;
    assert id in run ==> id in r && |r| > 0;
  }

  lemma {:induction false} OrderShorter(recs: seq<Record>)
    ensures |OrderOf(recs)| <= |recs|
  {
    if recs != [] {
      OrderShorter(recs[..|recs| - 1]);
    }
  }

  lemma DistinctWithin(a: seq<TaskId>, b: seq<TaskId>)
    requires NoDup(a) && NoDup(b) && forall id :: id in a ==> id in b
    ensures |a| <= |b|
  {
    var sa, sb := set id | id in a, set id | id in b;
    Cardinality(a);
    Cardinality(b);
    SubsetSize(sa, sb);
  }

  lemma SubsetSize(a: set<TaskId>, b: set<TaskId>)
    requires a <= b
    ensures |a| <= |b|
  {
    assert b == a + (b - a);
  }

  /** A task with a dependency outside the list is not sent. */
  lemma UnlistedDependencyBlocks(recs: seq<Record>, idle: QueueName -> int, accepts: TaskId -> bool,
                                 id: TaskId, dep: TaskId)
    requires DependsOn(recs, id, dep) && dep !in StatusMap(recs)
    ensures id !in CycleOf(recs, idle, accepts).attempts
  {
    DispatchSafety(recs, idle, accepts);
  }

  lemma OnlyActiveFetched(dep: Record, task: Record)
    requires !Active(dep.status) && Active(task.status)
    ensures Fetch([dep, task]) == [task]
  {
    var docs := [dep, task];
    assert docs[..1] == [dep] && docs[..1][..0] == [];
    assert ActiveOnly([]) == [] && ActiveOnly([dep]) == [];
    assert ActiveOnly(docs) == [task];
  }

  lemma AloneInList(task: Record, dep: TaskId)
    requires dep != task.id && dep != "" && dep in task.dependsOn
    ensures DependsOn([task], task.id, dep) && dep !in StatusMap([task])
  {
    var recs := [task];
    assert recs[0].id == task.id && dep in recs[0].dependsOn;
    MappedRecord(recs, dep);
  }

  /** A dependency that has reached a final state does not release its dependent: in a
      collection of the two, the dependent is not sent. */
  lemma FinalDependencyBlocks(dep: Record, task: Record, idle: QueueName -> int, accepts: TaskId -> bool)
    requires Final(dep.status) && Active(task.status)
    requires dep.id != task.id && dep.id != "" && dep.id in task.dependsOn
    ensures task.id !in CycleOf(Fetch([dep, task]), idle, accepts).attempts
  {
    assert !Active(dep.status);
    hide *;
    OnlyActiveFetched(dep, task);
    AloneInList(task, dep.id);
    UnlistedDependencyBlocks([task], idle, accepts, task.id, dep.id);
  }

  /** The documented promise that a task runs once its dependencies are satisfied
      fails: here the only dependency has succeeded, and the task is not sent. */
  lemma FinishedDependencyDoesNotRelease(idle: QueueName -> int, accepts: TaskId -> bool)
    ensures var dep := Record("a", "q", 1, "", [], Success);
            var task := Record("b", "q", 1, "", ["a"], Pending);
            "b" !in CycleOf(Fetch([dep, task]), idle, accepts).attempts
  {
    hide CycleOf, Fetch;
    var dep := Record("a", "q", 1, "", [], Success);
    var task := Record("b", "q", 1, "", ["a"], Pending);
    assert dep.id in task.dependsOn;
    FinalDependencyBlocks(dep, task, idle, accepts);
  }
}

/** The scheduler itself: the steps of `execute` on mutable tasks, the message
    broker and the task collection, each proved against the functions of the
    modules it imports. */
module TaskScheduling {
  import opened Collections
  import opened TaskModel
  import opened FailurePropagation
  import opened Dispatch
  import opened Cycle

  datatype Message = Message(queue: QueueName, id: TaskId)

  /** Where a cycle runs into an exception it does not catch: in the fetch, in the
      lookup of idle slots numbered `at`, or in the write for the task numbered `at`. */
  datatype Fault = NoFault | FetchFails | LookupFails(at: nat) | WriteFails(at: nat)

  /** RabbitMQ as the scheduler meets it: `accepts` tells which sends go through,
      `idle` how many worker slots each queue has. */
  class Broker {
    const accepts: TaskId -> bool
    const idle: QueueName -> int
    var attempts: seq<Message>

    constructor (accepts: TaskId -> bool, idle: QueueName -> int)
      ensures this.accepts == accepts && this.idle == idle && attempts == []
    {
      this.accepts, this.idle, attempts := accepts, idle, [];
    }

    method SendMessage(queue: QueueName, id: TaskId) returns (ok: bool)
      modifies this`attempts
      ensures attempts == old(attempts) + [Message(queue, id)]
      ensures ok == accepts(id)
    {
      attempts := attempts + [Message(queue, id)];
      ok := accepts(id);
    }
  }

  /** The collection with the first document of task `id` that passes `w` updated. */
  function Update(docs: seq<Record>, id: TaskId, w: Write): (r: seq<Record>)
    ensures |r| == |docs|
  {
    if docs == [] then []
    else if docs[0].id == id && (w.CompareAndSet? ==> docs[0].status == w.expected) then
      [docs[0].(status := Applied(w, docs[0].status))] + docs[1..]
    else [docs[0]] + Update(docs[1..], id, w)
  }

  /** The task collection, in the order of the fetch cursor. */
  class TaskStore {
    var docs: seq<Record>

    constructor (docs: seq<Record>)
      ensures this.docs == docs
    {
      this.docs := docs;
    }

    method FindOneAndUpdate(id: TaskId, w: Write)
      modifies this
      ensures docs == Update(old(docs), id, w)
    {
      docs := Update(docs, id, w);
    }
  }

  // ---------- the graph ----------

  /** Adding one value to the set a defaultdict holds under `k`. */
  function AddTo(m: map<TaskId, set<TaskId>>, k: TaskId, v: TaskId): map<TaskId, set<TaskId>> {
    m[k := (if k in m then m[k] else {}) + {v}]
  }

  ghost predicate Has(m: map<TaskId, set<TaskId>>, k: TaskId, v: TaskId) {
    k in m && v in m[k]
  }

  /** A dependency recorded by `recs`, or one of `more` recorded for task `id`. */
  ghost predicate Recorded(recs: seq<Record>, id: TaskId, more: seq<TaskId>, t: TaskId, d: TaskId) {
    DependsOn(recs, t, d) || (t == id && d in more && d != "")
  }

  /** The edge maps built so far: `recs` read, and `more` of task `id`. */
  ghost predicate EdgesOf(ins: map<TaskId, set<TaskId>>, outs: map<TaskId, set<TaskId>>,
                          recs: seq<Record>, id: TaskId, more: seq<TaskId>) {
    && (forall k :: k in ins ==> ins[k] != {})
    && (forall k :: k in outs ==> outs[k] != {})
    && (forall t, d :: Recorded(recs, id, more, t, d) <==> Has(ins, t, d))
    && (forall t, d :: Recorded(recs, id, more, t, d) <==> Has(outs, d, t))
  }

  lemma EdgesStep(ins: map<TaskId, set<TaskId>>, outs: map<TaskId, set<TaskId>>,
                  recs: seq<Record>, id: TaskId, more: seq<TaskId>, dep: TaskId)
    requires EdgesOf(ins, outs, recs, id, more)
    ensures dep == "" ==> EdgesOf(ins, outs, recs, id, more + [dep])
    ensures dep != "" ==> EdgesOf(AddTo(ins, id, dep), AddTo(outs, dep, id), recs, id, more + [dep])
  {
    forall t, d
      ensures Recorded(recs, id, more + [dep], t, d) <==>
                Recorded(recs, id, more, t, d) || (t == id && d == dep && dep != "")
    {
    }
  }

  lemma EdgesDone(ins: map<TaskId, set<TaskId>>, outs: map<TaskId, set<TaskId>>, recs: seq<Record>, r: Record)
    requires EdgesOf(ins, outs, recs, r.id, r.dependsOn)
    ensures EdgesOf(ins, outs, recs + [r], "", [])
  {
    forall t, d
      ensures Recorded(recs + [r], "", [], t, d) <==> Recorded(recs, r.id, r.dependsOn, t, d)
    {
      var all := recs + [r];
      if DependsOn(recs, t, d) {
        var i :| 0 <= i < |recs| && recs[i].id == t && d in recs[i].dependsOn;
        assert all[i] == recs[i];
      } else if t == r.id && d in r.dependsOn && d != "" {
        assert all[|recs|] == r;
      }
    }
  }

  lemma NextTask(ins: map<TaskId, set<TaskId>>, outs: map<TaskId, set<TaskId>>, recs: seq<Record>, id: TaskId)
    requires EdgesOf(ins, outs, recs, "", [])
    ensures EdgesOf(ins, outs, recs, id, [])
  {
    forall t, d
      ensures Recorded(recs, id, [], t, d) <==> Recorded(recs, "", [], t, d)
    {
    }
  }

  lemma EdgesAreGraph(ins: map<TaskId, set<TaskId>>, outs: map<TaskId, set<TaskId>>, recs: seq<Record>)
    requires EdgesOf(ins, outs, recs, "", [])
    ensures ins == GraphOf(recs).ins && outs == GraphOf(recs).outs
  {
    var g := GraphOf(recs);
    forall t, d
      ensures Has(ins, t, d) <==> Has(g.ins, t, d)
      ensures Has(outs, d, t) <==> Has(g.outs, d, t)
    {
      assert Recorded(recs, "", [], t, d) <==> DependsOn(recs, t, d);
      GraphRecordsDependencies(recs, t, d);
    }
    forall d | d in g.outs
      ensures g.outs[d] != {}
    {
      var i :| 0 <= i < |recs| && d in recs[i].dependsOn && d != "";
      assert recs[i].id in DependentSet(recs, d);
    }
    SameMultimap(ins, g.ins);
    SameMultimap(outs, g.outs);
  }

  lemma SameMultimap(a: map<TaskId, set<TaskId>>, b: map<TaskId, set<TaskId>>)
    requires forall k :: k in a ==> a[k] != {}
    requires forall k :: k in b ==> b[k] != {}
    requires forall k, v :: Has(a, k, v) <==> Has(b, k, v)
    ensures a == b
  {
    forall k
      ensures k in a <==> k in b
      ensures k in a && k in b ==> a[k] == b[k]
    {
      assert forall v :: Has(a, k, v) <==> Has(b, k, v);
      if k in a && k in b {
        assert forall v :: (v in a[k] <==> Has(a, k, v)) && (v in b[k] <==> Has(b, k, v));
      }
      if k in a {
        var v :| v in a[k];
        assert Has(a, k, v);
      }
      if k in b {
        var v :| v in b[k];
        assert Has(b, k, v);
      }
    }
  }

  /** Enters the dependencies of one task into both edge maps. */
  method RecordDependencies(ins0: map<TaskId, set<TaskId>>, outs0: map<TaskId, set<TaskId>>,
                            ghost recs: seq<Record>, r: Record)
    returns (ins: map<TaskId, set<TaskId>>, outs: map<TaskId, set<TaskId>>)
    requires EdgesOf(ins0, outs0, recs, "", [])
    ensures EdgesOf(ins, outs, recs + [r], "", [])
  {
    ins, outs := ins0, outs0;
    NextTask(ins, outs, recs, r.id);
    for j := 0 to |r.dependsOn|
      invariant EdgesOf(ins, outs, recs, r.id, r.dependsOn[..j])
    {
      var dep := r.dependsOn[j];
      SnocPrefix(r.dependsOn, j);
      EdgesStep(ins, outs, recs, r.id, r.dependsOn[..j], dep);
      if dep != "" {
        ins := AddTo(ins, r.id, dep);
        outs := AddTo(outs, dep, r.id);
      }
    }
    assert r.dependsOn[..|r.dependsOn|] == r.dependsOn;
    EdgesDone(ins, outs, recs, r);
  }

  /** The children recorded so far. */
  ghost predicate ChildrenOf(parents: seq<TaskId>, children: map<TaskId, seq<TaskId>>, recs: seq<Record>) {
    && parents == ParentsOf(recs)
    && (forall p :: p in children <==> p in parents)
    && (forall p :: p in children ==> children[p] == ChildIds(recs, p))
  }

  method RecordParent(parents0: seq<TaskId>, children0: map<TaskId, seq<TaskId>>, ghost recs: seq<Record>, r: Record)
    returns (parents: seq<TaskId>, children: map<TaskId, seq<TaskId>>)
    requires ChildrenOf(parents0, children0, recs)
    ensures ChildrenOf(parents, children, recs + [r])
  {
    parents, children := parents0, children0;
    assert (recs + [r])[..|recs|] == recs;
    assert forall p :: ChildIds(recs + [r], p) == ChildIds(recs, p) + if r.sourceId == p then [r.id] else [];
    if r.sourceId != "" {
      ChildrenOfUnnamed(recs, r.sourceId);
      if r.sourceId !in children {
        parents := parents + [r.sourceId];
      }
      children := children[r.sourceId :=
        (if r.sourceId in children then children[r.sourceId] else []) + [r.id]];
    }
  }

  lemma {:induction false} ChildrenOfUnnamed(recs: seq<Record>, p: TaskId)
    requires p != ""
    ensures p !in ParentsOf(recs) ==> ChildIds(recs, p) == []
  {
    if recs != [] {
      ChildrenOfUnnamed(recs[..|recs| - 1], p);
    }
  }

  /** The dict `at` holds a task of `tasks` for every document of `m`. */
  ghost predicate EnteredTasks(at: map<TaskId, Task>, m: map<TaskId, Record>, tasks: seq<Task>)
    reads tasks
  {
    && (forall id :: id in at <==> id in m)
    && (forall id :: id in at ==> at[id] in tasks && at[id].id == id && at[id].Doc() == m[id])
    && (forall id :: id in at ==> at[id].originalStatus == Some(at[id].status))
  }

  lemma {:induction false} EnterTask(recs: seq<Record>, r: Record)
    ensures var order := OrderOf(recs);
            OrderOf(recs + [r]) == if r.id in RecordMap(recs) then order else order + [r.id]
    ensures RecordMap(recs + [r]) == RecordMap(recs)[r.id := r]
  {
    assert (recs + [r])[..|recs|] == recs;
    MappedRecord(recs, r.id);
  }

  /** Snapshots the status of a task and enters the task into the dict. */
  method Enter(at0: map<TaskId, Task>, ghost m: map<TaskId, Record>, tasks: seq<Task>, task: Task)
    returns (at: map<TaskId, Task>)
    requires task in tasks && EnteredTasks(at0, m, tasks)
    modifies task`originalStatus
    ensures EnteredTasks(at, m[task.id := task.Doc()], tasks)
  {
    task.originalStatus := Some(task.status);
    at := at0[task.id := task];
  }

  /** The original statuses recorded for tasks of statuses `s`. */
  ghost function SnapshotOf(s: Statuses): map<TaskId, Option<Status>> {
    map id | id in s :: Some(s[id])
  }

  /** The map and the graph of the documents read so far. */
  ghost predicate ReadSoFar(tm: TaskMap, g: Graph, recs: seq<Record>, tasks: seq<Task>)
    reads tasks
  {
    && tm.order == OrderOf(recs) && EnteredTasks(tm.at, RecordMap(recs), tasks)
    && EdgesOf(g.ins, g.outs, recs, "", []) && ChildrenOf(g.parents, g.children, recs)
  }

  /** One iteration over the task list. */
  method ReadTask(tm0: TaskMap, g0: Graph, ghost recs: seq<Record>, tasks: seq<Task>, task: Task)
    returns (tm: TaskMap, g: Graph)
    requires task in tasks && ReadSoFar(tm0, g0, recs, tasks)
    modifies task`originalStatus
    ensures ReadSoFar(tm, g, recs + [task.Doc()], tasks)
  {
    EnterTask(recs, task.Doc());
    var order := if task.id in tm0.at then tm0.order else tm0.order + [task.id];
    var at := Enter(tm0.at, RecordMap(recs), tasks, task);
    var parents, children := RecordParent(g0.parents, g0.children, recs, task.Doc());
    var ins, outs := RecordDependencies(g0.ins, g0.outs, recs, task.Doc());
    tm, g := TaskMap(order, at), Graph(ins, outs, parents, children);
  }

  lemma NothingRead(tasks: seq<Task>)
    ensures ReadSoFar(TaskMap([], map[]), Graph(map[], map[], [], map[]), [], tasks)
  {
  }

  method BuildDependencyGraph(tasks: seq<Task>) returns (tm: TaskMap, g: Graph)
    modifies tasks`originalStatus
    ensures Keyed(tm) && tm.at.Values <= set t | t in tasks
    ensures tm.order == OrderOf(old(Docs(tasks)))
    ensures StatusesOf(tm) == StatusMap(old(Docs(tasks))) && InfosOf(tm) == InfoMap(old(Docs(tasks)))
    ensures OriginalsOf(tm) == SnapshotOf(StatusMap(old(Docs(tasks))))
    ensures g == GraphOf(old(Docs(tasks)))
  {
    ghost var recs := Docs(tasks);
    tm, g := TaskMap([], map[]), Graph(map[], map[], [], map[]);
    NothingRead(tasks);
    for i := 0 to |tasks|
      invariant forall k :: 0 <= k < |tasks| ==> tasks[k].Doc() == recs[k]
      invariant ReadSoFar(tm, g, recs[..i], tasks)
    {
      SnocPrefix(recs, i);
      tm, g := ReadTask(tm, g, recs[..i], tasks, tasks[i]);
    }
    assert recs[..|tasks|] == recs;
    ReadingDone(tm, g, recs, tasks);
  }

  lemma ReadingDone(tm: TaskMap, g: Graph, recs: seq<Record>, tasks: seq<Task>)
    requires ReadSoFar(tm, g, recs, tasks)
    ensures Keyed(tm) && tm.at.Values <= set t | t in tasks
    ensures StatusesOf(tm) == StatusMap(recs) && InfosOf(tm) == InfoMap(recs)
    ensures OriginalsOf(tm) == SnapshotOf(StatusMap(recs))
    ensures g == GraphOf(recs)
  {
    hide GraphOf, OrderOf, EdgesOf, ChildrenOf;
    OrderListsMap(recs);
    EntriesAreMap(tm, RecordMap(recs), tasks);
    EdgesMakeGraph(g, recs);
  }

  lemma {:induction false} EdgesMakeGraph(g: Graph, recs: seq<Record>)
    requires EdgesOf(g.ins, g.outs, recs, "", []) && ChildrenOf(g.parents, g.children, recs)
    ensures g == GraphOf(recs)
  {
    hide EdgesOf;
    EdgesAreGraph(g.ins, g.outs, recs);
    assert g.children == GraphOf(recs).children;
  }

  lemma EntriesAreMap(tm: TaskMap, m: map<TaskId, Record>, tasks: seq<Task>)
    requires EnteredTasks(tm.at, m, tasks)
    ensures tm.at.Values <= set t | t in tasks
    ensures StatusesOf(tm) == map id | id in m :: m[id].status
    ensures InfosOf(tm) == map id | id in m :: Info(m[id].queue, m[id].weight)
    ensures OriginalsOf(tm) == map id | id in tm.at :: Some(tm.at[id].status)
  {
    forall t | t in tm.at.Values
      ensures t in tasks
    {
      var id :| id in tm.at && tm.at[id] == t;
    }
    forall id | id in tm.at
      ensures tm.at[id].status == m[id].status && tm.at[id].queue == m[id].queue && tm.at[id].weight == m[id].weight
    {
      assert tm.at[id].Doc() == m[id];
    }
  }

  // ---------- failure propagation ----------

  /** The search while task `a` is passing its failure on: `before` are the
      statuses and `rest` the queue from before its first visit. */
  ghost predicate Visiting(s0: Statuses, s: Statuses, g: Graph, queue: seq<TaskId>, enqueued: seq<TaskId>,
                           a: TaskId, before: Statuses, rest: seq<TaskId>) {
    && Searching(s0, s, g, queue, enqueued) && Drained(s, g, queue, {a})
    && a in s && s[a].Failed?
    && (Open(s) < Open(before) || (Open(s) == Open(before) && queue == rest))
  }

  ghost predicate FinalKept(s: Statuses, s': Statuses) {
    s'.Keys == s.Keys && forall id :: id in s && Final(s[id]) ==> s'[id] == s[id]
  }

  lemma VisitStep(s0: Statuses, s: Statuses, g: Graph, queue: seq<TaskId>, enqueued: seq<TaskId>,
                  a: TaskId, before: Statuses, rest: seq<TaskId>, b: TaskId)
    requires Visiting(s0, s, g, queue, enqueued, a, before, rest)
    requires FailureEdge(g, a, b) && b in s && !Final(s[b])
    ensures Visiting(s0, s[b := Failed], g, queue + [b], enqueued + [b], a, before, rest)
    ensures FinalKept(s, s[b := Failed])
  {
    SearchStep(s0, s, g, queue, enqueued, a, b, {a});
  }

  /** Fails task `b`, to which a failure edge leads from `a`, if it is an open task
      of the map. */
  method FailIfOpen(tm: TaskMap, ghost g: Graph, queue0: seq<TaskId>, ghost enqueued0: seq<TaskId>, ghost s0: Statuses,
                    ghost a: TaskId, ghost before: Statuses, ghost rest: seq<TaskId>, b: TaskId)
    returns (queue: seq<TaskId>, ghost enqueued: seq<TaskId>)
    requires Keyed(tm) && FailureEdge(g, a, b)
    requires Visiting(s0, StatusesOf(tm), g, queue0, enqueued0, a, before, rest)
    modifies tm.at.Values`status
    ensures Visiting(s0, StatusesOf(tm), g, queue, enqueued, a, before, rest)
    ensures FinalKept(old(StatusesOf(tm)), StatusesOf(tm))
    ensures b in tm.at ==> Final(StatusesOf(tm)[b])
  {
    queue, enqueued := queue0, enqueued0;
    if b in tm.at && !Final(tm.at[b].status) {
      VisitStep(s0, StatusesOf(tm), g, queue, enqueued, a, before, rest, b);
      SetStatus(tm, b, Failed);
      queue, enqueued := queue + [b], enqueued + [b];
    }
  }

  /** Every task that failure edges lead to from `a` has been visited. */
  lemma VisitsDone(s0: Statuses, s: Statuses, g: Graph, queue: seq<TaskId>, enqueued: seq<TaskId>,
                   a: TaskId, before: Statuses, rest: seq<TaskId>)
    requires ParentsListed(g) && Visiting(s0, s, g, queue, enqueued, a, before, rest)
    requires forall b :: b in Dependents(g, a) && b in s ==> Final(s[b])
    requires forall k :: 0 <= k < |g.parents| && a in Children(g, g.parents[k]) && g.parents[k] in s ==>
               Final(s[g.parents[k]])
    ensures Drained(s, g, queue, {})
  {
    forall b | b in s && FailureEdge(g, a, b)
      ensures Final(s[b])
    {
      if a in Children(g, b) {
        var k :| 0 <= k < |g.parents| && g.parents[k] == b;
      }
    }
  }

  /** Passes the failure of `a` on to its dependents, visited in any order. */
  method FailDependents(tm: TaskMap, g: Graph, queue0: seq<TaskId>, ghost enqueued0: seq<TaskId>, ghost s0: Statuses,
                        a: TaskId, ghost before: Statuses, ghost rest: seq<TaskId>)
    returns (queue: seq<TaskId>, ghost enqueued: seq<TaskId>)
    requires Keyed(tm) && Visiting(s0, StatusesOf(tm), g, queue0, enqueued0, a, before, rest)
    modifies tm.at.Values`status
    ensures Visiting(s0, StatusesOf(tm), g, queue, enqueued, a, before, rest)
    ensures forall b :: b in Dependents(g, a) && b in tm.at ==> Final(StatusesOf(tm)[b])
  {
    hide Visiting;
    queue, enqueued := queue0, enqueued0;
    var dependents := Dependents(g, a);
    while dependents != {}
      invariant Visiting(s0, StatusesOf(tm), g, queue, enqueued, a, before, rest)
      invariant dependents <= Dependents(g, a)
      invariant forall b :: b in Dependents(g, a) - dependents && b in tm.at ==> Final(StatusesOf(tm)[b])
    {
      var b :| b in dependents;
      dependents := dependents - {b};
      queue, enqueued := FailIfOpen(tm, g, queue, enqueued, s0, a, before, rest, b);
    }
  }

  /** Passes the failure of `a` on to the tasks it is a child of. */
  method FailParents(tm: TaskMap, g: Graph, queue0: seq<TaskId>, ghost enqueued0: seq<TaskId>, ghost s0: Statuses,
                     a: TaskId, ghost before: Statuses, ghost rest: seq<TaskId>)
    returns (queue: seq<TaskId>, ghost enqueued: seq<TaskId>)
    requires Keyed(tm) && ParentsListed(g) && Visiting(s0, StatusesOf(tm), g, queue0, enqueued0, a, before, rest)
    modifies tm.at.Values`status
    ensures Visiting(s0, StatusesOf(tm), g, queue, enqueued, a, before, rest)
    ensures FinalKept(old(StatusesOf(tm)), StatusesOf(tm))
    ensures forall k :: 0 <= k < |g.parents| && a in Children(g, g.parents[k]) && g.parents[k] in tm.at ==>
              Final(StatusesOf(tm)[g.parents[k]])
  {
    hide Visiting;
    queue, enqueued := queue0, enqueued0;
    for i := 0 to |g.parents|
      invariant Visiting(s0, StatusesOf(tm), g, queue, enqueued, a, before, rest)
      invariant FinalKept(old(StatusesOf(tm)), StatusesOf(tm))
      invariant forall k :: 0 <= k < i && a in Children(g, g.parents[k]) && g.parents[k] in tm.at ==>
                  Final(StatusesOf(tm)[g.parents[k]])
    {
      var p := g.parents[i];
      if a in g.children[p] {
        queue, enqueued := FailIfOpen(tm, g, queue, enqueued, s0, a, before, rest, p);
      }
    }
  }

  /** The ids of the failed tasks, in map order. */
  method FailedTasks(tm: TaskMap, ghost g: Graph) returns (queue: seq<TaskId>)
    requires Keyed(tm)
    ensures Searching(StatusesOf(tm), StatusesOf(tm), g, queue, queue)
  {
    ghost var s := StatusesOf(tm);
    queue := [];
    for i := 0 to |tm.order|
      invariant NoDup(queue)
      invariant forall id :: id in queue <==> id in tm.order[..i] && s[id].Failed?
    {
      SnocPrefix(tm.order, i);
      assert tm.order[i] !in tm.order[..i];
      if tm.at[tm.order[i]].status.Failed? {
        queue := queue + [tm.order[i]];
      }
    }
    forall id | id in s && s[id].Failed?
      ensures Doomed(s, g, id)
    {
      FailedIsDoomed(s, g, id);
    }
    assert tm.order[..|tm.order|] == tm.order;
  }

  /** The breadth-first search: whatever the order in which dependents are visited,
      the statuses become the propagation of those it starts from, and no task
      enters the queue twice. */
  method PropagateFailures(tm: TaskMap, g: Graph) returns (ghost enqueued: seq<TaskId>)
    requires Keyed(tm) && ParentsListed(g)
    modifies tm.at.Values`status
    ensures StatusesOf(tm) == Propagated(old(StatusesOf(tm)), g)
    ensures NoDup(enqueued) && forall id :: id in enqueued <==> id in tm.at && tm.at[id].status.Failed?
  {
    ghost var s0 := StatusesOf(tm);
    var queue := FailedTasks(tm, g);
    enqueued := queue;
    while queue != []
      invariant Searching(s0, StatusesOf(tm), g, queue, enqueued)
      invariant Drained(StatusesOf(tm), g, queue, {})
      decreases Open(StatusesOf(tm)), |queue|
    {
      ghost var before, was := StatusesOf(tm), queue;
      var a := queue[0];
      queue := queue[1..];
      StartVisits(s0, before, g, was, enqueued);
      ghost var rest := queue;
      queue, enqueued := FailDependents(tm, g, queue, enqueued, s0, a, before, rest);
      queue, enqueued := FailParents(tm, g, queue, enqueued, s0, a, before, rest);
      VisitsDone(s0, StatusesOf(tm), g, queue, enqueued, a, before, rest);
    }
    SearchDone(s0, StatusesOf(tm), g, enqueued);
  }

  lemma StartVisits(s0: Statuses, s: Statuses, g: Graph, queue: seq<TaskId>, enqueued: seq<TaskId>)
    requires queue != [] && Searching(s0, s, g, queue, enqueued) && Drained(s, g, queue, {})
    ensures Visiting(s0, s, g, queue[1..], enqueued, queue[0], s, queue[1..])
  {
    var k := |enqueued| - |queue|;
    assert queue[0] == enqueued[k] && queue[0] in enqueued;
    assert enqueued[k + 1..] == queue[1..];
    forall id | id in s && s[id].Failed? && id !in queue[1..] && id !in {queue[0]}
      ensures Settled(s, g, id)
    {
      assert id !in queue;
    }
  }

  // ---------- selection ----------

  lemma {:induction false} RunnableStep(order: seq<TaskId>, i: nat, s: Statuses, g: Graph)
    requires i < |order| && forall id :: id in order ==> id in s
    ensures (forall id :: id in order[..i] ==> id in s) && (forall id :: id in order[..i + 1] ==> id in s)
    ensures Runnable(order[..i + 1], s, g) ==
              Runnable(order[..i], s, g) + if Ready(s, g, order[i]) then [order[i]] else []
  {
    SnocPrefix(order, i);
  }

  method FindRunnableTasks(tm: TaskMap, g: Graph) returns (runnable: seq<TaskId>)
    requires Keyed(tm)
    ensures runnable == Runnable(tm.order, StatusesOf(tm), g)
  {
    hide Ready, NoDup;
    runnable := [];
    assert tm.order[..0] == [] && tm.order[..|tm.order|] == tm.order;
    for i := 0 to |tm.order|
      invariant forall id :: id in tm.order[..i] ==> id in tm.at
      invariant runnable == Runnable(tm.order[..i], StatusesOf(tm), g)
    {
      RunnableStep(tm.order, i, StatusesOf(tm), g);
      var id := tm.order[i];
      var ready := IsReady(tm, g, id);
      if ready {
        runnable := runnable + [id];
      }
    }
  }

  method IsReady(tm: TaskMap, g: Graph, id: TaskId) returns (ready: bool)
    requires Keyed(tm) && id in tm.at
    ensures ready <==> Ready(StatusesOf(tm), g, id)
  {
    ready := Sendable(tm.at[id].status);
    if ready {
      ready := DependenciesSatisfied(tm, Prereqs(g, id));
    }
  }

  /** The scan of a task's prerequisites, in any order, that stops at the first one
      not fulfilled. */
  method DependenciesSatisfied(tm: TaskMap, deps: set<TaskId>) returns (satisfied: bool)
    requires Keyed(tm)
    ensures satisfied <==> forall d :: d in deps ==> d in tm.at && tm.at[d].status.Success?
  {
    var rest := deps;
    satisfied := true;
    while rest != {} && satisfied
      invariant rest <= deps
      invariant satisfied ==> forall d :: d in deps - rest ==> d in tm.at && tm.at[d].status.Success?
      invariant !satisfied ==> exists d :: d in deps && !(d in tm.at && tm.at[d].status.Success?)
    {
      var d :| d in rest;
      rest := rest - {d};
      if !(d in tm.at && tm.at[d].status.Success?) {
        satisfied := false;
      }
    }
  }

  method GetPrioritySubtasks(tm: TaskMap, g: Graph) returns (priority: seq<TaskId>)
    requires Keyed(tm) && ParentsListed(g)
    ensures forall id :: id in priority <==> id in UrgentSet(StatusesOf(tm), g)
  {
    priority := [];
    for i := 0 to |g.parents|
      invariant forall id :: id in priority <==>
                  exists k :: 0 <= k < i && g.parents[k] in tm.at && tm.at[g.parents[k]].status.Running?
                              && id in g.children[g.parents[k]]
    {
      var p := g.parents[i];
      if p in tm.at && tm.at[p].status.Running? {
        priority := priority + g.children[p];
      }
    }
    forall id
      ensures id in priority <==> id in UrgentSet(StatusesOf(tm), g)
    {
      if id in UrgentSet(StatusesOf(tm), g) {
        var p :| p in g.children && p in tm.at && tm.at[p].status.Running? && id in g.children[p];
        var k :| 0 <= k < |g.parents| && g.parents[k] == p;
      }
    }
  }

  // ---------- dispatch ----------

  function Elements(ids: seq<TaskId>): set<TaskId> {
    set id | id in ids
  }

  /** What one queue is to be sent. */
  datatype Lanes = Lanes(priority: seq<TaskId>, normal: seq<TaskId>)

  /** The messages of the send attempts `ids`. */
  function MessagesOf(ids: seq<TaskId>, info: Infos): (r: seq<Message>)
    requires forall id :: id in ids ==> id in info
    ensures |r| == |ids| && forall i :: 0 <= i < |r| ==> r[i].id == ids[i]
  {
    seq(|ids|, i requires 0 <= i < |ids| => Message(info[ids[i]].queue, ids[i]))
  }

  /** From statuses `s0` and message log `log0`, sends of `ids` lead to `s` and `log`. */
  ghost predicate Dispatched(s0: Statuses, log0: seq<Message>, s: Statuses, log: seq<Message>,
                             ids: seq<TaskId>, info: Infos, accepts: TaskId -> bool) {
    && (forall id :: id in ids ==> id in info)
    && log == log0 + MessagesOf(ids, info)
    && s == Sent(s0, ids, accepts)
  }

  lemma DispatchedNone(s: Statuses, log: seq<Message>, info: Infos, accepts: TaskId -> bool)
    ensures Dispatched(s, log, s, log, [], info, accepts)
  {
  }

  lemma DispatchedBoth(s0: Statuses, log0: seq<Message>, s1: Statuses, log1: seq<Message>,
                       s2: Statuses, log2: seq<Message>, a: seq<TaskId>, b: seq<TaskId>,
                       info: Infos, accepts: TaskId -> bool)
    requires Dispatched(s0, log0, s1, log1, a, info, accepts)
    requires Dispatched(s1, log1, s2, log2, b, info, accepts)
    ensures Dispatched(s0, log0, s2, log2, a + b, info, accepts)
  {
    hide MessagesOf, Sent;
    MessagesConcat(a, b, info);
    SentInTurn(s0, a, b, accepts);
  }

  lemma SentInTurn(s: Statuses, a: seq<TaskId>, b: seq<TaskId>, accepts: TaskId -> bool)
    ensures Sent(Sent(s, a, accepts), b, accepts) == Sent(s, a + b, accepts)
  {
  }

  lemma MessagesConcat(a: seq<TaskId>, b: seq<TaskId>, info: Infos)
    requires forall id :: id in a || id in b ==> id in info
    ensures MessagesOf(a + b, info) == MessagesOf(a, info) + MessagesOf(b, info)
  {
  }

  method SendTask(tm: TaskMap, id: TaskId, queue: QueueName, broker: Broker)
    requires Keyed(tm) && id in tm.at && tm.at[id].queue == queue
    modifies tm.at.Values`status, broker`attempts
    ensures Dispatched(old(StatusesOf(tm)), old(broker.attempts), StatusesOf(tm), broker.attempts,
                       [id], InfosOf(tm), broker.accepts)
  {
    hide NoDup;
    var ok := broker.SendMessage(queue, id);
    if ok {
      SetStatus(tm, id, Waiting);
    }
    assert MessagesOf([id], InfosOf(tm)) == [Message(queue, id)];
  }

  /** Sends the tasks of one lane while slots last. */
  method SendLane(tm: TaskMap, lane: seq<TaskId>, queue: QueueName, idle0: int, broker: Broker) returns (idle: int)
    requires Keyed(tm) && (forall id :: id in lane ==> id in tm.at && tm.at[id].queue == queue)
    modifies tm.at.Values`status, broker`attempts
    ensures idle == idle0 - |Top(lane, idle0)|
    ensures Dispatched(old(StatusesOf(tm)), old(broker.attempts), StatusesOf(tm), broker.attempts,
                       Top(lane, idle0), InfosOf(tm), broker.accepts)
  {
    hide Dispatched;
    idle := idle0;
    ghost var s0, log0, info := StatusesOf(tm), broker.attempts, InfosOf(tm);
    DispatchedNone(s0, log0, info, broker.accepts);
    var i := 0;
    assert lane[..0] == [] && lane[..|lane|] == lane;
    while i < |lane| && idle > 0
      invariant 0 <= i <= |lane| && idle == idle0 - i && (i > 0 ==> idle >= 0)
      invariant Dispatched(s0, log0, StatusesOf(tm), broker.attempts, lane[..i], info, broker.accepts)
    {
      ghost var s1, log1 := StatusesOf(tm), broker.attempts;
      SendTask(tm, lane[i], queue, broker);
      DispatchedBoth(s0, log0, s1, log1, StatusesOf(tm), broker.attempts, lane[..i], [lane[i]], info, broker.accepts);
      SnocPrefix(lane, i);
      idle := idle - 1;
      i := i + 1;
    }
  }

  lemma TopOfBoth(a: seq<TaskId>, b: seq<TaskId>, idle: int)
    ensures Top(a + b, idle) == Top(a, idle) + Top(b, idle - |Top(a, idle)|)
  {
  }

  /** Serves one queue: its priority lane, then its normal lane. */
  method DispatchQueue(tm: TaskMap, q: QueueName, lanes: Lanes, broker: Broker)
    requires Keyed(tm) && forall id :: id in lanes.priority || id in lanes.normal ==>
               id in tm.at && tm.at[id].queue == q
    modifies tm.at.Values`status, broker`attempts
    ensures Dispatched(old(StatusesOf(tm)), old(broker.attempts), StatusesOf(tm), broker.attempts,
                       Top(lanes.priority + lanes.normal, broker.idle(q)), InfosOf(tm), broker.accepts)
  {
    hide Dispatched;
    var idle := broker.idle(q);
    ghost var s0, log0, info := StatusesOf(tm), broker.attempts, InfosOf(tm);
    TopOfBoth(lanes.priority, lanes.normal, idle);
    if idle <= 0 {
      DispatchedNone(s0, log0, info, broker.accepts);
      return;
    }
    var left := SendLane(tm, lanes.priority, q, idle, broker);
    ghost var s1, log1 := StatusesOf(tm), broker.attempts;
    ghost var before := left;
    left := SendLane(tm, lanes.normal, q, left, broker);
    DispatchedBoth(s0, log0, s1, log1, StatusesOf(tm), broker.attempts,
                   Top(lanes.priority, idle), Top(lanes.normal, before), info, broker.accepts);
  }

  /** The runnable tasks divided by queue and by priority, in a dict of lanes. */
  ghost predicate LanesOf(queues: seq<QueueName>, lanes: map<QueueName, Lanes>, run: seq<TaskId>, info: Infos,
                          prio: set<TaskId>)
    requires forall id :: id in run ==> id in info
  {
    && queues == FirstSeen(QueuesOf(run, info))
    && (forall q :: q in lanes <==> q in queues)
    && (forall q :: q in lanes ==> lanes[q] == BothLanes(run, info, prio, q))
  }

  lemma {:induction false} LaneStep(run: seq<TaskId>, id: TaskId, info: Infos, prio: set<TaskId>, q: QueueName,
                                    urgent: bool)
    requires (forall x :: x in run ==> x in info) && id in info
    ensures forall x :: x in run + [id] ==> x in info
    ensures Lane(run + [id], info, prio, q, urgent) ==
              Lane(run, info, prio, q, urgent) + if info[id].queue == q && (id in prio) == urgent then [id] else []
  {
    assert (run + [id])[..|run|] == run;
  }

  lemma QueuesStep(run: seq<TaskId>, id: TaskId, info: Infos)
    requires (forall x :: x in run ==> x in info) && id in info
    ensures forall x :: x in run + [id] ==> x in info
    ensures var queues, q := FirstSeen(QueuesOf(run, info)), info[id].queue;
            FirstSeen(QueuesOf(run + [id], info)) == if q in queues then queues else queues + [q]
  {
    assert QueuesOf(run + [id], info)[..|run|] == QueuesOf(run, info);
  }

  /** Both lanes of queue `x`, in a dict that holds those of `run`. */
  function BothLanes(run: seq<TaskId>, info: Infos, prio: set<TaskId>, x: QueueName): Lanes
    requires forall id :: id in run ==> id in info
  {
    Lanes(Lane(run, info, prio, x, true), Lane(run, info, prio, x, false))
  }

  /** The lanes of a queue when one more runnable task is divided. */
  lemma BothLanesStep(run: seq<TaskId>, id: TaskId, info: Infos, prio: set<TaskId>, x: QueueName)
    requires (forall t :: t in run ==> t in info) && id in info
    ensures forall t :: t in run + [id] ==> t in info
    ensures var l := BothLanes(run, info, prio, x);
            BothLanes(run + [id], info, prio, x) ==
              if info[id].queue != x then l
              else if id in prio then l.(priority := l.priority + [id])
              else l.(normal := l.normal + [id])
  {
    hide Lane;
    LaneStep(run, id, info, prio, x, true);
    LaneStep(run, id, info, prio, x, false);
    var l := BothLanes(run, info, prio, x);
    assert l.priority + [] == l.priority && l.normal + [] == l.normal;
  }

  lemma NoLanesYet(run: seq<TaskId>, info: Infos, prio: set<TaskId>, x: QueueName)
    requires (forall id :: id in run ==> id in info) && x !in FirstSeen(QueuesOf(run, info))
    ensures BothLanes(run, info, prio, x) == Lanes([], [])
  {
    EmptyLane(run, info, prio, x, true);
    EmptyLane(run, info, prio, x, false);
  }

  lemma LanesStep(queues: seq<QueueName>, lanes: map<QueueName, Lanes>, run: seq<TaskId>, id: TaskId, info: Infos,
                  prio: set<TaskId>)
    requires (forall x :: x in run ==> x in info) && id in info
    requires LanesOf(queues, lanes, run, info, prio)
    ensures forall x :: x in run + [id] ==> x in info
    ensures var q := info[id].queue;
            var l := if q in lanes then lanes[q] else Lanes([], []);
            LanesOf(if q in lanes then queues else queues + [q],
                    lanes[q := if id in prio then l.(priority := l.priority + [id]) else l.(normal := l.normal + [id])],
                    run + [id], info, prio)
  {
    hide Lane, QueuesOf, FirstSeen, BothLanes;
    var q := info[id].queue;
    QueuesStep(run, id, info);
    if q !in lanes {
      NoLanesYet(run, info, prio, q);
    }
    forall x | x in lanes || x == q
      ensures BothLanes(run + [id], info, prio, x) ==
                var l := if x in lanes then lanes[x] else Lanes([], []);
                if x != q then l
                else if id in prio then l.(priority := l.priority + [id])
                else l.(normal := l.normal + [id])
    {
      BothLanesStep(run, id, info, prio, x);
    }
  }

  lemma {:induction false} EmptyLane(run: seq<TaskId>, info: Infos, prio: set<TaskId>, q: QueueName, urgent: bool)
    requires (forall id :: id in run ==> id in info) && q !in FirstSeen(QueuesOf(run, info))
    ensures Lane(run, info, prio, q, urgent) == []
  {
    if run != [] {
      assert QueuesOf(run, info)[|run| - 1] in QueuesOf(run, info);
      assert QueuesOf(run[..|run| - 1], info) == QueuesOf(run, info)[..|run| - 1];
      EmptyLane(run[..|run| - 1], info, prio, q, urgent);
    }
  }

  lemma NothingDivided(info: Infos, prio: set<TaskId>)
    ensures LanesOf([], map[], [], info, prio)
  {
  }

  method DivideByQueue(tm: TaskMap, runnable: seq<TaskId>, priority: seq<TaskId>)
    returns (queues: seq<QueueName>, lanes: map<QueueName, Lanes>)
    requires Keyed(tm) && forall id :: id in runnable ==> id in tm.at
    ensures LanesOf(queues, lanes, runnable, InfosOf(tm), Elements(priority))
  {
    hide Lane, BothLanes, LanesOf;
    queues, lanes := [], map[];
    ghost var info, prio := InfosOf(tm), Elements(priority);
    NothingDivided(info, prio);
    assert runnable[..0] == [] && runnable[..|runnable|] == runnable;
    for i := 0 to |runnable|
      invariant forall id :: id in runnable[..i] ==> id in info
      invariant LanesOf(queues, lanes, runnable[..i], info, prio)
    {
      var id := runnable[i];
      LanesStep(queues, lanes, runnable[..i], id, info, prio);
      SnocPrefix(runnable, i);
      var q := tm.at[id].queue;
      var l := if q in lanes then lanes[q] else Lanes([], []);
      queues := if q in lanes then queues else queues + [q];
      lanes := lanes[q := if id in priority then l.(priority := l.priority + [id]) else l.(normal := l.normal + [id])];
    }
  }

  function WeightsOf(tm: TaskMap): Infos {
    map id | id in tm.at :: Info(tm.at[id].queue, tm.at[id].weight)
  }

  method SortLanes(tm: TaskMap, queues: seq<QueueName>, lanes0: map<QueueName, Lanes>)
    returns (lanes: map<QueueName, Lanes>)
    requires NoDup(queues) && forall q :: q in queues ==> q in lanes0
    requires forall q, id :: q in lanes0 && (id in lanes0[q].priority || id in lanes0[q].normal) ==> id in tm.at
    ensures lanes.Keys == lanes0.Keys
    ensures forall q :: q in queues ==>
              lanes[q] == Lanes(SortByWeight(lanes0[q].priority, InfosOf(tm)),
                                SortByWeight(lanes0[q].normal, InfosOf(tm)))
  {
    hide SortByWeight;
    lanes := lanes0;
    var info := WeightsOf(tm);
    for i := 0 to |queues|
      invariant lanes.Keys == lanes0.Keys
      invariant forall k :: i <= k < |queues| ==> lanes[queues[k]] == lanes0[queues[k]]
      invariant forall k :: 0 <= k < i ==> BothSorted(lanes0[queues[k]], lanes[queues[k]], info)
    {
      var l := lanes[queues[i]];
      lanes := lanes[queues[i] := Lanes(SortByWeight(l.priority, info), SortByWeight(l.normal, info))];
    }
  }

  predicate BothSorted(l: Lanes, sorted: Lanes, info: Infos)
    requires forall id :: id in l.priority || id in l.normal ==> id in info
  {
    sorted == Lanes(SortByWeight(l.priority, info), SortByWeight(l.normal, info))
  }

  /** The attempts for the first queues are the first attempts. */
  lemma {:induction false} FirstAttempts(queues: seq<QueueName>, k: nat, run: seq<TaskId>, info: Infos,
                                         prio: set<TaskId>, idle: QueueName -> int)
    requires k <= |queues| && forall id :: id in run ==> id in info
    ensures Attempts(queues[..k], run, info, prio, idle) <= Attempts(queues, run, info, prio, idle)
  {
    if k == |queues| {
      assert queues[..k] == queues;
    } else {
      assert queues[..|queues| - 1][..k] == queues[..k];
      FirstAttempts(queues[..|queues| - 1], k, run, info, prio, idle);
    }
  }

  /** Sends the best runnable tasks that the idle slots of each queue admit. A lookup
      of idle slots that raises ends the dispatch before its queue. */
  method Schedule(tm: TaskMap, runnable: seq<TaskId>, priority: seq<TaskId>, broker: Broker, fault: Fault)
    returns (raised: bool, ghost sent: seq<TaskId>)
    requires Keyed(tm) && forall id :: id in runnable ==> id in tm.at
    modifies tm.at.Values`status, broker`attempts
    ensures var queues := FirstSeen(QueuesOf(runnable, InfosOf(tm)));
            && (raised <==> fault.LookupFails? && fault.at < |queues|)
            && sent == Attempts(if raised then queues[..fault.at] else queues,
                                runnable, InfosOf(tm), Elements(priority), broker.idle)
    ensures var all := AttemptsOf(runnable, InfosOf(tm), Elements(priority), broker.idle);
            sent <= all && (!raised ==> sent == all)
    ensures Dispatched(old(StatusesOf(tm)), old(broker.attempts), StatusesOf(tm), broker.attempts,
                       sent, InfosOf(tm), broker.accepts)
  {
    hide *;
    ghost var s0, log0, info, prio := StatusesOf(tm), broker.attempts, InfosOf(tm), Elements(priority);
    InfosListed(tm);
    var queues, lanes := DivideByQueue(tm, runnable, priority);
    LanesListed(queues, lanes, runnable, info, prio);
    ghost var divided := lanes;
    lanes := SortLanes(tm, queues, lanes);
    LanesRanked(queues, divided, lanes, runnable, info, prio);
    sent := [];
    assert queues[..0] == [] && queues[..|queues|] == queues;
    DispatchedNone(s0, log0, info, broker.accepts);
    NoAttempts(runnable, info, prio, broker.idle);
    for i := 0 to |queues|
      invariant sent == Attempts(queues[..i], runnable, info, prio, broker.idle)
      invariant fault.LookupFails? ==> fault.at >= i
      invariant Dispatched(s0, log0, StatusesOf(tm), broker.attempts, sent, info, broker.accepts)
    {
      if fault == LookupFails(i) {
        FirstAttempts(queues, i, runnable, info, prio, broker.idle);
        SomeAttempts(queues, runnable, info, prio, broker.idle);
        return true, sent;
      }
      var q := queues[i];
      ghost var s1, log1, granted := StatusesOf(tm), broker.attempts, Granted(runnable, info, prio, q, broker.idle(q));
      GrantedLanes(lanes[q], runnable, info, prio, q, broker.idle(q));
      QueuesNamed(tm, lanes[q], q);
      DispatchQueue(tm, q, lanes[q], broker);
      DispatchedBoth(s0, log0, s1, log1, StatusesOf(tm), broker.attempts, sent, granted, info, broker.accepts);
      NextAttempts(queues, i, runnable, info, prio, broker.idle);
      sent := sent + granted;
    }
    SomeAttempts(queues, runnable, info, prio, broker.idle);
    raised := false;
  }

  lemma InfosListed(tm: TaskMap)
    ensures forall id :: id in tm.at <==> id in InfosOf(tm)
  {
  }

  lemma QueuesNamed(tm: TaskMap, l: Lanes, q: QueueName)
    requires InQueue(l, InfosOf(tm), q)
    ensures forall id :: id in l.priority || id in l.normal ==> id in tm.at && tm.at[id].queue == q
  {
  }

  ghost predicate InQueue(l: Lanes, info: Infos, q: QueueName) {
    forall id :: id in l.priority || id in l.normal ==> id in info && info[id].queue == q
  }

  lemma LanesListed(queues: seq<QueueName>, lanes: map<QueueName, Lanes>, run: seq<TaskId>, info: Infos,
                    prio: set<TaskId>)
    requires (forall id :: id in run ==> id in info) && LanesOf(queues, lanes, run, info, prio)
    ensures NoDup(queues) && queues == FirstSeen(QueuesOf(run, info)) && forall q :: q in queues ==> q in lanes
    ensures forall q, id :: q in lanes && (id in lanes[q].priority || id in lanes[q].normal) ==> id in info
  {
  }

  /** The sorted lanes of the queues are, one behind the other, their rankings. */
  lemma {:induction false} LanesRanked(queues: seq<QueueName>, lanes: map<QueueName, Lanes>,
                                       sorted: map<QueueName, Lanes>, run: seq<TaskId>, info: Infos,
                                       prio: set<TaskId>)
    requires (forall id :: id in run ==> id in info) && LanesOf(queues, lanes, run, info, prio)
    requires forall q, id :: q in lanes && (id in lanes[q].priority || id in lanes[q].normal) ==> id in info
    requires sorted.Keys == lanes.Keys
    requires forall q :: q in queues ==>
               sorted[q] == Lanes(SortByWeight(lanes[q].priority, info), SortByWeight(lanes[q].normal, info))
    ensures forall q :: q in queues ==>
              q in sorted && InQueue(sorted[q], info, q)
              && sorted[q].priority + sorted[q].normal == Ranked(run, info, prio, q)
  {
    hide Lane, SortByWeight, FirstSeen, QueuesOf, Ranked;
    forall q | q in queues
      ensures q in sorted && InQueue(sorted[q], info, q)
      ensures sorted[q].priority + sorted[q].normal == Ranked(run, info, prio, q)
    {
      RankedLanes(run, info, prio, q);
    }
  }

  lemma GrantedLanes(l: Lanes, run: seq<TaskId>, info: Infos, prio: set<TaskId>, q: QueueName, idle: int)
    requires (forall id :: id in run ==> id in info) && l.priority + l.normal == Ranked(run, info, prio, q)
    ensures Granted(run, info, prio, q, idle) == Top(l.priority + l.normal, idle)
  {
  }

  lemma {:induction false} NoAttempts(run: seq<TaskId>, info: Infos, prio: set<TaskId>, idle: QueueName -> int)
    requires forall id :: id in run ==> id in info
    ensures Attempts([], run, info, prio, idle) == []
  {
  }

  lemma {:induction false} NextAttempts(queues: seq<QueueName>, i: nat, run: seq<TaskId>, info: Infos,
                                        prio: set<TaskId>, idle: QueueName -> int)
    requires i < |queues| && forall id :: id in run ==> id in info
    ensures Attempts(queues[..i + 1], run, info, prio, idle) ==
              Attempts(queues[..i], run, info, prio, idle) + Granted(run, info, prio, queues[i], idle(queues[i]))
  {
    hide Granted;
    SnocPrefix(queues, i);
  }

  lemma {:induction false} SomeAttempts(queues: seq<QueueName>, run: seq<TaskId>, info: Infos, prio: set<TaskId>,
                                        idle: QueueName -> int)
    requires (forall id :: id in run ==> id in info) && queues == FirstSeen(QueuesOf(run, info))
    ensures AttemptsOf(run, info, prio, idle) == Attempts(queues, run, info, prio, idle)
  {
  }

  lemma {:induction false} RankedLanes(run: seq<TaskId>, info: Infos, prio: set<TaskId>, q: QueueName)
    requires forall id :: id in run ==> id in info
    ensures var p := SortByWeight(Lane(run, info, prio, q, true), info);
            var n := SortByWeight(Lane(run, info, prio, q, false), info);
            && Ranked(run, info, prio, q) == p + n
            && forall id :: id in p || id in n ==> id in info && info[id].queue == q
  {
  }

  // ---------- roll-up and persistence ----------

  /** The statuses of the children of `p` that are in the map: whether there are
      any, whether all are SUCCESS, whether any is FAILED. */
  method ChildStatuses(tm: TaskMap, g: Graph, p: TaskId) returns (some: bool, allSuccess: bool, anyFailed: bool)
    requires Keyed(tm)
    ensures some <==> HasChild(StatusesOf(tm), g, p)
    ensures allSuccess <==> AllChildrenSucceeded(StatusesOf(tm), g, p)
    ensures anyFailed <==> SomeChildFailed(StatusesOf(tm), g, p)
  {
    some, allSuccess, anyFailed := false, true, false;
    var children := Children(g, p);
    for i := 0 to |children|
      invariant some <==> exists k :: 0 <= k < i && children[k] in tm.at
      invariant allSuccess <==> forall k :: 0 <= k < i && children[k] in tm.at ==> tm.at[children[k]].status.Success?
      invariant anyFailed <==> exists k :: 0 <= k < i && children[k] in tm.at && tm.at[children[k]].status.Failed?
    {
      if children[i] in tm.at {
        some := true;
        allSuccess := allSuccess && tm.at[children[i]].status.Success?;
        anyFailed := anyFailed || tm.at[children[i]].status.Failed?;
      }
    }
    assert forall k :: 0 <= k < |children| ==> children[k] in children;
  }

  method RollUpParent(tm: TaskMap, g: Graph, p: TaskId)
    requires Keyed(tm) && p in g.children
    modifies tm.at.Values`status
    ensures StatusesOf(tm) == RollOne(old(StatusesOf(tm)), g, p)
  {
    hide HasChild, AllChildrenSucceeded, SomeChildFailed;
    if p !in tm.at || Final(tm.at[p].status) {
      return;
    }
    var some, allSuccess, anyFailed := ChildStatuses(tm, g, p);
    if some {
      if allSuccess {
        SetStatus(tm, p, Success);
      } else if anyFailed {
        SetStatus(tm, p, Failed);
      }
    }
  }

  method UpdateParentStatus(tm: TaskMap, g: Graph)
    requires Keyed(tm) && ParentsListed(g)
    modifies tm.at.Values`status
    ensures StatusesOf(tm) == RollUp(old(StatusesOf(tm)), g, g.parents)
  {
    assert g.parents[..0] == [] && g.parents[..|g.parents|] == g.parents;
    for i := 0 to |g.parents|
      invariant StatusesOf(tm) == RollUp(old(StatusesOf(tm)), g, g.parents[..i])
    {
      SnocPrefix(g.parents, i);
      RollUpParent(tm, g, g.parents[i]);
    }
  }

  /** The collection after the writes for the tasks of `order`, in that order. */
  ghost function Persisted(docs: seq<Record>, order: seq<TaskId>, originals: map<TaskId, Option<Status>>,
                           s: Statuses): seq<Record>
    requires forall id :: id in order ==> id in originals && id in s
  {
    if order == [] then docs else
      var id := order[|order| - 1];
      Update(Persisted(docs, order[..|order| - 1], originals, s), id, WriteFor(originals[id], s[id]))
  }

  /** The task numbered `at` needs a write. */
  ghost predicate Writes(order: seq<TaskId>, originals: map<TaskId, Option<Status>>, s: Statuses, at: nat) {
    && at < |order| && order[at] in originals && order[at] in s
    && !WriteFor(originals[order[at]], s[order[at]]).NoWrite?
  }

  /** The writes for the tasks in turn; one that raises ends them. */
  method PersistUpdates(tm: TaskMap, store: TaskStore, fault: Fault) returns (raised: bool, ghost written: nat)
    requires Keyed(tm)
    modifies store
    ensures forall id :: id in tm.order ==> id in OriginalsOf(tm) && id in StatusesOf(tm)
    ensures if raised then written < |tm.order| && fault == WriteFails(written) else written == |tm.order|
    ensures raised <==> fault.WriteFails? && Writes(tm.order, OriginalsOf(tm), StatusesOf(tm), fault.at)
    ensures store.docs == Persisted(old(store.docs), tm.order[..written], OriginalsOf(tm), StatusesOf(tm))
  {
    hide NoDup, Update, WriteFor;
    ghost var docs0, originals, s := store.docs, OriginalsOf(tm), StatusesOf(tm);
    assert tm.order[..0] == [] && tm.order[..|tm.order|] == tm.order;
    for i := 0 to |tm.order|
      invariant forall id :: id in tm.order[..i] ==> id in tm.at
      invariant store.docs == Persisted(docs0, tm.order[..i], originals, s)
      invariant fault.WriteFails? && fault.at < i ==> !Writes(tm.order, originals, s, fault.at)
    {
      SnocPrefix(tm.order, i);
      var id := tm.order[i];
      var task := tm.at[id];
      var w := WriteFor(task.originalStatus, task.status);
      assert originals[id] == task.originalStatus && s[id] == task.status;
      UpdateNothing(store.docs, id);
      if !w.NoWrite? {
        if fault == WriteFails(i) {
          return true, i;
        }
        store.FindOneAndUpdate(id, w);
      }
    }
    raised, written := false, |tm.order|;
  }

  lemma {:induction false} UpdateNothing(docs: seq<Record>, id: TaskId)
    ensures Update(docs, id, NoWrite) == docs
  {
    if docs != [] && docs[0].id != id {
      UpdateNothing(docs[1..], id);
    }
  }

  // ---------- the whole cycle ----------

  method FetchTasks(store: TaskStore) returns (tasks: seq<Task>)
    ensures Docs(tasks) == Fetch(store.docs)
    ensures forall i :: 0 <= i < |tasks| ==> fresh(tasks[i])
  {
    var recs := Fetch(store.docs);
    tasks := [];
    for i := 0 to |recs|
      invariant |tasks| == i && forall k :: 0 <= k < i ==> fresh(tasks[k]) && tasks[k].Doc() == recs[k]
    {
      var task := new Task(recs[i]);
      tasks := tasks + [task];
    }
  }

  lemma GraphListsParents(recs: seq<Record>)
    ensures ParentsListed(GraphOf(recs))
  {
  }

  lemma {:induction false} RunnableInMap(tm: TaskMap, s: Statuses, g: Graph)
    requires Keyed(tm) && s.Keys == tm.at.Keys
    ensures (forall id :: id in tm.order ==> id in s) && forall id :: id in Runnable(tm.order, s, g) ==> id in tm.at
  {
  }

  lemma SamePriority(priority: seq<TaskId>, urgent: set<TaskId>)
    requires forall id :: id in priority <==> id in urgent
    ensures Elements(priority) == urgent
  {
  }

  /** The outcome of a cycle from those of its steps. */
  lemma {:induction false} CycleFromSteps(recs: seq<Record>, log0: seq<Message>, log: seq<Message>, s2: Statuses,
                                          idle: QueueName -> int, accepts: TaskId -> bool)
    requires forall id :: id in OrderOf(recs) ==> id in Propagated(StatusMap(recs), GraphOf(recs))
    requires forall id :: id in Runnable(OrderOf(recs), Propagated(StatusMap(recs), GraphOf(recs)), GraphOf(recs)) ==>
               id in InfoMap(recs)
    requires var g := GraphOf(recs);
             var s1 := Propagated(StatusMap(recs), g);
             var attempts := AttemptsOf(Runnable(OrderOf(recs), s1, g), InfoMap(recs), UrgentSet(s1, g), idle);
             Dispatched(s1, log0, s2, log, attempts, InfoMap(recs), accepts)
    ensures CycleRun(recs, log0, RollUp(s2, GraphOf(recs), GraphOf(recs).parents), log, idle, accepts)
  {
    hide Propagated, AttemptsOf, Runnable, StatusMap, InfoMap, OrderOf, RollUp, GraphOf, Sent, MessagesOf, UrgentSet;
  }

  /** Some of the messages of a cycle, the first ones, were sent. */
  ghost predicate SentSome(recs: seq<Record>, log0: seq<Message>, log: seq<Message>,
                           idle: QueueName -> int, accepts: TaskId -> bool, n: nat) {
    var out := CycleOf(recs, idle, accepts);
    && (forall id :: id in out.attempts ==> id in InfoMap(recs))
    && n <= |out.attempts|
    && log == log0 + MessagesOf(out.attempts[..n], InfoMap(recs))
  }

  /** What a cycle has sent when its dispatch is cut short. */
  lemma {:induction false} PartFromSteps(recs: seq<Record>, log0: seq<Message>, log: seq<Message>, s2: Statuses,
                                         sent: seq<TaskId>, idle: QueueName -> int, accepts: TaskId -> bool)
    requires forall id :: id in OrderOf(recs) ==> id in Propagated(StatusMap(recs), GraphOf(recs))
    requires forall id :: id in Runnable(OrderOf(recs), Propagated(StatusMap(recs), GraphOf(recs)), GraphOf(recs)) ==>
               id in InfoMap(recs)
    requires var g := GraphOf(recs);
             var s1 := Propagated(StatusMap(recs), g);
             && Dispatched(s1, log0, s2, log, sent, InfoMap(recs), accepts)
             && sent <= AttemptsOf(Runnable(OrderOf(recs), s1, g), InfoMap(recs), UrgentSet(s1, g), idle)
    ensures SentSome(recs, log0, log, idle, accepts, |sent|)
  {
    hide Propagated, AttemptsOf, Runnable, StatusMap, InfoMap, OrderOf, RollUp, GraphOf, Sent, MessagesOf, UrgentSet;
    var attempts := CycleOf(recs, idle, accepts).attempts;
    assert sent == attempts[..|sent|];
  }

  /** The queues that a cycle serves are those of its runnable tasks. */
  lemma {:induction false} ServedQueues(recs: seq<Record>, idle: QueueName -> int, queues: seq<QueueName>,
                                        at: nat, sent: seq<TaskId>)
    requires forall id :: id in OrderOf(recs) ==> id in Propagated(StatusMap(recs), GraphOf(recs))
    requires forall id :: id in Runnable(OrderOf(recs), Propagated(StatusMap(recs), GraphOf(recs)), GraphOf(recs)) ==>
               id in InfoMap(recs)
    requires var s1 := Propagated(StatusMap(recs), GraphOf(recs));
             var run := Runnable(OrderOf(recs), s1, GraphOf(recs));
             && queues == FirstSeen(QueuesOf(run, InfoMap(recs)))
             && (at < |queues| ==>
                   sent == Attempts(queues[..at], run, InfoMap(recs), UrgentSet(s1, GraphOf(recs)), idle))
    ensures QueuesServed(recs) == queues
    ensures at < |queues| ==> AttemptsBefore(recs, idle, at) == sent
  {
    hide Propagated, Attempts, Runnable, StatusMap, InfoMap, OrderOf, GraphOf, UrgentSet, FirstSeen, QueuesOf;
  }

  lemma KeysOf(tm: TaskMap)
    ensures StatusesOf(tm).Keys == InfosOf(tm).Keys == tm.at.Keys
  {
  }

  /** What `recs` and the broker make of the statuses and the message log. */
  ghost predicate CycleRun(recs: seq<Record>, log0: seq<Message>, s: Statuses, log: seq<Message>,
                           idle: QueueName -> int, accepts: TaskId -> bool) {
    var out := CycleOf(recs, idle, accepts);
    && s == out.final
    && (forall id :: id in out.attempts ==> id in InfoMap(recs))
    && log == log0 + MessagesOf(out.attempts, InfoMap(recs))
  }

  /** Steps 3 to 7, as far as the dispatch lets them come. */
  method RunSteps(tm: TaskMap, g: Graph, broker: Broker, ghost recs: seq<Record>, fault: Fault)
    returns (raised: bool, ghost sent: nat)
    requires Keyed(tm) && tm.order == OrderOf(recs) && g == GraphOf(recs)
    requires StatusesOf(tm) == StatusMap(recs) && InfosOf(tm) == InfoMap(recs)
    modifies tm.at.Values`status, broker`attempts
    ensures raised <==> fault.LookupFails? && fault.at < |QueuesServed(recs)|
    ensures raised ==>
              && sent == |AttemptsBefore(recs, broker.idle, fault.at)|
              && SentSome(recs, old(broker.attempts), broker.attempts, broker.idle, broker.accepts, sent)
    ensures !raised ==>
              CycleRun(recs, old(broker.attempts), StatusesOf(tm), broker.attempts, broker.idle, broker.accepts)
  {
    hide *;
    GraphListsParents(recs);
    KeysOf(tm);
    ghost var enqueued := PropagateFailures(tm, g);
    KeysOf(tm);
    ghost var s1, log0 := StatusesOf(tm), broker.attempts;
    RunnableInMap(tm, s1, g);
    var runnable := FindRunnableTasks(tm, g);
    var priority := GetPrioritySubtasks(tm, g);
    SamePriority(priority, UrgentSet(s1, g));
    ghost var part: seq<TaskId>;
    raised, part := Schedule(tm, runnable, priority, broker, fault);
    sent := |part|;
    ServedQueues(recs, broker.idle, FirstSeen(QueuesOf(runnable, InfosOf(tm))),
                 if raised then fault.at else |FirstSeen(QueuesOf(runnable, InfosOf(tm)))|, part);
    if raised {
      PartFromSteps(recs, log0, broker.attempts, StatusesOf(tm), part, broker.idle, broker.accepts);
      return;
    }
    CycleFromSteps(recs, log0, broker.attempts, StatusesOf(tm), broker.idle, broker.accepts);
    UpdateParentStatus(tm, g);
  }

  /** Steps 2 to 7 on the fetched tasks. */
  method RunCycle(tasks: seq<Task>, broker: Broker, fault: Fault) returns (tm: TaskMap, raised: bool, ghost sent: nat)
    modifies tasks, broker`attempts
    ensures Keyed(tm) && tm.order == OrderOf(old(Docs(tasks)))
    ensures OriginalsOf(tm) == SnapshotOf(StatusMap(old(Docs(tasks))))
    ensures raised <==> fault.LookupFails? && fault.at < |QueuesServed(old(Docs(tasks)))|
    ensures raised ==>
              && sent == |AttemptsBefore(old(Docs(tasks)), broker.idle, fault.at)|
              && SentSome(old(Docs(tasks)), old(broker.attempts), broker.attempts, broker.idle, broker.accepts, sent)
    ensures !raised ==> CycleRun(old(Docs(tasks)), old(broker.attempts), StatusesOf(tm), broker.attempts,
                                 broker.idle, broker.accepts)
  {
    hide *;
    ghost var recs := Docs(tasks);
    var g: Graph;
    tm, g := BuildDependencyGraph(tasks);
    raised, sent := RunSteps(tm, g, broker, recs, fault);
  }

  lemma CycleRunMeans(recs: seq<Record>, log0: seq<Message>, s: Statuses, log: seq<Message>,
                      idle: QueueName -> int, accepts: TaskId -> bool)
    requires CycleRun(recs, log0, s, log, idle, accepts)
    ensures var out := CycleOf(recs, idle, accepts);
            && s == out.final
            && (forall id :: id in out.attempts ==> id in InfoMap(recs))
            && log == log0 + MessagesOf(out.attempts, InfoMap(recs))
  {
  }

  /** With nothing fetched there is nothing to do. */
  lemma {:induction false} EmptyCycle(docs: seq<Record>, idle: QueueName -> int, accepts: TaskId -> bool)
    ensures Docs([]) == [] && OrderOf([]) == []
    ensures CycleOf([], idle, accepts).attempts == [] && MessagesOf([], InfoMap([])) == []
    ensures Persisted(docs, [], SnapshotOf(StatusMap([])), CycleOf([], idle, accepts).final) == docs
  {
  }

  // ---------- what a cycle leaves in the collection ----------

  ghost predicate UniqueIds(docs: seq<Record>) {
    forall i, j :: 0 <= i < j < |docs| ==> docs[i].id != docs[j].id
  }

  lemma {:induction false} UpdateAt(docs: seq<Record>, id: TaskId, w: Write, i: nat)
    requires UniqueIds(docs) && i < |docs|
    ensures var r := Update(docs, id, w)[i];
            && r.id == docs[i].id
            && r == if docs[i].id == id then docs[i].(status := Applied(w, docs[i].status)) else docs[i]
  {
    if i > 0 {
      UpdateAt(docs[1..], id, w, i - 1);
    } else if docs[0].id == id && w.CompareAndSet? && docs[0].status != w.expected {
      assert docs[0].(status := docs[0].status) == docs[0];
    }
  }

  lemma {:induction false} PersistedAt(docs: seq<Record>, order: seq<TaskId>, originals: map<TaskId, Option<Status>>,
                                       s: Statuses, i: nat)
    requires UniqueIds(docs) && NoDup(order) && i < |docs|
    requires forall id :: id in order ==> id in originals && id in s
    ensures var r := Persisted(docs, order, originals, s);
            && |r| == |docs| && UniqueIds(r)
            && r[i] == if docs[i].id in order
                       then docs[i].(status := Applied(WriteFor(originals[docs[i].id], s[docs[i].id]), docs[i].status))
                       else docs[i]
  {
    if order != [] {
      var init, id := order[..|order| - 1], order[|order| - 1];
      PersistedAt(docs, init, originals, s, i);
      var mid, w := Persisted(docs, init, originals, s), WriteFor(originals[id], s[id]);
      forall k | 0 <= k < |mid|
        ensures Update(mid, id, w)[k].id == mid[k].id
      {
        UpdateAt(mid, id, w, k);
      }
      UpdateAt(mid, id, w, i);
      assert forall x :: x in order <==> x in init || x == id;
      assert id !in init;
    }
  }

  /** With one document per task and no other writer, `execute` stores exactly the
      outcome of the cycle: fetched documents get their final status, the others
      are left alone. */
  lemma {:induction false} ExecuteStoresOutcome(docs: seq<Record>, idle: QueueName -> int, accepts: TaskId -> bool,
                                                i: nat)
    requires UniqueIds(docs) && i < |docs|
    ensures var recs := Fetch(docs);
            var out := CycleOf(recs, idle, accepts);
            && (forall id :: id in OrderOf(recs) ==> id in SnapshotOf(StatusMap(recs)) && id in out.final)
            && var r := Persisted(docs, OrderOf(recs), SnapshotOf(StatusMap(recs)), out.final);
               |r| == |docs|
               && r[i] == if docs[i].id in out.final then docs[i].(status := out.final[docs[i].id]) else docs[i]
  {
    hide CycleOf, GraphOf, Fetch, Update, Persisted;
    var recs := Fetch(docs);
    var out := CycleOf(recs, idle, accepts);
    var s0, id := StatusMap(recs), docs[i].id;
    PersistenceIsComplete(recs, idle, accepts);
    OrderListsMap(recs);
    PersistedAt(docs, OrderOf(recs), SnapshotOf(s0), out.final, i);
    MappedRecord(recs, id);
    if id in s0 {
      var r := RecordMap(recs)[id];
      assert r in docs;
      var k :| 0 <= k < |docs| && docs[k] == r;
      assert s0[id] == docs[i].status;
    }
  }

  /** `_execute_lock`, which all the schedulers of a process share. */
  class ExecuteLock {
    var held: bool

    constructor ()
      ensures !held
    {
      held := false;
    }
  }

  /** What was added to the message log are messages for tasks of the list, each to the
      queue that the task's document names. */
  ghost predicate Addressed(recs: seq<Record>, log: seq<Message>, log': seq<Message>) {
    && log <= log'
    && forall i :: |log| <= i < |log'| ==>
         log'[i].id in RecordMap(recs) && log'[i].queue == RecordMap(recs)[log'[i].id].queue
  }

  lemma NoneAddressed(recs: seq<Record>, log: seq<Message>)
    ensures Addressed(recs, log, log)
  {
  }

  lemma MessagesAddressed(recs: seq<Record>, log: seq<Message>, ids: seq<TaskId>)
    requires forall id :: id in ids ==> id in InfoMap(recs)
    ensures Addressed(recs, log, log + MessagesOf(ids, InfoMap(recs)))
  {
    hide RecordMap;
    var msgs := MessagesOf(ids, InfoMap(recs));
    forall k | 0 <= k < |msgs|
      ensures msgs[k].id in RecordMap(recs) && msgs[k].queue == RecordMap(recs)[msgs[k].id].queue
    {
      assert ids[k] in ids;
    }
  }

  /** A cycle cut short has sent no message to a wrong queue. */
  lemma CutShortAddressed(recs: seq<Record>, docs: seq<Record>, docs': seq<Record>,
                          log: seq<Message>, log': seq<Message>,
                          idle: QueueName -> int, accepts: TaskId -> bool, fault: Fault)
    requires CutShort(recs, docs, docs', log, log', idle, accepts, fault)
    ensures Addressed(recs, log, log')
  {
    hide CycleOf, RecordMap, InfoMap, Persisted, OrderOf, AttemptsBefore, QueuesServed;
    var attempts := CycleOf(recs, idle, accepts).attempts;
    match fault
    case FetchFails =>
    case LookupFails(at) => MessagesAddressed(recs, log, attempts[..|AttemptsBefore(recs, idle, at)|]);
    case WriteFails(_) => MessagesAddressed(recs, log, attempts[..|attempts|]);
  }

  class TaskScheduler {
    const lock: ExecuteLock

    constructor (lock: ExecuteLock)
      ensures this.lock == lock
    {
      this.lock := lock;
    }

    /** One call of `execute`: nothing happens while a cycle of any scheduler is
        running; otherwise the fetched tasks go through a cycle and its outcome is
        persisted. A cycle that runs into an exception has sent the first of its
        messages, and written the first of its tasks if it sent them all; the exception
        is passed on. Every message goes to the queue that the document of its task
        names. The lock is free again in every case. */
    method Execute(store: TaskStore, broker: Broker, fault: Fault) returns (r: Result<(), Fault>)
      modifies lock, store, broker`attempts
      ensures lock.held == old(lock.held)
      ensures old(lock.held) ==> r.Ok? && store.docs == old(store.docs) && broker.attempts == old(broker.attempts)
      ensures !old(lock.held) ==>
                (r.Err? <==> Hits(Fetch(old(store.docs)), broker.idle, broker.accepts, fault))
      ensures !old(lock.held) && r.Ok? ==>
                var recs := Fetch(old(store.docs));
                var out := CycleOf(recs, broker.idle, broker.accepts);
                && (forall id :: id in OrderOf(recs) ==> id in SnapshotOf(StatusMap(recs)) && id in out.final)
                && (forall id :: id in out.attempts ==> id in InfoMap(recs))
                && broker.attempts == old(broker.attempts) + MessagesOf(out.attempts, InfoMap(recs))
                && store.docs == Persisted(old(store.docs), OrderOf(recs), SnapshotOf(StatusMap(recs)), out.final)
      ensures r.Err? ==>
                && r.error == fault
                && CutShort(Fetch(old(store.docs)), old(store.docs), store.docs,
                            old(broker.attempts), broker.attempts, broker.idle, broker.accepts, fault)
      ensures Addressed(Fetch(old(store.docs)), old(broker.attempts), broker.attempts)
    {
      hide *;
      ghost var recs, log := Fetch(store.docs), broker.attempts;
      if lock.held {
        NoneAddressed(recs, log);
        return Ok(());
      }
      lock.held := true;
      r := ExecuteLocked(store, broker, fault);
      if r.Ok? {
        MessagesAddressed(recs, log, CycleOf(recs, broker.idle, broker.accepts).attempts);
      } else {
        CutShortAddressed(recs, old(store.docs), store.docs, log, broker.attempts, broker.idle, broker.accepts, fault);
      }
      lock.held := false;
    }

    /** The body of the try statement. */
    method ExecuteLocked(store: TaskStore, broker: Broker, fault: Fault) returns (r: Result<(), Fault>)
      modifies store, broker`attempts
      ensures r.Err? <==> Hits(Fetch(old(store.docs)), broker.idle, broker.accepts, fault)
      ensures r.Ok? ==>
                var recs := Fetch(old(store.docs));
                var out := CycleOf(recs, broker.idle, broker.accepts);
                && (forall id :: id in OrderOf(recs) ==> id in SnapshotOf(StatusMap(recs)) && id in out.final)
                && (forall id :: id in out.attempts ==> id in InfoMap(recs))
                && broker.attempts == old(broker.attempts) + MessagesOf(out.attempts, InfoMap(recs))
                && store.docs == Persisted(old(store.docs), OrderOf(recs), SnapshotOf(StatusMap(recs)), out.final)
      ensures r.Err? ==>
                && r.error == fault
                && CutShort(Fetch(old(store.docs)), old(store.docs), store.docs,
                            old(broker.attempts), broker.attempts, broker.idle, broker.accepts, fault)
    {
      hide *;
      ghost var recs, docs, log := Fetch(store.docs), store.docs, broker.attempts;
      HitsCases(recs, broker.idle, broker.accepts);
      if fault.FetchFails? {
        NothingDone(recs, docs, log, broker.idle, broker.accepts);
        return Err(fault);
      }
      EmptyCycle(store.docs, broker.idle, broker.accepts);
      var tasks := FetchTasks(store);
      if tasks == [] {
        NothingToHit(broker.idle, broker.accepts, fault);
        return Ok(());
      }
      var tm, raised, sent := RunCycle(tasks, broker, fault);
      if raised {
        SomeSent(recs, docs, log, broker.attempts, broker.idle, broker.accepts, fault, sent);
        return Err(fault);
      }
      CycleRunMeans(recs, log, StatusesOf(tm), broker.attempts, broker.idle, broker.accepts);
      ghost var written;
      raised, written := PersistUpdates(tm, store, fault);
      if raised {
        SomeWritten(recs, docs, store.docs, log, broker.attempts, broker.idle, broker.accepts, written);
        return Err(fault);
      }
      assert tm.order[..|tm.order|] == tm.order;
      r := Ok(());
    }
  }

  /** A cycle over `recs` comes to the point at which the fault lies. */
  ghost predicate Hits(recs: seq<Record>, idle: QueueName -> int, accepts: TaskId -> bool, fault: Fault) {
    match fault
    case NoFault => false
    case FetchFails => true
    case LookupFails(at) => at < |QueuesServed(recs)|
    case WriteFails(at) => Writes(OrderOf(recs), SnapshotOf(StatusMap(recs)), CycleOf(recs, idle, accepts).final, at)
  }

  lemma {:induction false} HitsCases(recs: seq<Record>, idle: QueueName -> int, accepts: TaskId -> bool)
    ensures !Hits(recs, idle, accepts, NoFault) && Hits(recs, idle, accepts, FetchFails)
    ensures forall at: nat :: Hits(recs, idle, accepts, LookupFails(at)) <==> at < |QueuesServed(recs)|
    ensures forall at: nat ::
              Hits(recs, idle, accepts, WriteFails(at)) <==>
                Writes(OrderOf(recs), SnapshotOf(StatusMap(recs)), CycleOf(recs, idle, accepts).final, at)
  {
  }

  lemma NothingToHit(idle: QueueName -> int, accepts: TaskId -> bool, fault: Fault)
    requires !fault.FetchFails?
    ensures !Hits([], idle, accepts, fault)
  {
  }

  /** What a cycle has done when an exception ends it: it sent its messages for the
      queues looked up before and, if these are all, wrote its first tasks. */
  ghost predicate CutShort(recs: seq<Record>, docs: seq<Record>, docs': seq<Record>,
                           log: seq<Message>, log': seq<Message>,
                           idle: QueueName -> int, accepts: TaskId -> bool, fault: Fault) {
    match fault
    case NoFault => false
    case FetchFails => docs' == docs && log' == log
    case LookupFails(at) =>
      && at < |QueuesServed(recs)| && docs' == docs
      && SentSome(recs, log, log', idle, accepts, |AttemptsBefore(recs, idle, at)|)
    case WriteFails(at) =>
      var out := CycleOf(recs, idle, accepts);
      && at < |OrderOf(recs)|
      && (forall id :: id in OrderOf(recs) ==> id in SnapshotOf(StatusMap(recs)) && id in out.final)
      && docs' == Persisted(docs, OrderOf(recs)[..at], SnapshotOf(StatusMap(recs)), out.final)
      && SentSome(recs, log, log', idle, accepts, |out.attempts|)
  }

  lemma NothingDone(recs: seq<Record>, docs: seq<Record>, log: seq<Message>,
                    idle: QueueName -> int, accepts: TaskId -> bool)
    ensures CutShort(recs, docs, docs, log, log, idle, accepts, FetchFails)
  {
  }

  lemma SomeSent(recs: seq<Record>, docs: seq<Record>, log: seq<Message>, log': seq<Message>,
                 idle: QueueName -> int, accepts: TaskId -> bool, fault: Fault, n: nat)
    requires fault.LookupFails? && fault.at < |QueuesServed(recs)| && n == |AttemptsBefore(recs, idle, fault.at)|
    requires SentSome(recs, log, log', idle, accepts, n)
    ensures CutShort(recs, docs, docs, log, log', idle, accepts, fault)
  {
    hide CycleOf, StatusMap, InfoMap, OrderOf, SentSome, AttemptsBefore, QueuesServed;
  }

  lemma {:induction false} SomeWritten(recs: seq<Record>, docs: seq<Record>, docs': seq<Record>,
                                       log: seq<Message>, log': seq<Message>,
                                       idle: QueueName -> int, accepts: TaskId -> bool, k: nat)
    requires var final := CycleOf(recs, idle, accepts).final;
             && (forall id :: id in OrderOf(recs) ==> id in SnapshotOf(StatusMap(recs)) && id in final)
             && CycleRun(recs, log, final, log', idle, accepts)
             && k < |OrderOf(recs)|
             && docs' == Persisted(docs, OrderOf(recs)[..k], SnapshotOf(StatusMap(recs)), final)
    ensures CutShort(recs, docs, docs', log, log', idle, accepts, WriteFails(k))
  {
    hide CycleOf, StatusMap, InfoMap, OrderOf, Persisted;
    var attempts := CycleOf(recs, idle, accepts).attempts;
    assert attempts[..|attempts|] == attempts;
  }
}

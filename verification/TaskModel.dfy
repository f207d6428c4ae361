/** Tasks as the scheduler sees them: documents of the task collection, the
    mutable in-memory tasks of one scheduling cycle, and the links between them.

    A missing or falsy identifier (None or the empty string) is written "". */
module TaskModel {
  import opened Collections

  type TaskId = string
  type QueueName = string

  datatype Status = Pending | Running | Success | Failed | Retrying | Stopped | Waiting

  type Statuses = map<TaskId, Status>

  /** The scheduler's FINAL_STATUS. */
  predicate Final(s: Status) {
    s.Success? || s.Failed? || s.Stopped?
  }

  /** The statuses from which a task may be sent to a queue. */
  predicate Sendable(s: Status) {
    s.Pending? || s.Retrying?
  }

  /** One document of the task collection. */
  datatype Record = Record(id: TaskId, queue: QueueName, weight: int, sourceId: TaskId,
                           dependsOn: seq<TaskId>, status: Status)

  /** The task document held by a cycle: only its status and the snapshot of the
      status taken when the graph is built ever change. */
  class Task {
    const id: TaskId
    const queue: QueueName
    const weight: int
    const sourceId: TaskId
    const dependsOn: seq<TaskId>
    var status: Status
    var originalStatus: Option<Status>

    constructor (r: Record)
      ensures Doc() == r && originalStatus == None
    {
      id, queue, weight, sourceId, dependsOn := r.id, r.queue, r.weight, r.sourceId, r.dependsOn;
      status, originalStatus := r.status, None;
    }

    function Doc(): Record
      reads `status
    {
      Record(id, queue, weight, sourceId, dependsOn, status)
    }
  }

  function Docs(tasks: seq<Task>): (r: seq<Record>)
    reads tasks
    ensures |r| == |tasks|
    ensures forall i :: 0 <= i < |r| ==> r[i] == tasks[i].Doc()
  {
    seq(|tasks|, i requires 0 <= i < |tasks| reads tasks => tasks[i].Doc())
  }

  /** `tasks_map`: a dict from id to task, with the dict's iteration order. */
  datatype TaskMap = TaskMap(order: seq<TaskId>, at: map<TaskId, Task>)

  ghost predicate Keyed(tm: TaskMap) {
    && NoDup(tm.order)
    && (forall id :: id in tm.order <==> id in tm.at)
    && (forall id :: id in tm.at ==> tm.at[id].id == id)
  }

  ghost function StatusesOf(tm: TaskMap): Statuses
    reads tm.at.Values`status
  {
    map id | id in tm.at :: tm.at[id].status
  }

  ghost function OriginalsOf(tm: TaskMap): map<TaskId, Option<Status>>
    reads tm.at.Values`originalStatus
  {
    map id | id in tm.at :: tm.at[id].originalStatus
  }

  /** The queue and weight of a task, which no step of a cycle changes. */
  datatype Info = Info(queue: QueueName, weight: int)

  ghost function InfosOf(tm: TaskMap): map<TaskId, Info> {
    map id | id in tm.at :: Info(tm.at[id].queue, tm.at[id].weight)
  }

  /** `graph['in']`, `graph['out']` and `parent_children`. */
  datatype Graph = Graph(ins: map<TaskId, set<TaskId>>, outs: map<TaskId, set<TaskId>>,
                         parents: seq<TaskId>, children: map<TaskId, seq<TaskId>>)

  function Prereqs(g: Graph, id: TaskId): set<TaskId> {
    if id in g.ins then g.ins[id] else {}
  }

  function Dependents(g: Graph, id: TaskId): set<TaskId> {
    if id in g.outs then g.outs[id] else {}
  }

  function Children(g: Graph, id: TaskId): seq<TaskId> {
    if id in g.children then g.children[id] else []
  }

  /** `parents` lists the keys of `children`, each once. */
  ghost predicate ParentsListed(g: Graph) {
    && NoDup(g.parents)
    && (forall p :: p in g.parents <==> p in g.children)
  }

  /** The step a failure takes: from a task to one that depends on it, or from a
      child to its parent. */
  predicate FailureEdge(g: Graph, a: TaskId, b: TaskId) {
    b in Dependents(g, a) || a in Children(g, b)
  }

  /** `tasks_map[id].status = v`, seen through the map of statuses. */
  method SetStatus(tm: TaskMap, id: TaskId, v: Status)
    requires Keyed(tm) && id in tm.at
    modifies tm.at.Values`status
    ensures StatusesOf(tm) == old(StatusesOf(tm))[id := v]
    ensures OriginalsOf(tm) == old(OriginalsOf(tm))
  {
    tm.at[id].status := v;
  }
}

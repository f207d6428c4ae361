/** What workers and users do to the task collection, one document update at a time;
    each update is a step of the status protocol or changes nothing. */
module StatusWrites {
  import opened Collections
  import opened TaskModel
  import opened Cycle
  import opened TaskScheduling
  import Protocol = StatusProtocol

  const ANY: set<Status> := {Pending, Running, Success, Failed, Retrying, Stopped, Waiting}
  const STOPPABLE: set<Status> := ANY - {Success, Failed, Stopped}
  const RETRYABLE: set<Status> := {Failed, Stopped}

  lemma AnyIsAll()
    ensures forall x: Status :: x in ANY
  {
    forall x: Status
      ensures x in ANY
    {
      match x
      case Pending => case Running => case Success => case Failed =>
      case Retrying => case Stopped => case Waiting =>
    }
  }

  /** The first document of the task whose status passes the filter is given `status`. */
  function Rewritten(docs: seq<Record>, id: TaskId, filter: set<Status>, status: Status): (r: seq<Record>)
    ensures |r| == |docs|
  {
    if docs == [] then []
    else if docs[0].id == id && docs[0].status in filter then [docs[0].(status := status)] + docs[1..]
    else [docs[0]] + Rewritten(docs[1..], id, filter, status)
  }

  /** An upsert of a whole record: the task's document is replaced or a new one added. */
  function Upserted(docs: seq<Record>, rec: Record): seq<Record> {
    if docs == [] then [rec]
    else if docs[0].id == rec.id then [rec] + docs[1..]
    else [docs[0]] + Upserted(docs[1..], rec)
  }

  function UpsertedAll(docs: seq<Record>, recs: seq<Record>): seq<Record> {
    if recs == [] then docs else Upserted(UpsertedAll(docs, recs[..|recs| - 1]), recs[|recs| - 1])
  }

  /** One update of at most one document: the first of the task whose status passes
      the filter is given `status`, and if none passes nothing is written. */
  ghost predicate FirstUpdated(docs: seq<Record>, after: seq<Record>, id: TaskId, filter: set<Status>, status: Status) {
    || (after == docs && forall i :: 0 <= i < |docs| ==> !Passes(docs[i], id, filter))
    || exists k :: FirstPassing(docs, k, id, filter) && after == docs[k := docs[k].(status := status)]
  }

  predicate Passes(r: Record, id: TaskId, filter: set<Status>) {
    r.id == id && r.status in filter
  }

  ghost predicate FirstPassing(docs: seq<Record>, k: int, id: TaskId, filter: set<Status>) {
    0 <= k < |docs| && Passes(docs[k], id, filter) && forall i :: 0 <= i < k ==> !Passes(docs[i], id, filter)
  }

  /** With one document per task: the task's status is `status` if it passed the
      filter, and nothing else in the collection changes. */
  ghost predicate StatusGiven(docs: seq<Record>, after: seq<Record>, id: TaskId, filter: set<Status>, status: Status) {
    var m := RecordMap(docs);
    && UniqueIds(after)
    && RecordMap(after) == if id in m && m[id].status in filter then m[id := m[id].(status := status)] else m
  }

  lemma {:induction false} RewrittenIsFirst(docs: seq<Record>, id: TaskId, filter: set<Status>, status: Status)
    ensures FirstUpdated(docs, Rewritten(docs, id, filter, status), id, filter, status)
  {
    if docs != [] {
      var rest := docs[1..];
      if Passes(docs[0], id, filter) {
        assert FirstPassing(docs, 0, id, filter);
      } else {
        RewrittenIsFirst(rest, id, filter, status);
        FirstBehind(docs, Rewritten(rest, id, filter, status), id, filter, status);
      }
    }
  }

  /** A document that does not pass may be put in front. */
  lemma FirstBehind(docs: seq<Record>, after: seq<Record>, id: TaskId, filter: set<Status>, status: Status)
    requires docs != [] && !Passes(docs[0], id, filter) && FirstUpdated(docs[1..], after, id, filter, status)
    ensures FirstUpdated(docs, [docs[0]] + after, id, filter, status)
  {
    var rest := docs[1..];
    if k :| FirstPassing(rest, k, id, filter) && after == rest[k := rest[k].(status := status)] {
      assert FirstPassing(docs, k + 1, id, filter);
      assert [docs[0]] + after == docs[k + 1 := docs[k + 1].(status := status)];
    } else {
      assert [docs[0]] + after == docs;
    }
  }

  lemma {:induction false} FirstIsRewritten(docs: seq<Record>, after: seq<Record>, id: TaskId, filter: set<Status>,
                                            status: Status)
    requires FirstUpdated(docs, after, id, filter, status)
    ensures after == Rewritten(docs, id, filter, status)
  {
    RewrittenIsFirst(docs, id, filter, status);
  }

  // ---------- the worker ----------

  /** `find_one_and_update` without upsert. */
  method FindOneAndUpdate(store: TaskStore, id: TaskId, filter: set<Status>, status: Status)
    modifies store
    ensures FirstUpdated(old(store.docs), store.docs, id, filter, status)
    ensures UniqueIds(old(store.docs)) ==> StatusGiven(old(store.docs), store.docs, id, filter, status)
  {
    RewrittenIsFirst(store.docs, id, filter, status);
    if UniqueIds(store.docs) {
      RewriteChangesOne(store.docs, id, filter, status);
    }
    store.docs := Rewritten(store.docs, id, filter, status);
  }

  /** `_update_task_status`, whatever the stored status is: afterwards the task has the
      given status, and no other document has changed. */
  method UpdateTaskStatus(store: TaskStore, id: TaskId, status: Status)
    modifies store
    ensures FirstUpdated(old(store.docs), store.docs, id, ANY, status)
    ensures UniqueIds(old(store.docs)) ==>
              var m, m' := RecordMap(old(store.docs)), RecordMap(store.docs);
              && UniqueIds(store.docs) && m'.Keys == m.Keys
              && (id in m ==> m'[id] == m[id].(status := status))
              && forall t :: t in m && t != id ==> m'[t] == m[t]
  {
    hide RecordMap, FirstUpdated;
    AnyIsAll();
    FindOneAndUpdate(store, id, ANY, status);
  }

  /** The function of a worker, and the collection as it was when the function ran. */
  class WorkerFunction {
    const raises: bool
    var saw: Option<seq<Record>>

    constructor (raises: bool)
      ensures this.raises == raises && saw == None
    {
      this.raises, saw := raises, None;
    }

    method Call(store: TaskStore) returns (raised: bool)
      modifies this
      ensures raised == raises && saw == Some(store.docs)
    {
      raised, saw := raises, Some(store.docs);
    }
  }

  /** The task has status `status` now, and nothing else in the collection has changed. */
  ghost predicate NowHas(docs: seq<Record>, after: seq<Record>, id: TaskId, status: Status) {
    var m, m' := RecordMap(docs), RecordMap(after);
    && UniqueIds(after) && m'.Keys == m.Keys
    && (id in m ==> m'[id] == m[id].(status := status))
    && forall t :: t in m && t != id ==> m'[t] == m[t]
  }

  /** `execute_task`, undisturbed: the task is RUNNING while the worker's function runs;
      then it is SUCCESS, or FAILED if the function raised. */
  method ExecuteTask(store: TaskStore, id: TaskId, func: WorkerFunction)
    modifies store, func
    ensures func.saw.Some?
    ensures UniqueIds(old(store.docs)) ==> NowHas(old(store.docs), func.saw.value, id, Running)
    ensures UniqueIds(old(store.docs)) ==>
              NowHas(old(store.docs), store.docs, id, if func.raises then Failed else Success)
    ensures FirstUpdated(func.saw.value, store.docs, id, ANY, if func.raises then Failed else Success)
  {
    hide RecordMap, FirstUpdated;
    UpdateTaskStatus(store, id, Running);
    var raised := func.Call(store);
    UpdateTaskStatus(store, id, if raised then Failed else Success);
  }

  // ---------- the user ----------

  /** A blank id is replaced by a generated one. */
  function EnsureTaskId(id: TaskId, generated: TaskId): TaskId {
    if Strip(id) != "" then id else generated
  }

  /** An id with any other character than white space is kept as it is. */
  lemma GivenIdIsKept(id: TaskId, generated: TaskId)
    ensures EnsureTaskId(id, generated) == if AllSpace(id) then generated else id
  {
    var left, right := StripTrims(id);
    if Strip(id) != "" {
      var c := Strip(id)[0];
      assert c in Strip(id) && c in left + Strip(id) + right;
    }
  }

  method TaskSubmit(store: TaskStore, serviceRunning: bool, queue: QueueName, id: TaskId, generated: TaskId,
                    weight: int, dependsOn: seq<TaskId>) returns (r: Option<TaskId>)
    modifies store
    ensures r.None? <==> !serviceRunning
    ensures r.None? ==> store.docs == old(store.docs)
    ensures r.Some? ==>
              && r.value == (if AllSpace(id) then generated else id)
              && store.docs == Upserted(old(store.docs), Record(r.value, queue, weight, "", dependsOn, Pending))
    ensures r.Some? && UniqueIds(old(store.docs)) ==>
              && UniqueIds(store.docs)
              && RecordMap(store.docs) ==
                   RecordMap(old(store.docs))[r.value := Record(r.value, queue, weight, "", dependsOn, Pending)]
  {
    hide RecordMap, Upserted;
    if !serviceRunning {
      return None;
    }
    var own := EnsureTaskId(id, generated);
    GivenIdIsKept(id, generated);
    if UniqueIds(store.docs) {
      UpsertSetsOne(store.docs, Record(own, queue, weight, "", dependsOn, Pending));
    }
    store.docs := Upserted(store.docs, Record(own, queue, weight, "", dependsOn, Pending));
    r := Some(own);
  }

  /** After a batch of subtasks with the ids `ids` each is stored as a PENDING document with
      the given queue, weight and parent and no dependencies; other tasks stay. */
  ghost predicate SubtasksStored(docs: seq<Record>, after: seq<Record>, ids: seq<TaskId>, queue: QueueName, weight: int,
                                 source: TaskId) {
    var m, m' := RecordMap(docs), RecordMap(after);
    && UniqueIds(after)
    && (forall i :: 0 <= i < |ids| ==> ids[i] in m' && m'[ids[i]] == Record(ids[i], queue, weight, source, [], Pending))
    && (forall t :: t in m' ==> t in m || t in ids)
    && (forall t :: t in m && t !in ids ==> t in m' && m'[t] == m[t])
  }

  /** The records of a batch of subtasks; the i-th blank id is replaced by `generated(i)`. */
  function Subtasks(queue: QueueName, ids: seq<TaskId>, generated: nat -> TaskId, weight: int,
                    source: TaskId): (r: seq<Record>)
    ensures |r| == |ids|
    ensures forall i :: 0 <= i < |r| ==>
              && r[i].queue == queue && r[i].sourceId == source && r[i].weight == weight
              && r[i].dependsOn == [] && r[i].status.Pending?
  {
    seq(|ids|, i requires 0 <= i < |ids| =>
      Record(EnsureTaskId(ids[i], generated(i)), queue, weight, source, [], Pending))
  }

  method SubtasksCreate(store: TaskStore, serviceRunning: bool, queue: QueueName, ids: seq<TaskId>,
                        generated: nat -> TaskId, weight: int, source: TaskId) returns (r: Option<seq<TaskId>>)
    modifies store
    ensures r.None? <==> !serviceRunning
    ensures r.None? ==> store.docs == old(store.docs)
    ensures r.Some? ==>
              && store.docs == UpsertedAll(old(store.docs), Subtasks(queue, ids, generated, weight, source))
              && |r.value| == |ids|
              && forall i :: 0 <= i < |ids| ==> r.value[i] == if AllSpace(ids[i]) then generated(i) else ids[i]
    ensures r.Some? && UniqueIds(old(store.docs)) ==>
              SubtasksStored(old(store.docs), store.docs, r.value, queue, weight, source)
  {
    hide RecordMap, Upserted, UpsertedAll;
    if !serviceRunning {
      return None;
    }
    ghost var recs := Subtasks(queue, ids, generated, weight, source);
    var own: seq<TaskId> := [];
    NoUpserts(store.docs);
    assert recs[..0] == [];
    for i := 0 to |ids|
      invariant |own| == i && forall k :: 0 <= k < i ==>
                  own[k] == recs[k].id == if AllSpace(ids[k]) then generated(k) else ids[k]
      invariant store.docs == UpsertedAll(old(store.docs), recs[..i])
    {
      UpsertedNext(old(store.docs), recs, i);
      var id := EnsureTaskId(ids[i], generated(i));
      GivenIdIsKept(ids[i], generated(i));
      SnocPrefix(recs, i);
      own := own + [id];
      store.docs := Upserted(store.docs, Record(id, queue, weight, source, [], Pending));
    }
    assert recs[..|ids|] == recs;
    if UniqueIds(old(store.docs)) {
      UpsertsSetAll(old(store.docs), recs);
      BatchIsStored(old(store.docs), store.docs, recs, own, queue, weight, source);
    }
    r := Some(own);
  }

  lemma {:induction false} BatchIsStored(docs: seq<Record>, after: seq<Record>, recs: seq<Record>, ids: seq<TaskId>,
                                         queue: QueueName, weight: int, source: TaskId)
    requires |ids| == |recs| && UniqueIds(after) && RecordMap(after) == RecordMap(docs) + RecordMap(recs)
    requires forall i :: 0 <= i < |ids| ==> recs[i] == Record(ids[i], queue, weight, source, [], Pending)
    ensures SubtasksStored(docs, after, ids, queue, weight, source)
  {
    hide RecordMap;
    forall t
      ensures t in RecordMap(recs) <==> t in ids
      ensures t in RecordMap(recs) ==> RecordMap(recs)[t] == Record(t, queue, weight, source, [], Pending)
    {
      MappedRecord(recs, t);
    }
  }

  /** `task_stop`: an open task becomes STOPPED; a final one, and every other task,
      stays as it is. */
  method TaskStop(store: TaskStore, id: TaskId)
    modifies store
    ensures FirstUpdated(old(store.docs), store.docs, id, STOPPABLE, Stopped)
    ensures UniqueIds(old(store.docs)) ==>
              var m, m' := RecordMap(old(store.docs)), RecordMap(store.docs);
              && UniqueIds(store.docs) && m'.Keys == m.Keys
              && (id in m ==> Final(m'[id].status))
              && (id in m ==> m'[id] == if Final(m[id].status) then m[id] else m[id].(status := Stopped))
              && forall t :: t in m && t != id ==> m'[t] == m[t]
  {
    hide RecordMap, FirstUpdated;
    AnyIsAll();
    FindOneAndUpdate(store, id, STOPPABLE, Stopped);
  }

  /** `task_retry`: a FAILED or STOPPED task becomes PENDING; one in another status, and
      every other task, stays as it is. */
  method TaskRetry(store: TaskStore, id: TaskId)
    modifies store
    ensures FirstUpdated(old(store.docs), store.docs, id, RETRYABLE, Pending)
    ensures UniqueIds(old(store.docs)) ==>
              var m, m' := RecordMap(old(store.docs)), RecordMap(store.docs);
              && UniqueIds(store.docs) && m'.Keys == m.Keys
              && (id in m ==> !m'[id].status.Failed? && !m'[id].status.Stopped?)
              && (id in m ==>
                    var retried := m[id].status.Failed? || m[id].status.Stopped?;
                    m'[id] == if retried then m[id].(status := Pending) else m[id])
              && forall t :: t in m && t != id ==> m'[t] == m[t]
  {
    hide RecordMap, FirstUpdated;
    FindOneAndUpdate(store, id, RETRYABLE, Pending);
  }

  // ---------- what they mean ----------

  lemma {:induction false} RewrittenAt(docs: seq<Record>, id: TaskId, filter: set<Status>, status: Status, i: nat)
    requires UniqueIds(docs) && i < |docs|
    ensures Rewritten(docs, id, filter, status)[i] ==
              if docs[i].id == id && docs[i].status in filter then docs[i].(status := status) else docs[i]
  {
    if i > 0 && !(docs[0].id == id && docs[0].status in filter) {
      RewrittenAt(docs[1..], id, filter, status, i - 1);
    }
  }

  lemma {:induction false} UpsertedSize(docs: seq<Record>, rec: Record)
    ensures |Upserted(docs, rec)| == |docs| + if exists k :: 0 <= k < |docs| && docs[k].id == rec.id then 0 else 1
  {
    if docs != [] && docs[0].id != rec.id {
      UpsertedSize(docs[1..], rec);
      assert forall k :: 0 < k < |docs| ==> docs[k] == docs[1..][k - 1];
    }
  }

  lemma {:induction false} UpsertedAt(docs: seq<Record>, rec: Record, i: nat)
    requires UniqueIds(docs) && i < |Upserted(docs, rec)|
    ensures i <= |docs| && Upserted(docs, rec)[i] == if i == |docs| || docs[i].id == rec.id then rec else docs[i]
  {
    if docs != [] && docs[0].id != rec.id && i > 0 {
      UpsertedAt(docs[1..], rec, i - 1);
    }
  }

  /** With one document per task, the collection is a map from tasks to documents. */
  lemma {:induction false} MapsAgree(docs: seq<Record>, m: map<TaskId, Record>)
    requires UniqueIds(docs)
    requires forall i :: 0 <= i < |docs| ==> docs[i].id in m && m[docs[i].id] == docs[i]
    requires forall id :: id in m ==> exists i :: 0 <= i < |docs| && docs[i].id == id
    ensures RecordMap(docs) == m
  {
    forall id
      ensures id in RecordMap(docs) <==> id in m
      ensures id in m ==> RecordMap(docs)[id] == m[id]
    {
      MappedRecord(docs, id);
    }
  }

  lemma {:induction false} DocumentIn(docs: seq<Record>, i: nat)
    requires UniqueIds(docs) && i < |docs|
    ensures docs[i].id in RecordMap(docs) && RecordMap(docs)[docs[i].id] == docs[i]
  {
    MappedRecord(docs, docs[i].id);
  }

  /** A filtered update changes the status of that one task, if it passes the filter. */
  lemma {:induction false} RewriteChangesOne(docs: seq<Record>, id: TaskId, filter: set<Status>, status: Status)
    requires UniqueIds(docs)
    ensures var r, m := Rewritten(docs, id, filter, status), RecordMap(docs);
            && UniqueIds(r)
            && RecordMap(r) == if id in m && m[id].status in filter then m[id := m[id].(status := status)] else m
  {
    hide RecordMap, Rewritten;
    var r, m := Rewritten(docs, id, filter, status), RecordMap(docs);
    var t := if id in m && m[id].status in filter then m[id := m[id].(status := status)] else m;
    forall i | 0 <= i < |docs|
      ensures r[i].id == docs[i].id && docs[i].id in t && t[docs[i].id] == r[i]
    {
      RewrittenAt(docs, id, filter, status, i);
      DocumentIn(docs, i);
    }
    forall x | x in t
      ensures exists i :: 0 <= i < |r| && r[i].id == x
    {
      MappedRecord(docs, x);
      var i :| 0 <= i < |docs| && docs[i].id == x;
      assert r[i].id == x;
    }
    MapsAgree(r, t);
  }

  /** An upsert sets that one task's document. */
  lemma {:induction false} UpsertSetsOne(docs: seq<Record>, rec: Record)
    requires UniqueIds(docs)
    ensures UniqueIds(Upserted(docs, rec)) && RecordMap(Upserted(docs, rec)) == RecordMap(docs)[rec.id := rec]
  {
    hide RecordMap, Upserted;
    var r, m := Upserted(docs, rec), RecordMap(docs);
    UpsertedSize(docs, rec);
    forall i | 0 <= i < |r|
      ensures r[i] == if i == |docs| || docs[i].id == rec.id then rec else docs[i]
      ensures i < |docs| ==> docs[i].id in m && m[docs[i].id] == docs[i]
    {
      UpsertedAt(docs, rec, i);
      if i < |docs| {
        DocumentIn(docs, i);
      }
    }
    var t := m[rec.id := rec];
    forall x | x in t
      ensures exists i :: 0 <= i < |r| && r[i].id == x
    {
      if x in m {
        MappedRecord(docs, x);
        var i :| 0 <= i < |docs| && docs[i].id == x;
        assert r[i].id == x;
      } else {
        MappedRecord(docs, x);
        assert r[|docs|].id == x;
      }
    }
    MapsAgree(r, t);
  }

  lemma {:induction false} NoUpserts(docs: seq<Record>)
    ensures UpsertedAll(docs, []) == docs
  {
  }

  lemma {:induction false} UpsertedNext(docs: seq<Record>, recs: seq<Record>, i: nat)
    requires i < |recs|
    ensures UpsertedAll(docs, recs[..i + 1]) == Upserted(UpsertedAll(docs, recs[..i]), recs[i])
  {
    SnocPrefix(recs, i);
  }

  /** Upserts set the documents of their tasks, the last one of a task winning, and
      leave the others alone. */
  lemma {:induction false} UpsertsSetAll(docs: seq<Record>, recs: seq<Record>)
    requires UniqueIds(docs)
    ensures var r := UpsertedAll(docs, recs);
            UniqueIds(r) && RecordMap(r) == RecordMap(docs) + RecordMap(recs)
  {
    hide RecordMap, Upserted, UniqueIds;
    RecordMapNext(recs);
    if recs != [] {
      var n := |recs| - 1;
      UpsertsSetAll(docs, recs[..n]);
      UpsertSetsOne(UpsertedAll(docs, recs[..n]), recs[n]);
    }
  }

  lemma {:induction false} RecordMapNext(recs: seq<Record>)
    ensures RecordMap(recs) ==
              if recs == [] then map[] else RecordMap(recs[..|recs| - 1])[recs[|recs| - 1].id := recs[|recs| - 1]]
  {
  }

  /** Seen as a map, the collection takes a step of the protocol, or stays as it is:
      these operations write nothing but what the protocol's outside steps allow. */
  ghost predicate IsStep(s: Protocol.State, step: Protocol.Step, docs: seq<Record>) {
    && UniqueIds(docs)
    && (s.db == RecordMap(docs)
        || exists s': Protocol.State :: s'.db == RecordMap(docs) && Protocol.OutsideStep(s, step, s'))
  }

  lemma {:induction false} WritesAreSteps(s: Protocol.State, docs: seq<Record>, id: TaskId, rec: Record)
    requires UniqueIds(docs) && s.db == RecordMap(docs)
    ensures forall status :: status in {Running, Success, Failed} ==>
              IsStep(s, Protocol.WorkerWrite(id, status), Rewritten(docs, id, ANY, status))
    ensures IsStep(s, Protocol.Stop(id), Rewritten(docs, id, STOPPABLE, Stopped))
    ensures IsStep(s, Protocol.Retry(id), Rewritten(docs, id, RETRYABLE, Pending))
    ensures rec.status.Pending? ==> IsStep(s, Protocol.Submit(rec), Upserted(docs, rec))
  {
    hide RecordMap, Rewritten, Upserted;
    forall status | status in {Running, Success, Failed}
      ensures IsStep(s, Protocol.WorkerWrite(id, status), Rewritten(docs, id, ANY, status))
    {
      RewriteChangesOne(docs, id, ANY, status);
      assert forall x: Status :: x in ANY by {
        AnyIsAll();
      }
      var r := s.(db := RecordMap(Rewritten(docs, id, ANY, status)));
      assert id in s.db ==> Protocol.OutsideStep(s, Protocol.WorkerWrite(id, status), r);
    }
    RewriteChangesOne(docs, id, STOPPABLE, Stopped);
    var stopped := s.(db := RecordMap(Rewritten(docs, id, STOPPABLE, Stopped)));
    assert id in s.db && !Final(s.db[id].status) ==> Protocol.OutsideStep(s, Protocol.Stop(id), stopped);
    RewriteChangesOne(docs, id, RETRYABLE, Pending);
    var reset := s.(db := RecordMap(Rewritten(docs, id, RETRYABLE, Pending)), log := s.log + [Protocol.Reset(id)]);
    assert id in s.db && s.db[id].status in RETRYABLE ==> Protocol.OutsideStep(s, Protocol.Retry(id), reset);
    UpsertSetsOne(docs, rec);
    var added := s.(db := RecordMap(Upserted(docs, rec)), log := s.log + [Protocol.Reset(rec.id)]);
    assert rec.status.Pending? ==> Protocol.OutsideStep(s, Protocol.Submit(rec), added);
  }
}

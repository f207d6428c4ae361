/** The retrying thread pool as a state machine: submitters and workers take atomic
    steps in any order. Code under the pool's lock is one step; a queue operation is
    one step; a submission, which holds the lock across a queue operation, is three. */
module ThreadPool {
  import opened Collections

  datatype Status = Pending | Running | Success | Failed | Retrying

  /** A submitted task; `invocations` counts the calls of its function, `refusals` the
      attempts that failed before the call. */
  datatype Job = Job(maxRetries: int, status: Status, retryCount: nat, invocations: nat, refusals: nat)

  /** Where a worker is in its loop, and with which task. */
  datatype Worker =
    | Free
    | Got(id: nat)
    | Calling(id: nat)
    | Returned(id: nat)
    | Caught(id: nat)
    | Counted(id: nat)
    | Sleeping(id: nat)
    | Leaving

  /** The submission that holds the lock: its task is registered, or also enqueued. */
  datatype Lock = Open | Registered | Enqueued

  datatype Pool = Pool(results: map<nat, Job>, queue: seq<nat>, maxSize: nat, unfinished: int,
                       workers: seq<Worker>, failed: seq<nat>, completed: nat, total: nat, lock: Lock)

  datatype Step =
    | Register(maxRetries: int)
    | Put
    | Full
    | Commit
    | Get(w: nat)
    | SetRunning(w: nat)
    | Refuse(w: nat)
    | Return(w: nat)
    | Raise(w: nat)
    | Succeed(w: nat)
    | CountFailure(w: nat)
    | Retry(w: nat)
    | GiveUp(w: nat)
    | Requeue(w: nat)
    | TaskDone(w: nat)

  predicate Done(s: Status) {
    s.Success? || s.Failed?
  }

  predicate Room(p: Pool) {
    p.maxSize == 0 || |p.queue| < p.maxSize
  }

  predicate Holds(w: Worker) {
    !w.Free? && !w.Leaving?
  }

  function At(p: Pool, w: nat, next: Worker): Pool
    requires w < |p.workers|
  {
    p.(workers := p.workers[w := next])
  }

  function Update(p: Pool, id: nat, job: Job): Pool {
    p.(results := p.results[id := job])
  }

  /** A step by which worker `w`, with a task in hand, changes its task and moves on. */
  ghost predicate WorkerStep(p: Pool, step: Step, p': Pool, w: nat, id: nat)
    requires w < |p.workers| && id in p.results
  {
    var me, job := p.workers[w], p.results[id];
    match step
    case SetRunning(_) =>
      me == Got(id) && p.lock.Open?
      && p' == At(Update(p, id, job.(status := Running)), w, Calling(id))
    // the function has no name to log: the attempt fails before the call
    case Refuse(_) =>
      me == Calling(id) && p' == At(Update(p, id, job.(refusals := job.refusals + 1)), w, Caught(id))
    case Return(_) =>
      me == Calling(id) && p' == At(Update(p, id, job.(invocations := job.invocations + 1)), w, Returned(id))
    case Raise(_) =>
      me == Calling(id) && p' == At(Update(p, id, job.(invocations := job.invocations + 1)), w, Caught(id))
    case Succeed(_) =>
      me == Returned(id) && p.lock.Open?
      && p' == At(Update(p, id, job.(status := Success)), w, Leaving).(completed := p.completed + 1)
    case CountFailure(_) =>
      me == Caught(id) && p.lock.Open?
      && p' == At(Update(p, id, job.(retryCount := job.retryCount + 1)), w, Counted(id))
    case Retry(_) =>
      me == Counted(id) && p.lock.Open? && job.retryCount <= job.maxRetries
      && p' == At(Update(p, id, job.(status := Retrying)), w, Sleeping(id))
    case GiveUp(_) =>
      me == Counted(id) && p.lock.Open? && job.retryCount > job.maxRetries
      && p' == At(Update(p, id, job.(status := Failed)), w, Leaving)
                 .(failed := p.failed + [id], completed := p.completed + 1)
    case Requeue(_) =>
      me == Sleeping(id) && Room(p)
      && p' == At(p, w, Leaving).(queue := p.queue + [id], unfinished := p.unfinished + 1)
    case _ => false
  }

  ghost predicate Next(p: Pool, step: Step, p': Pool) {
    match step
    case Register(maxRetries) =>
      p.lock.Open? && p' == Update(p, p.total, Job(maxRetries, Pending, 0, 0, 0)).(lock := Registered)
    case Put =>
      p.lock.Registered? && Room(p)
      && p' == p.(queue := p.queue + [p.total], unfinished := p.unfinished + 1, lock := Enqueued)
    case Full =>
      p.lock.Registered? && !Room(p) && p' == p.(lock := Open)
    case Commit =>
      p.lock.Enqueued? && p' == p.(total := p.total + 1, lock := Open)
    case Get(w) =>
      w < |p.workers| && p.workers[w].Free? && p.queue != []
      && p' == At(p, w, Got(p.queue[0])).(queue := p.queue[1..])
    case TaskDone(w) =>
      w < |p.workers| && p.workers[w].Leaving?
      && p' == At(p, w, Free).(unfinished := p.unfinished - 1)
    case _ =>
      step.w < |p.workers| && Holds(p.workers[step.w]) && p.workers[step.w].id in p.results
      && WorkerStep(p, step, p', step.w, p.workers[step.w].id)
  }

  ghost predicate Init(p: Pool) {
    && p.results == map[] && p.queue == [] && p.unfinished == 0 && p.failed == [] && p.completed == 0 && p.total == 0
    && p.lock.Open? && forall w :: 0 <= w < |p.workers| ==> p.workers[w].Free?
  }

  // ---------- the invariant ----------

  /** How many workers are between `get` and `task_done`. */
  function Busy(workers: seq<Worker>): nat {
    if workers == [] then 0 else (if workers[0].Free? then 0 else 1) + Busy(workers[1..])
  }

  lemma {:induction false} BusyUpdate(workers: seq<Worker>, w: nat, next: Worker)
    requires w < |workers|
    ensures Busy(workers[w := next]) ==
              Busy(workers) - (if workers[w].Free? then 0 else 1) + (if next.Free? then 0 else 1)
  {
    if w == 0 {
      assert workers[w := next][1..] == workers[1..];
    } else {
      BusyUpdate(workers[1..], w - 1, next);
      assert workers[w := next][1..] == workers[1..][w - 1 := next];
    }
  }

  lemma {:induction false} NobodyBusy(workers: seq<Worker>)
    ensures Busy(workers) == 0 <==> forall w :: 0 <= w < |workers| ==> workers[w].Free?
  {
    if workers != [] {
      NobodyBusy(workers[1..]);
      assert forall w :: 0 < w < |workers| ==> workers[w] == workers[1..][w - 1];
    }
  }

  /** The tasks that have been enqueued at least once. */
  function Entered(p: Pool): nat {
    if p.lock.Enqueued? then p.total + 1 else p.total
  }

  /** The failures a task may have: `max_retries` + 1, or one when that is negative. */
  function Limit(job: Job): nat {
    if job.maxRetries < 0 then 1 else job.maxRetries + 1
  }

  /** Retry accounting of a task while a worker is at `me` with it, or none is. */
  ghost predicate Accounted(job: Job, me: Worker) {
    var tried := job.status.Success? || me.Returned? || me.Caught?;
    && job.invocations + job.refusals == job.retryCount + (if tried then 1 else 0)
    && (job.status.Pending? ==> job.retryCount == 0) && (job.status.Retrying? ==> job.retryCount >= 1)
    && (if job.status.Failed? then job.retryCount == Limit(job)
        else if me.Counted? then 1 <= job.retryCount <= Limit(job)
        else job.retryCount < Limit(job))
  }

  ghost predicate StatusFits(job: Job, me: Worker) {
    match me
    case Got(_) => job.status.Pending? || job.status.Retrying?
    case Sleeping(_) => job.status.Retrying?
    case _ => job.status.Running?
  }

  ghost predicate HeldBy(workers: seq<Worker>, w: int, id: nat) {
    0 <= w < |workers| && Holds(workers[w]) && workers[w].id == id
  }

  /** The open tasks are those queued, once each, and those in the hands of one worker. */
  ghost predicate Placed(queue: seq<nat>, workers: seq<Worker>, open: set<nat>) {
    && NoDup(queue)
    && (forall id :: id in queue ==> id in open)
    && (forall w, id :: HeldBy(workers, w, id) ==> id in open && id !in queue)
    && (forall v, w, id :: HeldBy(workers, v, id) && HeldBy(workers, w, id) ==> v == w)
    && (forall id :: id in open && id !in queue ==> exists w :: HeldBy(workers, w, id))
  }

  lemma PlacedEnqueue(queue: seq<nat>, workers: seq<Worker>, open: set<nat>, id: nat)
    requires Placed(queue, workers, open) && id !in open
    ensures Placed(queue + [id], workers, open + {id})
  {
  }

  lemma PlacedGet(queue: seq<nat>, workers: seq<Worker>, open: set<nat>, w: nat)
    requires Placed(queue, workers, open) && queue != [] && w < |workers| && !Holds(workers[w])
    ensures Placed(queue[1..], workers[w := Got(queue[0])], open)
  {
    var id, next := queue[0], workers[w := Got(queue[0])];
    assert queue == [id] + queue[1..];
    assert forall v, x :: HeldBy(next, v, x) <==> if v == w then x == id else HeldBy(workers, v, x);
    assert HeldBy(next, w, id);
    forall x | x in open && x !in queue[1..]
      ensures exists v :: HeldBy(next, v, x)
    {
      if x != id {
        var v :| HeldBy(workers, v, x);
        assert HeldBy(next, v, x);
      }
    }
  }

  /** Worker `w` moves on with its task, or stays without one. */
  lemma PlacedMove(queue: seq<nat>, workers: seq<Worker>, open: set<nat>, w: nat, me: Worker)
    requires Placed(queue, workers, open) && w < |workers| && Holds(workers[w]) == Holds(me)
    requires Holds(me) ==> me.id == workers[w].id
    ensures Placed(queue, workers[w := me], open)
  {
    var next := workers[w := me];
    assert forall v, x :: HeldBy(next, v, x) <==> HeldBy(workers, v, x);
    forall x | x in open && x !in queue
      ensures exists v :: HeldBy(next, v, x)
    {
      var v :| HeldBy(workers, v, x);
      assert HeldBy(next, v, x);
    }
  }

  /** Worker `w` puts its task back, or is done with it. */
  lemma PlacedRelease(queue: seq<nat>, workers: seq<Worker>, open: set<nat>, w: nat, id: nat)
    requires Placed(queue, workers, open) && HeldBy(workers, w, id)
    ensures Placed(queue + [id], workers[w := Leaving], open)
    ensures Placed(queue, workers[w := Leaving], open - {id})
  {
    var next := workers[w := Leaving];
    assert forall v, x :: HeldBy(next, v, x) <==> HeldBy(workers, v, x) && v != w;
    forall x | x in open && x !in queue && x != id
      ensures exists v :: HeldBy(next, v, x)
    {
      var v :| HeldBy(workers, v, x);
      assert HeldBy(next, v, x);
    }
  }

  /** `results` holds the tasks 0 to `total` - 1, and the one being submitted or
      left behind by a submission that found the queue full. */
  ghost predicate Registry(p: Pool) {
    && (forall id :: 0 <= id < p.total ==> id in p.results)
    && (forall id :: id in p.results ==> id <= p.total)
    && (p.total in p.results ==> p.results[p.total].status.Pending? && Accounted(p.results[p.total], Free))
    && (!p.lock.Open? ==> p.total in p.results)
  }

  ghost predicate Statuses(p: Pool) {
    && (forall id :: id in p.queue && id in p.results ==>
          (p.results[id].status.Pending? || p.results[id].status.Retrying?) && Accounted(p.results[id], Free))
    && (forall w, id :: HeldBy(p.workers, w, id) && id in p.results ==>
          StatusFits(p.results[id], p.workers[w]) && Accounted(p.results[id], p.workers[w]))
    && (forall id :: id in p.results && Done(p.results[id].status) ==> Accounted(p.results[id], Free))
  }

  ghost function DoneIds(p: Pool): set<nat> {
    set id | id in p.results && Done(p.results[id].status)
  }

  ghost function OpenIds(p: Pool): set<nat> {
    set id | id in p.results && id < Entered(p) && !Done(p.results[id].status)
  }

  ghost predicate Counts(p: Pool) {
    && p.unfinished == |p.queue| + Busy(p.workers)
    && p.completed == |DoneIds(p)|
    && NoDup(p.failed)
    && (forall id :: id in p.failed <==> id in p.results && p.results[id].status.Failed?)
  }

  ghost predicate Inv(p: Pool) {
    Registry(p) && Placed(p.queue, p.workers, OpenIds(p)) && Statuses(p) && Counts(p)
  }

  // ---------- the steps keep it ----------

  /** Registering a task, or leaving it behind, opens none: it is open once enqueued. */
  lemma SubmitOpens(p: Pool, step: Step, p': Pool)
    requires Registry(p) && Next(p, step, p') && (step.Register? || step.Put? || step.Full? || step.Commit?)
    ensures DoneIds(p') == DoneIds(p)
    ensures OpenIds(p') == if step.Put? then OpenIds(p) + {p.total} else OpenIds(p)
    ensures p.total !in OpenIds(p) || step.Commit?
    ensures Registry(p')
  {
  }

  lemma SubmitStatuses(p: Pool, step: Step, p': Pool)
    requires Registry(p) && Statuses(p) && Placed(p.queue, p.workers, OpenIds(p))
    requires Next(p, step, p') && (step.Register? || step.Put? || step.Full? || step.Commit?)
    ensures Statuses(p')
  {
    hide Placed, Accounted, StatusFits;
    HandsInOpen(p);
  }

  lemma SubmitCounts(p: Pool, step: Step, p': Pool)
    requires Registry(p) && Counts(p) && DoneIds(p') == DoneIds(p)
    requires Next(p, step, p') && (step.Register? || step.Put? || step.Full? || step.Commit?)
    ensures Counts(p')
  {
    hide DoneIds, Busy, Accounted;
  }

  lemma SubmitKeeps(p: Pool, step: Step, p': Pool)
    requires Inv(p) && Next(p, step, p') && (step.Register? || step.Put? || step.Full? || step.Commit?)
    ensures Inv(p')
  {
    hide Placed, Statuses, Counts, Registry, OpenIds, DoneIds;
    SubmitOpens(p, step, p');
    SubmitStatuses(p, step, p');
    SubmitCounts(p, step, p');
    if step.Put? {
      PlacedEnqueue(p.queue, p.workers, OpenIds(p), p.total);
    }
  }

  /** Queued and held tasks are open. */
  lemma HandsInOpen(p: Pool)
    requires Placed(p.queue, p.workers, OpenIds(p))
    ensures forall id :: id in p.queue ==> id in OpenIds(p)
    ensures forall w, id :: HeldBy(p.workers, w, id) ==> id in OpenIds(p) && id !in p.queue
    ensures forall v, w, id :: HeldBy(p.workers, v, id) && HeldBy(p.workers, w, id) ==> v == w
  {
  }

  lemma GetKeeps(p: Pool, w: nat, p': Pool)
    requires Inv(p) && Next(p, Get(w), p')
    ensures Inv(p')
  {
    hide Placed, Busy;
    var id := p.queue[0];
    HandsInOpen(p);
    PlacedGet(p.queue, p.workers, OpenIds(p), w);
    BusyUpdate(p.workers, w, Got(id));
    assert DoneIds(p') == DoneIds(p) && OpenIds(p') == OpenIds(p);
    assert p.queue == [id] + p'.queue;
    assert forall v, x :: HeldBy(p'.workers, v, x) <==> if v == w then x == id else HeldBy(p.workers, v, x);
  }

  lemma TaskDoneKeeps(p: Pool, w: nat, p': Pool)
    requires Inv(p) && Next(p, TaskDone(w), p')
    ensures Inv(p')
  {
    hide Placed, Busy;
    PlacedMove(p.queue, p.workers, OpenIds(p), w, Free);
    BusyUpdate(p.workers, w, Free);
    assert DoneIds(p') == DoneIds(p) && OpenIds(p') == OpenIds(p);
    assert forall v, x :: HeldBy(p'.workers, v, x) <==> HeldBy(p.workers, v, x);
  }

  /** Worker `w` changes its task and keeps it. */
  lemma MoveKeeps(p: Pool, p': Pool, w: nat, id: nat, job: Job, me: Worker)
    requires Inv(p) && HeldBy(p.workers, w, id) && id in p.results
    requires p' == At(Update(p, id, job), w, me) && Holds(me) && me.id == id
    requires id < p.total && !Done(job.status) && StatusFits(job, me) && Accounted(job, me)
    ensures Inv(p')
  {
    hide Placed, Busy, StatusFits, Accounted;
    HandsInOpen(p);
    PlacedMove(p.queue, p.workers, OpenIds(p), w, me);
    BusyUpdate(p.workers, w, me);
    assert DoneIds(p') == DoneIds(p) && OpenIds(p') == OpenIds(p);
    assert forall v, x :: HeldBy(p'.workers, v, x) <==> HeldBy(p.workers, v, x);
  }

  lemma RequeueKeeps(p: Pool, p': Pool, w: nat, id: nat)
    requires Inv(p) && HeldBy(p.workers, w, id) && id in p.results && p.workers[w].Sleeping?
    requires p' == At(p, w, Leaving).(queue := p.queue + [id], unfinished := p.unfinished + 1)
    ensures Inv(p')
  {
    hide Placed, Busy;
    HandsInOpen(p);
    PlacedRelease(p.queue, p.workers, OpenIds(p), w, id);
    BusyUpdate(p.workers, w, Leaving);
    assert DoneIds(p') == DoneIds(p) && OpenIds(p') == OpenIds(p);
    assert forall v, x :: HeldBy(p'.workers, v, x) <==> HeldBy(p.workers, v, x) && v != w;
    assert StatusFits(p.results[id], p.workers[w]) && Accounted(p.results[id], p.workers[w]);
  }

  ghost predicate Finishes(p: Pool, p': Pool, w: nat, id: nat, job: Job) {
    && HeldBy(p.workers, w, id) && id in p.results && id < p.total && Done(job.status)
    && p' == At(Update(p, id, job), w, Leaving)
             .(failed := if job.status.Failed? then p.failed + [id] else p.failed, completed := p.completed + 1)
  }

  lemma FinishCounts(p: Pool, p': Pool, w: nat, id: nat, job: Job)
    requires Counts(p) && Finishes(p, p', w, id, job) && id in OpenIds(p)
    ensures Counts(p') && OpenIds(p') == OpenIds(p) - {id}
  {
    hide Busy;
    BusyUpdate(p.workers, w, Leaving);
    assert id !in DoneIds(p) && DoneIds(p') == DoneIds(p) + {id};
  }

  /** Worker `w` finishes its task: SUCCESS, or FAILED for good. */
  lemma FinishKeeps(p: Pool, p': Pool, w: nat, id: nat, job: Job)
    requires Inv(p) && Finishes(p, p', w, id, job) && Accounted(job, Free)
    ensures Inv(p')
  {
    hide Placed, Counts, OpenIds, StatusFits, Accounted;
    HandsInOpen(p);
    FinishCounts(p, p', w, id, job);
    PlacedRelease(p.queue, p.workers, OpenIds(p), w, id);
    assert forall v, x :: HeldBy(p'.workers, v, x) <==> HeldBy(p.workers, v, x) && v != w;
  }

  lemma WorkerKeeps(p: Pool, step: Step, p': Pool, w: nat, id: nat)
    requires Inv(p) && HeldBy(p.workers, w, id) && id in p.results && WorkerStep(p, step, p', w, id)
    ensures Inv(p')
  {
    hide Placed, Busy, Counts, DoneIds;
    HandsInOpen(p);
    var job, me := p.results[id], p.workers[w];
    assert StatusFits(job, me) && Accounted(job, me);
    match step
    case SetRunning(_) => MoveKeeps(p, p', w, id, job.(status := Running), Calling(id));
    case Refuse(_) =>
      MoveKeeps(p, p', w, id, job.(refusals := job.refusals + 1), Caught(id));
    case Return(_) => MoveKeeps(p, p', w, id, job.(invocations := job.invocations + 1), Returned(id));
    case Raise(_) => MoveKeeps(p, p', w, id, job.(invocations := job.invocations + 1), Caught(id));
    case CountFailure(_) => MoveKeeps(p, p', w, id, job.(retryCount := job.retryCount + 1), Counted(id));
    case Retry(_) => MoveKeeps(p, p', w, id, job.(status := Retrying), Sleeping(id));
    case Succeed(_) => FinishKeeps(p, p', w, id, job.(status := Success));
    case GiveUp(_) => FinishKeeps(p, p', w, id, job.(status := Failed));
    case Requeue(_) => RequeueKeeps(p, p', w, id);
  }

  lemma StepKeeps(p: Pool, step: Step, p': Pool)
    requires Inv(p) && Next(p, step, p')
    ensures Inv(p')
  {
    hide Inv, WorkerStep;
    match step
    case Register(_) => SubmitKeeps(p, step, p');
    case Put => SubmitKeeps(p, step, p');
    case Full => SubmitKeeps(p, step, p');
    case Commit => SubmitKeeps(p, step, p');
    case Get(w) => GetKeeps(p, w, p');
    case TaskDone(w) => TaskDoneKeeps(p, w, p');
    case _ => WorkerKeeps(p, step, p', step.w, p.workers[step.w].id);
  }

  // ---------- runs ----------

  ghost predicate IsRun(run: seq<Pool>, steps: seq<Step>) {
    && |run| == |steps| + 1 && Init(run[0])
    && forall i :: 0 <= i < |steps| ==> Next(run[i], steps[i], run[i + 1])
  }

  lemma InitKeeps(p: Pool)
    requires Init(p)
    ensures Inv(p)
  {
    NobodyBusy(p.workers);
    assert DoneIds(p) == {};
  }

  lemma {:induction false} RunKeeps(run: seq<Pool>, steps: seq<Step>, i: nat)
    requires IsRun(run, steps) && i < |run|
    ensures Inv(run[i])
  {
    hide Inv, Next;
    if i == 0 {
      InitKeeps(run[0]);
    } else {
      RunKeeps(run, steps, i - 1);
      StepKeeps(run[i - 1], steps[i - 1], run[i]);
    }
  }

  // ---------- what holds in every run ----------

  lemma {:induction false} AllBelow(ids: set<nat>, n: nat)
    requires forall id :: id in ids <==> 0 <= id < n
    ensures |ids| == n
  {
    if n > 0 {
      AllBelow(ids - {n - 1}, n - 1);
    } else {
      assert ids == {};
    }
  }

  lemma OpenIsUnfinished(p: Pool, id: nat)
    requires Inv(p) && id in OpenIds(p)
    ensures p.unfinished > 0
  {
    NobodyBusy(p.workers);
    if id !in p.queue {
      var w :| HeldBy(p.workers, w, id);
      assert !p.workers[w].Free?;
    }
  }

  /** `join` is exact: when the count of unfinished items is zero, which is when it
      returns, nothing is queued, no worker has anything in hand, every submitted
      task is SUCCESS or FAILED, and the completed tasks are all the tasks. */
  lemma JoinIsExact(run: seq<Pool>, steps: seq<Step>)
    requires IsRun(run, steps) && run[|run| - 1].unfinished == 0
    ensures var p := run[|run| - 1];
            && p.queue == [] && (forall w :: 0 <= w < |p.workers| ==> p.workers[w].Free?)
            && (forall id :: 0 <= id < p.total ==> id in p.results && Done(p.results[id].status))
            && p.completed == p.total
  {
    var p := run[|run| - 1];
    RunKeeps(run, steps, |run| - 1);
    NobodyBusy(p.workers);
    forall id | id in OpenIds(p)
      ensures false
    {
      OpenIsUnfinished(p, id);
    }
    AllBelow(DoneIds(p), p.total);
  }

  /** Conversely, `join` does not return while a submitted task is unfinished. */
  lemma JoinWaits(run: seq<Pool>, steps: seq<Step>, id: nat)
    requires IsRun(run, steps)
    requires var p := run[|run| - 1]; id < p.total && id in p.results && !Done(p.results[id].status)
    ensures run[|run| - 1].unfinished > 0
  {
    RunKeeps(run, steps, |run| - 1);
    OpenIsUnfinished(run[|run| - 1], id);
  }

  /** Retry accounting. An attempt calls the function or fails before the call. A task
      is FAILED after exactly `max_retries` + 1 attempts, all failures, or after one when
      that is negative; SUCCESS after an attempt that followed at most `max_retries`
      failures. No task is attempted more often. Only while a worker has counted the last
      failure and not yet judged it is a task with that many not FAILED. The FAILED tasks
      are listed as such, once each, and a task that is done is not queued. */
  lemma RetryAccounting(run: seq<Pool>, steps: seq<Step>, id: nat)
    requires IsRun(run, steps) && id in run[|run| - 1].results
    ensures var p := run[|run| - 1]; var job := p.results[id];
            var allowed := if job.maxRetries < 0 then 0 else job.maxRetries;
            && job.invocations + job.refusals <= allowed + 1
            && (job.status.Failed? ==> job.retryCount == job.invocations + job.refusals == allowed + 1)
            && (job.status.Success? ==> job.retryCount + 1 == job.invocations + job.refusals <= allowed + 1)
            && (job.retryCount > allowed ==>
                  job.status.Failed? || exists w :: HeldBy(p.workers, w, id) && p.workers[w].Counted?)
            && (job.status.Failed? <==> id in p.failed) && NoDup(p.failed)
            && (Done(job.status) ==> id !in p.queue)
  {
    var p := run[|run| - 1];
    RunKeeps(run, steps, |run| - 1);
    var job := p.results[id];
    if id in OpenIds(p) && id !in p.queue {
      var w :| HeldBy(p.workers, w, id);
    }
  }

  /** Worker `w` has counted a failure, and takes its next step. */
  ghost predicate Judges(p: Pool, p': Pool, w: nat) {
    && w < |p.workers| && p.workers[w].Counted?
    && w < |p'.workers| && p'.workers[w] != p.workers[w]
  }

  lemma StepJudges(p: Pool, step: Step, p': Pool, w: nat)
    requires Next(p, step, p') && Judges(p, p', w)
    ensures step == Retry(w) || step == GiveUp(w)
  {
  }

  lemma CountedWithin(p: Pool, w: nat)
    requires Inv(p) && w < |p.workers| && p.workers[w].Counted?
    ensures var id := p.workers[w].id;
            id in p.results && p.results[id].retryCount <= Limit(p.results[id])
  {
    hide Counts, Placed;
    HandsInOpen(p);
    assert HeldBy(p.workers, w, p.workers[w].id);
  }

  /** The verdict on a counted failure is forced: the worker's next step is a retry while
      there have been at most `max_retries` failures. Otherwise it gives up, which it does
      after exactly one more, or after the first if `max_retries` is negative. */
  lemma VerdictIsForced(run: seq<Pool>, steps: seq<Step>, i: nat, w: nat)
    requires IsRun(run, steps) && i < |steps| && Judges(run[i], run[i + 1], w)
    ensures var id := run[i].workers[w].id;
            && id in run[i].results && id in run[i + 1].results
            && var job, verdict := run[i].results[id], run[i + 1].results[id].status;
            && steps[i] == (if job.retryCount <= job.maxRetries then Retry(w) else GiveUp(w))
            && verdict == (if job.retryCount <= job.maxRetries then Retrying else Failed)
            && (verdict.Failed? ==> job.retryCount == if job.maxRetries < 0 then 1 else job.maxRetries + 1)
  {
    RunKeeps(run, steps, i);
    CountedWithin(run[i], w);
    hide Inv;
    StepJudges(run[i], steps[i], run[i + 1], w);
  }

  /** Worker `w` has task `id` in hand, from marking it RUNNING to judging it. */
  ghost predicate WorksOn(p: Pool, w: int, id: nat) {
    HeldBy(p.workers, w, id) && !p.workers[w].Got? && !p.workers[w].Sleeping?
  }

  /** What a status tells: RUNNING tasks are those that a worker is working on; PENDING
      ones have never been attempted, RETRYING ones have failed and may be tried again. */
  lemma StatusTells(run: seq<Pool>, steps: seq<Step>, id: nat)
    requires IsRun(run, steps) && id in run[|run| - 1].results
    ensures var p := run[|run| - 1]; var job := p.results[id];
            && (job.status.Running? <==> exists w :: WorksOn(p, w, id))
            && (job.status.Pending? ==> job.retryCount == job.invocations == job.refusals == 0)
            && (job.status.Retrying? ==> 1 <= job.retryCount == job.invocations + job.refusals <= job.maxRetries)
  {
    RunKeeps(run, steps, |run| - 1);
    OpenTells(run[|run| - 1], id);
  }

  lemma OpenTells(p: Pool, id: nat)
    requires Inv(p) && id in p.results
    ensures var job := p.results[id];
            && (job.status.Running? <==> exists w :: WorksOn(p, w, id))
            && (job.status.Pending? ==> job.retryCount == job.invocations == job.refusals == 0)
            && (job.status.Retrying? ==> 1 <= job.retryCount == job.invocations + job.refusals <= job.maxRetries)
  {
    hide Counts;
    if id in OpenIds(p) && id !in p.queue {
      var w :| HeldBy(p.workers, w, id);
      assert StatusFits(p.results[id], p.workers[w]) && Accounted(p.results[id], p.workers[w]);
      assert WorksOn(p, w, id) <==> !p.workers[w].Got? && !p.workers[w].Sleeping?;
    }
  }

  lemma WorkerTouchesOnlyItsTask(p: Pool, step: Step, p': Pool, w: nat, own: nat, id: nat)
    requires w < |p.workers| && own in p.results && WorkerStep(p, step, p', w, own)
    requires id != own && id in p.results
    ensures id in p'.results && p'.results[id] == p.results[id]
  {
  }

  lemma DoneStep(p: Pool, step: Step, p': Pool, id: nat)
    requires Inv(p) && Next(p, step, p')
    requires id in p.results && Done(p.results[id].status)
    ensures id in p'.results && p'.results[id] == p.results[id]
  {
    hide Placed, Counts, Statuses, WorkerStep;
    HandsInOpen(p);
    match step
    case Register(_) => assert id != p.total;
    case Put =>
    case Full =>
    case Commit =>
    case Get(_) =>
    case TaskDone(_) =>
    case _ =>
      var own := p.workers[step.w].id;
      assert HeldBy(p.workers, step.w, own);
      WorkerTouchesOnlyItsTask(p, step, p', step.w, own, id);
  }

  /** Once done, a task keeps its status, its failures and its calls. */
  lemma DoneIsForever(run: seq<Pool>, steps: seq<Step>, i: nat, id: nat)
    requires IsRun(run, steps) && i < |steps|
    requires id in run[i].results && Done(run[i].results[id].status)
    ensures id in run[i + 1].results && run[i + 1].results[id] == run[i].results[id]
  {
    hide Next, Inv;
    RunKeeps(run, steps, i);
    DoneStep(run[i], steps[i], run[i + 1], id);
  }

  /** A task keeps the `max_retries` that it was submitted with, until another submission
      takes its id. */
  lemma {:induction false} SubmittedWith(run: seq<Pool>, steps: seq<Step>, i: nat, j: nat)
    requires IsRun(run, steps) && i < j <= |steps| && steps[i].Register?
    requires forall k :: i < k < j && steps[k].Register? ==> run[k].total != run[i].total
    ensures var id := run[i].total;
            id in run[j].results && run[j].results[id].maxRetries == steps[i].maxRetries
  {
    hide Inv;
    if j - 1 > i {
      SubmittedWith(run, steps, i, j - 1);
      LimitStays(run[j - 1], steps[j - 1], run[j], run[i].total);
    } else {
      assert Next(run[i], steps[i], run[j]);
    }
  }

  lemma LimitStays(p: Pool, step: Step, p': Pool, id: nat)
    requires Next(p, step, p') && id in p.results && (step.Register? ==> p.total != id)
    ensures id in p'.results && p'.results[id].maxRetries == p.results[id].maxRetries
  {
  }

  // ---------- the queue ----------

  /** How many tasks steps `i` to `j` - 1 take from the queue. */
  function Taken(steps: seq<Step>, i: nat, j: nat): nat
    requires i <= j <= |steps|
  {
    if i == j then 0 else Taken(steps, i, j - 1) + if steps[j - 1].Get? then 1 else 0
  }

  lemma QueueStep(p: Pool, step: Step, p': Pool)
    requires Next(p, step, p')
    ensures p'.maxSize == p.maxSize
    ensures step.Get? ==> p.queue != [] && p'.queue == p.queue[1..]
    ensures !step.Get? ==> p.queue <= p'.queue && |p'.queue| <= |p.queue| + 1
    ensures |p'.queue| > |p.queue| ==> p.maxSize == 0 || |p'.queue| <= p.maxSize
  {
  }

  /** First in, first out: the tasks queued at some moment are taken from the queue in
      their order, before any task that is queued later, first time or again. */
  lemma {:induction false} QueueIsFifo(run: seq<Pool>, steps: seq<Step>, i: nat, j: nat)
    requires IsRun(run, steps) && i <= j < |run|
    ensures var n := Taken(steps, i, j);
            n <= |run[i].queue| ==> run[i].queue[n..] <= run[j].queue
  {
    hide Next;
    if i < j {
      QueueIsFifo(run, steps, i, j - 1);
      QueueStep(run[j - 1], steps[j - 1], run[j]);
    }
  }

  /** A bounded queue never holds more than its bound. */
  lemma {:induction false} QueueIsBounded(run: seq<Pool>, steps: seq<Step>, i: nat)
    requires IsRun(run, steps) && i < |run|
    ensures run[i].maxSize == run[0].maxSize && (run[i].maxSize > 0 ==> |run[i].queue| <= run[i].maxSize)
  {
    hide Next;
    if i > 0 {
      QueueIsBounded(run, steps, i - 1);
      QueueStep(run[i - 1], steps[i - 1], run[i]);
    }
  }

  /** Tasks that wait for their first attempt are queued in the order of submission. */
  lemma {:induction false} SubmissionOrder(run: seq<Pool>, steps: seq<Step>, i: nat)
    requires IsRun(run, steps) && i < |run|
    ensures InSubmissionOrder(run[i])
  {
    hide Inv, Next;
    if i > 0 {
      SubmissionOrder(run, steps, i - 1);
      RunKeeps(run, steps, i - 1);
      OrderStep(run[i - 1], steps[i - 1], run[i]);
    }
  }

  ghost predicate NewAt(p: Pool, x: int) {
    0 <= x < |p.queue| && p.queue[x] in p.results && p.results[p.queue[x]].status.Pending?
  }

  ghost predicate InSubmissionOrder(p: Pool) {
    forall x, y :: NewAt(p, x) && NewAt(p, y) && x < y ==> p.queue[x] < p.queue[y]
  }

  /** No step touches a task that is queued. */
  lemma QueuedStays(p: Pool, step: Step, p': Pool, id: nat)
    requires Inv(p) && Next(p, step, p') && id in p.queue
    ensures id in p.results && id < Entered(p) && id in p'.results && p'.results[id] == p.results[id]
  {
    hide Placed, Counts, Statuses, WorkerStep;
    HandsInOpen(p);
    match step
    case Register(_) => assert id != p.total;
    case Put =>
    case Full =>
    case Commit =>
    case Get(_) =>
    case TaskDone(_) =>
    case _ =>
      var own := p.workers[step.w].id;
      assert HeldBy(p.workers, step.w, own);
      WorkerTouchesOnlyItsTask(p, step, p', step.w, own, id);
  }

  /** What a step puts behind the queue is the task that is submitted, or one to retry. */
  lemma EnqueuedStatus(p: Pool, step: Step, p': Pool)
    requires Inv(p) && Next(p, step, p') && !step.Get?
    ensures p.queue <= p'.queue && |p'.queue| <= |p.queue| + 1
    ensures |p'.queue| > |p.queue| ==>
              var id := p'.queue[|p.queue|];
              id == Entered(p) || (id in p'.results && p'.results[id].status.Retrying?)
  {
    hide Placed, Counts, Accounted;
    if step.Requeue? {
      assert HeldBy(p.workers, step.w, p.workers[step.w].id);
    }
  }

  lemma NewStays(p: Pool, step: Step, p': Pool, x: int, y: int)
    requires Inv(p) && Next(p, step, p')
    requires NewAt(p', x) && 0 <= y < |p.queue| && p.queue[y] == p'.queue[x]
    ensures NewAt(p, y) && p.queue[y] < Entered(p)
  {
    hide Inv, Next;
    assert p.queue[y] in p.queue;
    QueuedStays(p, step, p', p.queue[y]);
  }

  lemma OrderStep(p: Pool, step: Step, p': Pool)
    requires Inv(p) && Next(p, step, p') && InSubmissionOrder(p)
    ensures InSubmissionOrder(p')
  {
    hide Inv, Next, Entered;
    QueueStep(p, step, p');
    if !step.Get? {
      EnqueuedStatus(p, step, p');
    }
    var k := if step.Get? then 1 else 0;
    forall x, y | NewAt(p', x) && NewAt(p', y) && x < y
      ensures p'.queue[x] < p'.queue[y]
    {
      NewStays(p, step, p', x, x + k);
      if y + k < |p.queue| {
        NewStays(p, step, p', y, y + k);
      }
    }
  }

  /** What `get_progress` counts, under the lock. */
  function WithStatus(p: Pool, s: Status): set<nat> {
    set id | id in p.results && p.results[id].status == s
  }

  lemma DoneByStatus(p: Pool)
    requires p.completed == |DoneIds(p)|
    ensures |WithStatus(p, Success)| + |WithStatus(p, Failed)| == p.completed
  {
    var s, f := WithStatus(p, Success), WithStatus(p, Failed);
    assert s !! f && s + f == DoneIds(p);
  }

  lemma CountsByStatus(p: Pool)
    requires Registry(p) && p.lock.Open? && p.completed == |DoneIds(p)|
    ensures p.completed <= p.total
    ensures |WithStatus(p, Pending)| + |WithStatus(p, Running)| + |WithStatus(p, Retrying)| + p.completed
            == (if p.total in p.results then p.total + 1 else p.total)
  {
    hide Accounted, DoneIds;
    assert p.total in p.results ==> p.total in WithStatus(p, Pending);
    hide WithStatus;
    var a, b, c := WithStatus(p, Pending), WithStatus(p, Running), WithStatus(p, Retrying);
    StatusesPartition(p);
    DisjointSizes(a, b, c, DoneIds(p));
    AllBelow(p.results.Keys, if p.total in p.results then p.total + 1 else p.total);
  }

  lemma StatusesPartition(p: Pool)
    ensures var a, b, c := WithStatus(p, Pending), WithStatus(p, Running), WithStatus(p, Retrying);
            p.results.Keys == a + b + c + DoneIds(p) && a !! b !! c !! DoneIds(p)
  {
  }

  /** The last submission of the run that came to an end was refused by a full queue. */
  ghost predicate LastRefused(steps: seq<Step>) {
    exists i :: RefusedAt(steps, i)
  }

  ghost predicate RefusedAt(steps: seq<Step>, i: int) {
    0 <= i < |steps| && steps[i].Full? && forall k :: i < k < |steps| ==> !steps[k].Register?
  }

  /** A task that is registered but not counted is left behind exactly by a refusal,
      and exactly until the next submission, which takes its id. */
  lemma {:induction false} PhantomIff(run: seq<Pool>, steps: seq<Step>)
    requires IsRun(run, steps)
    ensures var p := run[|run| - 1];
            && (p.lock.Open? ==> (p.total in p.results <==> LastRefused(steps)))
            && (!p.lock.Open? ==> !LastRefused(steps))
  {
    hide Inv, Next;
    if steps != [] {
      var n := |steps| - 1;
      var init := steps[..n];
      assert forall i :: 0 <= i < n ==> Next(run[..n + 1][i], init[i], run[..n + 1][i + 1]);
      PhantomIff(run[..n + 1], init);
      RunKeeps(run, steps, n);
      LastRefusedStep(steps);
      PhantomStep(run[n], steps[n], run[n + 1]);
    }
  }

  lemma LastRefusedStep(steps: seq<Step>)
    requires steps != []
    ensures var last := steps[|steps| - 1];
            LastRefused(steps) <==> last.Full? || (!last.Register? && LastRefused(steps[..|steps| - 1]))
  {
    var n := |steps| - 1;
    var init := steps[..n];
    if i :| RefusedAt(init, i) {
      assert !steps[n].Register? ==> RefusedAt(steps, i);
    }
    if i :| RefusedAt(steps, i) {
      assert i < n ==> RefusedAt(init, i);
    }
    assert steps[n].Full? ==> RefusedAt(steps, n);
  }

  /** How one step changes whether there is a registered task that is not counted. */
  lemma PhantomStep(p: Pool, step: Step, p': Pool)
    requires Inv(p) && Next(p, step, p')
    ensures match step
            case Register(_) => !p'.lock.Open?
            case Put => !p'.lock.Open?
            case Full => p'.lock.Open? && p'.total in p'.results
            case Commit => p'.lock.Open? && p'.total !in p'.results
            case _ => p'.lock == p.lock && (p'.total in p'.results <==> p.total in p.results)
    ensures step.Put? || step.Full? || step.Commit? ==> !p.lock.Open?
    ensures p'.total == if step.Commit? then p.total + 1 else p.total
    ensures step.Put? ==> Room(p) && p.lock.Registered? && p'.lock.Enqueued?
    ensures step.Full? ==> !Room(p) && p.lock.Registered?
    ensures step.Commit? ==> p.lock.Enqueued?
  {
    hide Placed, Statuses, Counts;
  }

  /** A submission that comes to its queue operation at step `i` is counted if and only
      if there was room at that moment. It has ended by the time the lock is free again;
      if there was no room its task is registered all the same, PENDING, though it is
      neither counted nor queued nor in any worker's hands. */
  lemma SubmissionCountedIff(run: seq<Pool>, steps: seq<Step>, i: nat)
    requires IsRun(run, steps) && i < |steps| && (steps[i].Put? || steps[i].Full?)
    requires run[|run| - 1].lock.Open? && forall k :: i < k < |steps| ==> !steps[k].Register?
    ensures var p, id := run[|run| - 1], run[i].total;
            var room := run[i].maxSize == 0 || |run[i].queue| < run[i].maxSize;
            && id in p.results
            && (p.total == if room then id + 1 else id)
            && (p.total in p.results <==> !room)
            && (!room ==> p.results[id].status.Pending? && id !in p.queue
                                  && forall w :: !HeldBy(p.workers, w, id))
  {
    hide Inv, Next;
    RunKeeps(run, steps, |run| - 1);
    SubmissionSince(run, steps, i, |steps|);
    RegisteredIdle(run[|run| - 1]);
  }

  /** Between the queue operation of a submission and the next submission. */
  lemma {:induction false} SubmissionSince(run: seq<Pool>, steps: seq<Step>, i: nat, j: nat)
    requires IsRun(run, steps) && i < j <= |steps| && (steps[i].Put? || steps[i].Full?)
    requires forall k :: i < k < j ==> !steps[k].Register?
    ensures var p, id := run[j], run[i].total;
            if Room(run[i])
            then (p.lock.Enqueued? && p.total == id) || (p.lock.Open? && p.total == id + 1 && p.total !in p.results)
            else p.lock.Open? && p.total == id && p.total in p.results
  {
    hide Inv, Next;
    RunKeeps(run, steps, j - 1);
    PhantomStep(run[j - 1], steps[j - 1], run[j]);
    if j - 1 > i {
      SubmissionSince(run, steps, i, j - 1);
    }
  }

  lemma RegisteredIdle(p: Pool)
    requires Inv(p) && p.lock.Open?
    ensures forall id :: 0 <= id < p.total ==> id in p.results
    ensures p.total in p.results ==> p.results[p.total].status.Pending?
    ensures p.total !in p.queue && forall w :: !HeldBy(p.workers, w, p.total)
  {
  }

  /** Every progress snapshot is consistent: success and failed add up to completed,
      which is at most total, and the five counts add up to the registered tasks:
      the total, or one more while the last submission is one that was refused. */
  lemma SnapshotIsConsistent(run: seq<Pool>, steps: seq<Step>)
    requires IsRun(run, steps) && run[|run| - 1].lock.Open?
    ensures var p := run[|run| - 1];
            && |WithStatus(p, Success)| + |WithStatus(p, Failed)| == p.completed <= p.total
            && |WithStatus(p, Pending)| + |WithStatus(p, Running)| + |WithStatus(p, Retrying)| + p.completed
               == (if LastRefused(steps) then p.total + 1 else p.total)
  {
    RunKeeps(run, steps, |run| - 1);
    PhantomIff(run, steps);
    CountsByStatus(run[|run| - 1]);
    DoneByStatus(run[|run| - 1]);
  }

  lemma DisjointSizes(a: set<nat>, b: set<nat>, c: set<nat>, d: set<nat>)
    requires a !! b !! c !! d
    ensures |a + b + c + d| == |a| + |b| + |c| + |d|
  {
    assert |a + b| == |a| + |b|;
    assert |a + b + c| == |a + b| + |c|;
  }

  /** A submission that finds the queue full leaves its task registered as PENDING,
      though it is neither queued nor counted: here two are pending of a total of one. */
  lemma FullQueueLeavesPhantom() returns (run: seq<Pool>, steps: seq<Step>)
    ensures IsRun(run, steps)
    ensures var p := run[|run| - 1];
            p.lock.Open? && p.total == 1 && WithStatus(p, Pending) == {0, 1} && p.queue == [0]
  {
    var job := Job(3, Pending, 0, 0, 0);
    var one, two := map[0 := job], map[0 := job, 1 := job];
    var p0 := Pool(map[], [], 1, 0, [], [], 0, 0, Open);
    var p1 := Pool(one, [], 1, 0, [], [], 0, 0, Registered);
    var p2 := Pool(one, [0], 1, 1, [], [], 0, 0, Enqueued);
    var p3 := Pool(one, [0], 1, 1, [], [], 0, 1, Open);
    var p4 := Pool(two, [0], 1, 1, [], [], 0, 1, Registered);
    var p5 := Pool(two, [0], 1, 1, [], [], 0, 1, Open);
    assert Next(p0, Register(3), p1) && Next(p1, Put, p2) && Next(p2, Commit, p3);
    assert Next(p3, Register(3), p4) && Next(p4, Full, p5);
    run, steps := [p0, p1, p2, p3, p4, p5], [Register(3), Put, Commit, Register(3), Full];
  }
}

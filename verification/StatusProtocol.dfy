/** The status of a task in the database as a register shared by the scheduling
    cycles, the workers and the users, whose steps interleave arbitrarily.

    A cycle reads documents one at a time, plans, sends its messages one at a time
    and then writes its results one at a time; it may also be cut short by an
    exception between any two of these. At most one cycle runs at a time. */
module StatusProtocol {
  import opened Collections
  import opened TaskModel
  import opened Dispatch
  import opened Cycle

  /** Where the running cycle stands: `sends` messages attempted, `writes` tasks persisted. */
  datatype Phase =
    | NoCycle
    | Fetching(recs: seq<Record>)
    | Planned(recs: seq<Record>, out: Outcome, accepts: TaskId -> bool, sends: nat, writes: nat)

  /** What matters of the history: a message for a task was published; its status was
      reset to PENDING by a user; the cycle that published it was cut short and left it
      PENDING, to be sent again. */
  datatype Event = Published(id: TaskId) | Reset(id: TaskId) | Lost(id: TaskId)

  datatype State = State(db: map<TaskId, Record>, phase: Phase, log: seq<Event>)

  datatype Step =
    | Begin
    | FetchDoc(id: TaskId)
    | Plan(idle: QueueName -> int, accepts: TaskId -> bool)
    | Send
    | Persist
    | Finish
    | Abort
    | WorkerWrite(id: TaskId, status: Status)
    | Stop(id: TaskId)
    | Retry(id: TaskId)
    | Submit(rec: Record)

  // ---------- the steps ----------

  ghost predicate SetTo(s: State, s': State, id: TaskId, status: Status) {
    id in s.db && s'.db == s.db[id := s.db[id].(status := status)]
  }

  /** Messages sent by the running cycle whose tasks it has not yet written. */
  ghost predicate InFlight(p: Phase, id: TaskId) {
    && p.Planned? && p.sends <= |p.out.attempts| && p.writes <= |OrderOf(p.recs)|
    && id in p.out.attempts[..p.sends] && p.accepts(id)
    && id !in OrderOf(p.recs)[..p.writes]
  }

  /** A document that no cycle can send: it records a dependency. */
  ghost predicate Blocked(r: Record) {
    exists dep :: dep in r.dependsOn && dep != ""
  }

  /** A PENDING document that a cycle which fetches it can send. */
  ghost predicate Ripe(r: Record) {
    r.status.Pending? && !Blocked(r)
  }

  /** The message of a task is out and the running cycle has yet to write the task, which
      is still PENDING and records no dependency: the next cycle would send it again. */
  ghost predicate Exposed(s: State, id: TaskId) {
    InFlight(s.phase, id) && id in s.db && Ripe(s.db[id])
  }

  ghost predicate SchedulerStep(s: State, step: Step, s': State) {
    match step
    case Begin =>
      s.phase.NoCycle? && s' == s.(phase := Fetching([]))
    case FetchDoc(id) =>
      && s.phase.Fetching? && id in s.db && Active(s.db[id].status) && |s.phase.recs| < FETCH_LIMIT
      && s' == s.(phase := Fetching(s.phase.recs + [s.db[id]]))
    case Plan(idle, accepts) =>
      && s.phase.Fetching?
      && s' == s.(phase := if s.phase.recs == [] then NoCycle
                           else Planned(s.phase.recs, CycleOf(s.phase.recs, idle, accepts), accepts, 0, 0))
    case Send =>
      && s.phase.Planned? && s.phase.sends < |s.phase.out.attempts|
      && var id := s.phase.out.attempts[s.phase.sends];
         s' == s.(phase := s.phase.(sends := s.phase.sends + 1),
                  log := if s.phase.accepts(id) then s.log + [Published(id)] else s.log)
    case Persist =>
      && s.phase.Planned? && s.phase.sends == |s.phase.out.attempts| && s.phase.writes < |OrderOf(s.phase.recs)|
      && var id := OrderOf(s.phase.recs)[s.phase.writes];
      && id in StatusMap(s.phase.recs) && id in s.phase.out.final
      && s'.log == s.log && s'.phase == s.phase.(writes := s.phase.writes + 1)
      && s'.db == Written(s.db, id, WriteFor(Some(StatusMap(s.phase.recs)[id]), s.phase.out.final[id]))
    case Finish =>
      && s.phase.Planned? && s.phase.sends == |s.phase.out.attempts| && s.phase.writes == |OrderOf(s.phase.recs)|
      && s' == s.(phase := NoCycle)
    case Abort =>
      && !s.phase.NoCycle? && s'.phase.NoCycle? && s'.db == s.db
      && exists lost: seq<Event> ::
           && s'.log == s.log + lost
           && forall e :: e in lost <==> e.Lost? && Exposed(s, e.id)
    case _ => false
  }

  /** The conditional update of the document of task `id`, if there is one. */
  ghost function Written(db: map<TaskId, Record>, id: TaskId, w: Write): map<TaskId, Record> {
    if id in db then db[id := db[id].(status := Applied(w, db[id].status))] else db
  }

  /** Workers write RUNNING, SUCCESS and FAILED unconditionally; a stop spares final
      tasks; a retry resets only FAILED and STOPPED ones; a submission resets any. */
  ghost predicate OutsideStep(s: State, step: Step, s': State) {
    match step
    case WorkerWrite(id, status) =>
      && (status.Running? || status.Success? || status.Failed?)
      && SetTo(s, s', id, status) && s'.phase == s.phase && s'.log == s.log
    case Stop(id) =>
      && id in s.db && !Final(s.db[id].status)
      && SetTo(s, s', id, Stopped) && s'.phase == s.phase && s'.log == s.log
    case Retry(id) =>
      && id in s.db && (s.db[id].status.Failed? || s.db[id].status.Stopped?)
      && SetTo(s, s', id, Pending) && s'.phase == s.phase && s'.log == s.log + [Reset(id)]
    case Submit(rec) =>
      && rec.status.Pending?
      && s' == s.(db := s.db[rec.id := rec], log := s.log + [Reset(rec.id)])
    case _ => false
  }

  ghost predicate Next(s: State, step: Step, s': State) {
    SchedulerStep(s, step, s') || OutsideStep(s, step, s')
  }

  ghost predicate Init(s: State) {
    s.phase.NoCycle? && s.log == [] && forall id :: id in s.db ==> s.db[id].id == id
  }

  /** No RETRYING document can be sent. No step of the system writes RETRYING. */
  ghost predicate NoRetrying(db: map<TaskId, Record>) {
    forall id :: id in db && db[id].status.Retrying? ==> Blocked(db[id])
  }

  // ---------- at most one publication per epoch ----------

  ghost predicate Ends(e: Event, id: TaskId) {
    e == Reset(id) || e == Lost(id)
  }

  /** Every publication of `id` has since been followed by the end of its epoch. */
  ghost predicate Fresh(log: seq<Event>, id: TaskId) {
    forall i :: 0 <= i < |log| && log[i] == Published(id) ==> exists k :: i < k < |log| && Ends(log[k], id)
  }

  /** Two publications of a task are separated by the end of an epoch. */
  ghost predicate Separated(log: seq<Event>) {
    forall i, j :: 0 <= i < j < |log| && log[i].Published? && log[j] == log[i] ==>
      exists k :: i < k < j && Ends(log[k], log[i].id)
  }

  ghost predicate RunningWell(p: Phase, log: seq<Event>)
    requires p.Planned?
  {
    var s0, order := StatusMap(p.recs), OrderOf(p.recs);
    && p.sends <= |p.out.attempts| && p.writes <= |order|
    && (p.writes > 0 ==> p.sends == |p.out.attempts|)
    && NoDup(p.out.attempts)
    && (forall id :: id in order <==> id in s0)
    && p.out.final.Keys == s0.Keys
    && (forall id :: id in p.out.attempts ==> id in s0 && s0[id].Pending?)
    && p.out.final == Sent(s0, p.out.attempts, p.accepts)
    && (forall id :: id in s0 ==> !Final(s0[id]))
    && (forall id :: id in p.out.attempts[p.sends..] ==> Fresh(log, id))
  }

  ghost predicate Inv(s: State) {
    && Separated(s.log)
    && (forall id :: id in s.db ==> s.db[id].id == id)
    && NoRetrying(s.db)
    && (forall id :: id in s.db && Ripe(s.db[id]) ==>
          Fresh(s.log, id) || InFlight(s.phase, id))
    && (s.phase.Fetching? ==> forall r :: r in s.phase.recs ==>
          (Ripe(r) ==> Fresh(s.log, r.id)) && (r.status.Retrying? ==> Blocked(r)))
    && (s.phase.Planned? ==> RunningWell(s.phase, s.log))
    && (s.phase.Fetching? ==> forall r :: r in s.phase.recs ==> Active(r.status))
  }

  lemma NotInTail(log: seq<Event>, more: seq<Event>, i: nat)
    requires i < |log + more|
    ensures (log + more)[i] in more || (i < |log| && (log + more)[i] == log[i])
  {
  }

  lemma FreshExtends(log: seq<Event>, more: seq<Event>, id: TaskId)
    requires Fresh(log, id) && Published(id) !in more
    ensures Fresh(log + more, id)
  {
    var all := log + more;
    forall i | 0 <= i < |all| && all[i] == Published(id)
      ensures exists k :: i < k < |all| && Ends(all[k], id)
    {
      NotInTail(log, more, i);
      var k :| i < k < |log| && Ends(log[k], id);
      assert Ends(all[k], id);
    }
  }

  lemma EndMakesFresh(log: seq<Event>, more: seq<Event>, id: TaskId)
    requires Published(id) !in more && (Reset(id) in more || Lost(id) in more)
    ensures Fresh(log + more, id)
  {
    var all := log + more;
    var m :| 0 <= m < |more| && Ends(more[m], id);
    forall i | 0 <= i < |all| && all[i] == Published(id)
      ensures exists k :: i < k < |all| && Ends(all[k], id)
    {
      NotInTail(log, more, i);
      assert Ends(all[|log| + m], id);
    }
  }

  lemma SeparatedExtends(log: seq<Event>, more: seq<Event>)
    requires Separated(log) && forall e :: e in more ==> !e.Published?
    ensures Separated(log + more)
  {
    var all := log + more;
    forall i, j | 0 <= i < j < |all| && all[i].Published? && all[j] == all[i]
      ensures exists k :: i < k < j && Ends(all[k], all[i].id)
    {
      NotInTail(log, more, j);
      var k :| i < k < j && Ends(log[k], log[i].id);
      assert Ends(all[k], all[i].id);
    }
  }

  lemma SeparatedPublish(log: seq<Event>, id: TaskId)
    requires Separated(log) && Fresh(log, id)
    ensures Separated(log + [Published(id)])
  {
    var all := log + [Published(id)];
    forall i, j | 0 <= i < j < |all| && all[i].Published? && all[j] == all[i]
      ensures exists k :: i < k < j && Ends(all[k], all[i].id)
    {
      if j < |log| {
        var k :| i < k < j && Ends(log[k], log[i].id);
        assert Ends(all[k], all[i].id);
      } else {
        var k :| i < k < |log| && Ends(log[k], id);
        assert Ends(all[k], all[i].id);
      }
    }
  }

  /** Adding events that publish nothing keeps what the invariant says of the log. */
  lemma LogExtends(s: State, more: seq<Event>)
    requires Inv(s) && forall e :: e in more ==> !e.Published?
    ensures Inv(s.(log := s.log + more))
  {
    SeparatedExtends(s.log, more);
    forall id | Fresh(s.log, id)
      ensures Fresh(s.log + more, id)
    {
      FreshExtends(s.log, more, id);
    }
  }

  /** No fetched task is SUCCESS. */
  lemma UnfetchedDependency(recs: seq<Record>, dep: TaskId)
    requires forall r :: r in recs ==> Active(r.status)
    ensures dep in StatusMap(recs) ==> !StatusMap(recs)[dep].Success?
  {
    MappedRecord(recs, dep);
  }

  /** A fetched task that is sent was PENDING: a RETRYING one is held by its dependency. */
  lemma {:induction false} SentTaskWasPending(recs: seq<Record>, idle: QueueName -> int, accepts: TaskId -> bool,
                                              id: TaskId)
    requires forall r :: r in recs ==> Active(r.status) && (r.status.Retrying? ==> Blocked(r))
    requires id in CycleOf(recs, idle, accepts).attempts
    ensures id in StatusMap(recs) && StatusMap(recs)[id].Pending?
    ensures id in RecordMap(recs) && !Blocked(RecordMap(recs)[id])
  {
    hide CycleOf, GraphOf;
    DispatchSafety(recs, idle, accepts);
    MappedRecord(recs, id);
    var r := RecordMap(recs)[id];
    if Blocked(r) {
      var dep :| dep in r.dependsOn && dep != "";
      var k :| 0 <= k < |recs| && recs[k] == r;
      assert DependsOn(recs, id, dep);
      UnfetchedDependency(recs, dep);
    }
  }

  /** What a cycle over fetched documents comes to. */
  lemma FetchedOutcome(recs: seq<Record>, idle: QueueName -> int, accepts: TaskId -> bool)
    requires forall r :: r in recs ==> Active(r.status)
    ensures var out := CycleOf(recs, idle, accepts);
            NoDup(out.attempts) && out.final == Sent(StatusMap(recs), out.attempts, accepts)
    ensures Sent(StatusMap(recs), CycleOf(recs, idle, accepts).attempts, accepts).Keys == StatusMap(recs).Keys
  {
    hide CycleOf, GraphOf, StatusMap, Ready;
    DispatchSafety(recs, idle, accepts);
    FetchedCycleOnlyDispatches(recs, idle, accepts);
  }

  lemma PlannedWell(recs: seq<Record>, log: seq<Event>, idle: QueueName -> int, accepts: TaskId -> bool)
    requires forall r :: r in recs ==> Active(r.status) && (r.status.Retrying? ==> Blocked(r))
    requires forall r :: r in recs && Ripe(r) ==> Fresh(log, r.id)
    ensures RunningWell(Planned(recs, CycleOf(recs, idle, accepts), accepts, 0, 0), log)
  {
    hide CycleOf, GraphOf, Fresh, Sent, Blocked, RecordMap;
    var out := CycleOf(recs, idle, accepts);
    FetchedOutcome(recs, idle, accepts);
    OrderListsMap(recs);
    forall id | id in StatusMap(recs)
      ensures !Final(StatusMap(recs)[id])
    {
      MappedRecord(recs, id);
    }
    forall id | id in out.attempts
      ensures id in StatusMap(recs) && StatusMap(recs)[id].Pending? && Fresh(log, id)
    {
      SentTaskWasPending(recs, idle, accepts, id);
      MappedRecord(recs, id);
    }
  }

  lemma PlanKeeps(s: State, step: Step, s': State)
    requires Inv(s) && step.Plan? && SchedulerStep(s, step, s')
    ensures Inv(s')
  {
    if s.phase.recs != [] {
      PlannedWell(s.phase.recs, s.log, step.idle, step.accepts);
    }
  }

  lemma SendKeeps(s: State, s': State)
    requires Inv(s) && SchedulerStep(s, Send, s')
    ensures Inv(s')
  {
    hide StatusMap, OrderOf, Fresh, Separated, NoRetrying, Blocked, Sent, CycleOf, RecordMap, Final;
    var p := s.phase;
    var attempts := p.out.attempts;
    var id := attempts[p.sends];
    assert attempts[p.sends..] == [id] + attempts[p.sends + 1..];
    SnocPrefix(attempts, p.sends);
    assert forall x :: x in attempts[p.sends + 1..] ==> x != id && x in attempts[p.sends..];
    if p.accepts(id) {
      SeparatedPublish(s.log, id);
      forall x | x != id && Fresh(s.log, x)
        ensures Fresh(s'.log, x)
      {
        FreshExtends(s.log, [Published(id)], x);
      }
    }
    forall x | x in s'.db && Ripe(s'.db[x]) && !Fresh(s'.log, x)
      ensures InFlight(s'.phase, x)
    {
      assert x != id ==> InFlight(p, x);
    }
  }

  /** The collection changes at one task, whose status afterwards is not one that
      may be sent, or was there before. */
  lemma StatusChangeKeeps(s: State, s': State, id: TaskId)
    requires Inv(s) && s'.log == s.log && s'.phase == s.phase
    requires id in s.db && id in s'.db && s'.db == s.db[id := s'.db[id]] && s'.db[id].id == id
    requires Sendable(s'.db[id].status) ==> s'.db[id] == s.db[id]
    ensures Inv(s')
  {
  }

  lemma PersistKeeps(s: State, s': State)
    requires Inv(s) && SchedulerStep(s, Persist, s')
    ensures Inv(s')
  {
    hide StatusMap, OrderOf, Fresh, Separated;
    var p := s.phase;
    var order, s0 := OrderOf(p.recs), StatusMap(p.recs);
    var id := order[p.writes];
    SnocPrefix(order, p.writes);
    assert p.out.attempts[..p.sends] == p.out.attempts;
    forall x | x in s'.db && Ripe(s'.db[x]) && !Fresh(s'.log, x)
      ensures InFlight(s'.phase, x)
    {
      assert s'.db[x].status == s.db[x].status;
      assert InFlight(p, x);
      assert x != id;
    }
  }

  lemma AbortKeeps(s: State, s': State)
    requires Inv(s) && SchedulerStep(s, Abort, s')
    ensures Inv(s')
  {
    var lost: seq<Event> :| s'.log == s.log + lost && forall e :: e in lost <==> e.Lost? && Exposed(s, e.id);
    LogExtends(s, lost);
    forall id | Exposed(s, id)
      ensures Fresh(s'.log, id)
    {
      assert Lost(id) in lost;
      EndMakesFresh(s.log, lost, id);
    }
  }

  lemma FinishKeeps(s: State, s': State)
    requires Inv(s) && SchedulerStep(s, Finish, s')
    ensures Inv(s')
  {
    var order := OrderOf(s.phase.recs);
    assert order[..s.phase.writes] == order;
    assert s.phase.out.attempts[..s.phase.sends] == s.phase.out.attempts;
    assert forall id :: !InFlight(s.phase, id);
  }

  lemma ResetKeeps(s: State, s': State, rec: Record)
    requires Inv(s) && rec.status.Pending?
    requires s' == s.(db := s.db[rec.id := rec], log := s.log + [Reset(rec.id)])
    ensures Inv(s')
  {
    LogExtends(s, [Reset(rec.id)]);
    EndMakesFresh(s.log, [Reset(rec.id)], rec.id);
  }

  lemma StepKeeps(s: State, step: Step, s': State)
    requires Inv(s) && Next(s, step, s')
    ensures Inv(s')
  {
    match step
    case Begin =>
    case FetchDoc(id) =>
    case Plan(_, _) => PlanKeeps(s, step, s');
    case Send => SendKeeps(s, s');
    case Persist => PersistKeeps(s, s');
    case Finish => FinishKeeps(s, s');
    case Abort => AbortKeeps(s, s');
    case WorkerWrite(id, _) => StatusChangeKeeps(s, s', id);
    case Stop(id) => StatusChangeKeeps(s, s', id);
    case Retry(id) => ResetKeeps(s, s', s.db[id].(status := Pending));
    case Submit(rec) => ResetKeeps(s, s', rec);
  }

  // ---------- runs ----------

  ghost predicate IsRun(run: seq<State>, steps: seq<Step>) {
    && |run| == |steps| + 1
    && Init(run[0])
    && forall i :: 0 <= i < |steps| ==> Next(run[i], steps[i], run[i + 1])
  }

  lemma InitKeeps(s: State)
    requires Init(s) && NoRetrying(s.db)
    ensures Inv(s)
  {
  }

  lemma {:induction false} RunKeeps(run: seq<State>, steps: seq<Step>)
    requires IsRun(run, steps) && NoRetrying(run[0].db)
    ensures Inv(run[|run| - 1])
  {
    hide Next, Inv, NoRetrying;
    if steps == [] {
      InitKeeps(run[0]);
    } else {
      var n := |steps| - 1;
      var before, taken := run[..n + 1], steps[..n];
      assert forall i :: 0 <= i < n ==> Next(before[i], taken[i], before[i + 1]);
      RunKeeps(before, taken);
      StepKeeps(run[n], steps[n], run[n + 1]);
    }
  }

  /** At-most-once dispatch: in every run, two publications of a task are separated
      by a reset of the task to PENDING, or by the failure of the cycle that made the
      first before it wrote the task. */
  lemma AtMostOncePerEpoch(run: seq<State>, steps: seq<Step>, i: nat, j: nat)
    requires IsRun(run, steps) && NoRetrying(run[0].db)
    requires var log := run[|run| - 1].log; i < j < |log| && log[i].Published? && log[j] == log[i]
    ensures var log := run[|run| - 1].log;
            exists k :: i < k < j && (log[k] == Reset(log[i].id) || log[k] == Lost(log[i].id))
  {
    RunKeeps(run, steps);
    var log := run[|run| - 1].log;
    var k :| i < k < j && Ends(log[k], log[i].id);
  }

  /** At step `i` a cycle is cut short while task `id` is exposed. */
  ghost predicate Loses(run: seq<State>, steps: seq<Step>, i: int, id: TaskId) {
    0 <= i < |steps| && i < |run| && steps[i].Abort? && Exposed(run[i], id)
  }

  lemma StepLoses(s: State, step: Step, s': State, e: Event)
    requires Next(s, step, s') && e.Lost? && e !in s.log && !(step.Abort? && Exposed(s, e.id))
    ensures e !in s'.log
  {
    hide CycleOf, StatusMap, OrderOf, InFlight;
  }

  lemma {:induction false} NothingLost(run: seq<State>, steps: seq<Step>, e: Event)
    requires IsRun(run, steps) && e.Lost? && (forall i :: !Loses(run, steps, i, e.id))
    ensures e !in run[|run| - 1].log
  {
    hide Next, InFlight;
    if steps != [] {
      var n := |steps| - 1;
      var before, taken := run[..n + 1], steps[..n];
      assert forall i :: 0 <= i < n ==> Next(before[i], taken[i], before[i + 1]);
      assert forall i :: Loses(before, taken, i, e.id) ==> Loses(run, steps, i, e.id);
      NothingLost(before, taken, e);
      assert !Loses(run, steps, n, e.id);
      StepLoses(run[n], steps[n], run[n + 1], e);
    }
  }

  /** When no cycle is cut short while a task is exposed, only a reset allows a second
      publication of that task. */
  lemma AtMostOnceBetweenResets(run: seq<State>, steps: seq<Step>, i: nat, j: nat)
    requires IsRun(run, steps) && NoRetrying(run[0].db)
    requires var log := run[|run| - 1].log;
             && i < j < |log| && log[i].Published? && log[j] == log[i]
             && forall n :: !Loses(run, steps, n, log[i].id)
    ensures var log := run[|run| - 1].log;
            exists k :: i < k < j && log[k] == Reset(log[i].id)
  {
    AtMostOncePerEpoch(run, steps, i, j);
    var log := run[|run| - 1].log;
    NothingLost(run, steps, Lost(log[i].id));
  }

  // ---------- what a cycle may write ----------

  lemma PersistTakesPending(s: State, s': State)
    requires Inv(s) && SchedulerStep(s, Persist, s')
    ensures s'.db == s.db
            || exists id :: InFlight(s.phase, id) && id in s.db && s.db[id].status.Pending? && SetTo(s, s', id, Waiting)
  {
    hide StatusMap, OrderOf, Fresh, Separated;
    var p := s.phase;
    var order := OrderOf(p.recs);
    var id := order[p.writes];
    assert p.out.attempts[..p.sends] == p.out.attempts;
    assert id !in order[..p.writes];
    if id in s.db {
      assert Written(s.db, id, NoWrite) == s.db;
      assert s.db[id].(status := s.db[id].status) == s.db[id];
      assert s'.db != s.db ==> SetTo(s, s', id, Waiting);
    }
  }

  /** The only thing the scheduler ever does to the collection is to move a task it
      has published in the running cycle from PENDING to WAITING: whatever a worker
      or a user has written in the meantime stands. */
  lemma SchedulerOnlyTakesPending(run: seq<State>, steps: seq<Step>, step: Step, s': State)
    requires IsRun(run, steps) && NoRetrying(run[0].db)
    requires SchedulerStep(run[|run| - 1], step, s')
    ensures var s := run[|run| - 1];
            s'.db == s.db
            || exists id :: InFlight(s.phase, id) && id in s.db && s.db[id].status.Pending? && SetTo(s, s', id, Waiting)
  {
    RunKeeps(run, steps);
    if step.Persist? {
      PersistTakesPending(run[|run| - 1], s');
    }
  }

  // ---------- why RETRYING documents are excluded ----------

  lemma SingleTaskMap(r: Record)
    ensures RecordMap([r]) == map[r.id := r] && OrderOf([r]) == [r.id]
  {
    var recs := [r];
    assert recs[..0] == [];
    assert RecordMap([]) == map[] && OrderOf([]) == [];
  }

  lemma SingleTaskFetch(r: Record)
    requires Active(r.status)
    ensures Fetch([r]) == [r]
  {
    var recs := [r];
    assert recs[..0] == [];
    assert ActiveOnly([]) == [] && ActiveOnly(recs) == [r];
  }

  lemma SingleTaskMaps(r: Record)
    requires Active(r.status)
    ensures OrderOf([r]) == [r.id] && StatusMap([r]) == map[r.id := r.status]
    ensures InfoMap([r]) == map[r.id := Info(r.queue, r.weight)]
    ensures Fetch([r]) == [r]
    ensures forall dep :: DependsOn([r], r.id, dep) ==> Blocked(r)
  {
    hide RecordMap, OrderOf, Fetch, ActiveOnly;
    SingleTaskMap(r);
    SingleTaskFetch(r);
  }

  /** A cycle over one sendable document without dependencies sends it. */
  lemma SingleTaskCycle(r: Record, idle: QueueName -> int, accepts: TaskId -> bool)
    requires Sendable(r.status) && !Blocked(r) && idle(r.queue) >= 1 && accepts(r.id)
    ensures var out := CycleOf([r], idle, accepts);
            && out.attempts == [r.id] && out.final == map[r.id := Waiting]
            && OrderOf([r]) == [r.id] && StatusMap([r]) == map[r.id := r.status]
  {
    hide CycleOf, GraphOf, Fetch, StatusMap, InfoMap, OrderOf;
    var recs := [r];
    SingleTaskMaps(r);
    FetchedTaskIsSentIff(recs, idle, accepts, r.id);
    DispatchSafety(recs, idle, accepts);
    FetchedCycleOnlyDispatches(recs, idle, accepts);
    var attempts := CycleOf(recs, idle, accepts).attempts;
    OneElement(attempts, r.id);
    assert Sent(map[r.id := r.status], [r.id], accepts) == map[r.id := Waiting];
  }

  lemma OneElement(s: seq<TaskId>, x: TaskId)
    requires NoDup(s) && x in s && forall y :: y in s ==> y == x
    ensures s == [x]
  {
    Cardinality(s);
    assert (set y | y in s) == {x};
    assert s[0] in s;
  }

  /** Consecutive states linked by steps, none of them an abort. */
  ghost predicate Path(states: seq<State>, steps: seq<Step>) {
    && |states| == |steps| + 1
    && forall i :: 0 <= i < |steps| ==> !steps[i].Abort? && Next(states[i], steps[i], states[i + 1])
  }

  lemma PathAppend(states: seq<State>, steps: seq<Step>, step: Step, t: State)
    requires Path(states, steps) && !step.Abort? && Next(states[|states| - 1], step, t)
    ensures Path(states + [t], steps + [step])
  {
    var all, alls := states + [t], steps + [step];
    forall i | 0 <= i < |alls|
      ensures !alls[i].Abort? && Next(all[i], alls[i], all[i + 1])
    {
      if i < |steps| {
        assert all[i] == states[i] && all[i + 1] == states[i + 1] && alls[i] == steps[i];
      }
    }
  }

  lemma PathJoin(states: seq<State>, steps: seq<Step>, states': seq<State>, steps': seq<Step>)
    returns (all: seq<State>, alls: seq<Step>)
    requires Path(states, steps) && Path(states', steps')
    requires |states| > 0 && |states'| > 0 && states[|states| - 1] == states'[0]
    ensures Path(all, alls) && |all| > 0 && all[0] == states[0] && all[|all| - 1] == states'[|states'| - 1]
  {
    all, alls := states + states'[1..], steps + steps';
    forall i | 0 <= i < |alls|
      ensures !alls[i].Abort? && Next(all[i], alls[i], all[i + 1])
    {
      var k := i - |steps|;
      if i < |steps| {
        assert all[i] == states[i] && all[i + 1] == states[i + 1] && alls[i] == steps[i];
      } else {
        assert all[i] == states'[k] && all[i + 1] == states'[k + 1] && alls[i] == steps'[k];
      }
    }
  }

  lemma PathStart(s: State)
    ensures Path([s], [])
  {
  }

  /** The cycle planned over the lone document `r`, after its message is sent. */
  ghost function SentPhase(r: Record): Phase {
    var accepts: TaskId -> bool := t => true;
    Planned([r], CycleOf([r], q => 1, accepts), accepts, 1, 0)
  }

  /** A cycle that has read the lone document `r` plans and sends it. */
  lemma PlanAndSend(s: State, r: Record) returns (states: seq<State>, steps: seq<Step>)
    requires s.phase == Fetching([r]) && Sendable(r.status) && !Blocked(r)
    ensures Path(states, steps) && |states| > 0 && states[0] == s
    ensures states[|states| - 1] == s.(phase := SentPhase(r), log := s.log + [Published(r.id)])
  {
    hide CycleOf, StatusMap, OrderOf, Path;
    var accepts: TaskId -> bool := SentPhase(r).accepts;
    var idle: QueueName -> int := q => 1;
    SingleTaskCycle(r, q => 1, accepts);
    var planned := s.(phase := SentPhase(r).(sends := 0));
    PathStart(s);
    assert SchedulerStep(s, Plan(q => 1, accepts), planned);
    PathAppend([s], [], Plan(q => 1, accepts), planned);
    var sent := s.(phase := SentPhase(r), log := s.log + [Published(r.id)]);
    PathAppend([s] + [planned], [] + [Plan(q => 1, accepts)], Send, sent);
    states, steps := [s] + [planned] + [sent], [] + [Plan(q => 1, accepts)] + [Send];
  }

  /** A new cycle reads the lone document `r`. */
  lemma BeginAndFetch(s: State, r: Record) returns (states: seq<State>, steps: seq<Step>)
    requires s.phase.NoCycle? && r.id in s.db && s.db[r.id] == r && Active(r.status)
    ensures Path(states, steps) && |states| > 0 && states[0] == s
    ensures states[|states| - 1] == s.(phase := Fetching([r]))
  {
    var none: seq<Record> := [];
    assert none + [r] == [r];
    var begun, fetched := s.(phase := Fetching([])), s.(phase := Fetching([r]));
    PathStart(s);
    PathAppend([s], [], Begin, begun);
    PathAppend([s] + [begun], [] + [Begin], FetchDoc(r.id), fetched);
    states, steps := [s] + [begun] + [fetched], [] + [Begin] + [FetchDoc(r.id)];
  }

  /** While a cycle has `r` in hand, a user stops and retries the task. */
  lemma StopAndRetry(s: State, r: Record) returns (states: seq<State>, steps: seq<Step>)
    requires r.id in s.db && s.db[r.id] == r && Active(r.status)
    ensures Path(states, steps) && |states| > 0 && states[0] == s
    ensures states[|states| - 1] == s.(db := s.db[r.id := r.(status := Pending)], log := s.log + [Reset(r.id)])
  {
    var stopped := s.(db := s.db[r.id := r.(status := Stopped)]);
    var reset := s.(db := s.db[r.id := r.(status := Pending)], log := s.log + [Reset(r.id)]);
    assert reset.db == stopped.db[r.id := stopped.db[r.id].(status := Pending)];
    PathStart(s);
    PathAppend([s], [], Stop(r.id), stopped);
    PathAppend([s] + [stopped], [] + [Stop(r.id)], Retry(r.id), reset);
    states, steps := [s] + [stopped] + [reset], [] + [Stop(r.id)] + [Retry(r.id)];
  }

  /** The compare-and-set of a task that was read RETRYING and is PENDING misses. */
  lemma MissAndFinish(s: State, r: Record) returns (states: seq<State>, steps: seq<Step>)
    requires s.phase == SentPhase(r) && r.status.Retrying? && !Blocked(r)
    requires r.id in s.db && s.db[r.id] == r.(status := Pending)
    ensures Path(states, steps) && |states| > 0 && states[0] == s
    ensures states[|states| - 1] == s.(phase := NoCycle)
  {
    hide CycleOf, StatusMap, OrderOf, Path;
    SingleTaskCycle(r, q => 1, s.phase.accepts);
    var written, done := s.(phase := s.phase.(writes := 1)), s.(phase := NoCycle);
    PathStart(s);
    assert Written(s.db, r.id, CompareAndSet(Retrying)) == s.db;
    PathAppend([s], [], Persist, written);
    PathAppend([s] + [written], [] + [Persist], Finish, done);
    states, steps := [s] + [written] + [done], [] + [Persist] + [Finish];
  }

  /** The condition of `AtMostOnceBetweenResets` is exact: from any collection that
      holds a RETRYING document without dependencies there is a run, all of whose
      cycles complete, that publishes the task twice with no reset in between. */
  lemma RetryingIsSentTwice(db: map<TaskId, Record>) returns (run: seq<State>, steps: seq<Step>, id: TaskId)
    requires (forall x :: x in db ==> db[x].id == x) && !NoRetrying(db)
    ensures IsRun(run, steps) && run[0].db == db && forall i :: 0 <= i < |steps| ==> !steps[i].Abort?
    ensures run[|run| - 1].log == [Reset(id), Published(id), Published(id)]
  {
    id :| id in db && db[id].status.Retrying? && !Blocked(db[id]);
    var s := State(db, NoCycle, []);
    hide Path, SentPhase;
    var r, r' := db[id], db[id].(status := Pending);
    var reset := db[id := r'];
    var l1, l2, l3 := [Reset(id)], [Reset(id), Published(id)], [Reset(id), Published(id), Published(id)];
    assert s.log + [Reset(id)] == l1 && l1 + [Published(id)] == l2 && l2 + [Published(id)] == l3;
    run, steps := BeginAndFetch(s, r);
    var more, next := StopAndRetry(State(db, Fetching([r]), []), r);
    run, steps := PathJoin(run, steps, more, next);
    more, next := PlanAndSend(State(reset, Fetching([r]), l1), r);
    run, steps := PathJoin(run, steps, more, next);
    more, next := MissAndFinish(State(reset, SentPhase(r), l2), r);
    run, steps := PathJoin(run, steps, more, next);
    more, next := BeginAndFetch(State(reset, NoCycle, l2), r');
    run, steps := PathJoin(run, steps, more, next);
    more, next := PlanAndSend(State(reset, Fetching([r']), l2), r');
    run, steps := PathJoin(run, steps, more, next);
    PathIsRun(run, steps);
  }

  lemma PathIsRun(run: seq<State>, steps: seq<Step>)
    requires Path(run, steps) && Init(run[0])
    ensures IsRun(run, steps) && forall i :: 0 <= i < |steps| ==> !steps[i].Abort?
  {
  }

  // ---------- why cycles cut short are excluded ----------

  /** The exposed tasks, as the events of a cycle cut short. */
  ghost function LostOf(s: State, ids: seq<TaskId>): (lost: seq<Event>)
    ensures forall e :: e in lost <==> e.Lost? && e.id in ids && Exposed(s, e.id)
  {
    if ids == [] then [] else
      var id := ids[|ids| - 1];
      LostOf(s, ids[..|ids| - 1]) + if Exposed(s, id) then [Lost(id)] else []
  }

  /** The condition of `AtMostOnceBetweenResets` is exact: a cycle cut short while a task
      is exposed can be followed by one that publishes it again, without a reset. */
  lemma LostIsSentAgain(s: State, id: TaskId) returns (states: seq<State>, steps: seq<Step>, lost: seq<Event>)
    requires Exposed(s, id) && s.db[id].id == id
    ensures |states| == |steps| + 1 && states[0] == s
    ensures forall i :: 0 <= i < |steps| ==> Next(states[i], steps[i], states[i + 1])
    ensures forall i :: 0 < i < |steps| ==> !steps[i].Abort?
    ensures lost == LostOf(s, s.phase.out.attempts[..s.phase.sends]) && Lost(id) in lost
    ensures states[|states| - 1].log == s.log + lost + [Published(id)]
  {
    hide CycleOf, Path, SentPhase;
    lost := LostOf(s, s.phase.out.attempts[..s.phase.sends]);
    var r := s.db[id];
    var cut := s.(phase := NoCycle, log := s.log + lost);
    assert SchedulerStep(s, Abort, cut);
    states, steps := BeginAndFetch(cut, r);
    var more, next := PlanAndSend(cut.(phase := Fetching([r])), r);
    states, steps := PathJoin(states, steps, more, next);
    PathSteps(states, steps);
    states, steps := [s] + states, [Abort] + steps;
  }

  lemma {:induction false} SentIsExposed(s: State, r: Record)
    requires s.phase == SentPhase(r) && r.id in s.db && s.db[r.id] == r && Ripe(r)
    ensures Exposed(s, r.id)
    ensures LostOf(s, s.phase.out.attempts[..s.phase.sends]) == [Lost(r.id)]
  {
    hide CycleOf, StatusMap, OrderOf;
    var p := s.phase;
    SingleTaskCycle(r, q => 1, p.accepts);
    assert p.out.attempts == [r.id];
    assert p.out.attempts[..p.sends] == [r.id] && [r.id][..0] == [];
    assert LostOf(s, []) == [];
  }

  lemma PathSteps(states: seq<State>, steps: seq<Step>)
    requires Path(states, steps)
    ensures |states| == |steps| + 1
    ensures forall i :: 0 <= i < |steps| ==> !steps[i].Abort? && Next(states[i], steps[i], states[i + 1])
  {
  }

  /** From any collection with a PENDING document that records no dependency there is a
      run in which one cut-short cycle makes the task be published twice. */
  lemma CutShortIsSentTwice(db: map<TaskId, Record>, id: TaskId) returns (run: seq<State>, steps: seq<Step>)
    requires forall x :: x in db ==> db[x].id == x
    requires id in db && Ripe(db[id])
    ensures IsRun(run, steps) && run[0].db == db
    ensures run[|run| - 1].log == [Published(id), Lost(id), Published(id)]
  {
    hide CycleOf, Path, StatusMap, OrderOf, SentPhase, LostOf;
    var r := db[id];
    var s := State(db, NoCycle, []);
    run, steps := BeginAndFetch(s, r);
    var more, next := PlanAndSend(s.(phase := Fetching([r])), r);
    run, steps := PathJoin(run, steps, more, next);
    PathSteps(run, steps);
    var sent := run[|run| - 1];
    SentIsExposed(sent, r);
    var again, last, lost := LostIsSentAgain(sent, id);
    var n := |steps|;
    run, steps := run[..n] + again, steps + last;
  }
}

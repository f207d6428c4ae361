/** A call of `execute` that nobody disturbs is a run of the status protocol: it begins,
    fetches its documents, plans, sends, persists and finishes. */
module CycleRefinement {
  import opened Collections
  import opened TaskModel
  import opened Cycle
  import opened Dispatch
  import opened TaskScheduling
  import opened StatusProtocol
  import StatusWrites

  /** The publications among the send attempts. */
  ghost function PublishedOf(attempts: seq<TaskId>, accepts: TaskId -> bool): seq<Event> {
    if attempts == [] then [] else
      var id := attempts[|attempts| - 1];
      PublishedOf(attempts[..|attempts| - 1], accepts) + if accepts(id) then [Published(id)] else []
  }

  /** A path made of scheduler steps that complete their cycle. */
  ghost predicate CyclePath(states: seq<State>, steps: seq<Step>) {
    && Path(states, steps)
    && forall i :: 0 <= i < |steps| ==> SchedulerStep(states[i], steps[i], states[i + 1])
  }

  lemma CycleStarts(s: State)
    ensures CyclePath([s], [])
  {
  }

  lemma CycleAppends(states: seq<State>, steps: seq<Step>, step: Step, t: State)
    requires CyclePath(states, steps) && !step.Abort? && SchedulerStep(states[|states| - 1], step, t)
    ensures CyclePath(states + [t], steps + [step])
    ensures (states + [t])[0] == states[0] && (states + [t])[|states + [t]| - 1] == t
  {
    hide SchedulerStep, OutsideStep;
    PathAppend(states, steps, step, t);
    var all, alls := states + [t], steps + [step];
    forall i | 0 <= i < |alls|
      ensures SchedulerStep(all[i], alls[i], all[i + 1])
    {
      if i < |steps| {
        assert all[i] == states[i] && all[i + 1] == states[i + 1] && alls[i] == steps[i];
      }
    }
  }

  /** The documents of a list that are in the collection are fetched one by one. */
  lemma {:induction false} FetchRun(states: seq<State>, steps: seq<Step>, s: State, recs: seq<Record>)
    returns (states': seq<State>, steps': seq<Step>)
    requires CyclePath(states, steps) && |states| > 0 && states[|states| - 1] == s && s.phase == Fetching([])
    requires |recs| <= FETCH_LIMIT
    requires forall r :: r in recs ==> r.id in s.db && s.db[r.id] == r && Active(r.status)
    ensures CyclePath(states', steps') && |states'| > 0 && states'[0] == states[0]
    ensures states'[|states'| - 1] == s.(phase := Fetching(recs))
  {
    hide CyclePath;
    if recs == [] {
      states', steps' := states, steps;
    } else {
      var n := |recs| - 1;
      states', steps' := FetchRun(states, steps, s, recs[..n]);
      assert recs == recs[..n] + [recs[n]];
      var t := s.(phase := Fetching(recs));
      CycleAppends(states', steps', FetchDoc(recs[n].id), t);
      states', steps' := states' + [t], steps' + [FetchDoc(recs[n].id)];
    }
  }

  /** The messages are attempted one by one. */
  lemma {:induction false} SendRun(states: seq<State>, steps: seq<Step>, s: State, n: nat)
    returns (states': seq<State>, steps': seq<Step>)
    requires CyclePath(states, steps) && |states| > 0 && states[|states| - 1] == s
    requires s.phase.Planned? && s.phase.sends == 0 && n <= |s.phase.out.attempts|
    ensures CyclePath(states', steps') && |states'| > 0 && states'[0] == states[0]
    ensures states'[|states'| - 1] ==
              s.(phase := s.phase.(sends := n), log := s.log + PublishedOf(s.phase.out.attempts[..n], s.phase.accepts))
  {
    hide CyclePath;
    var attempts, accepts := s.phase.out.attempts, s.phase.accepts;
    if n == 0 {
      assert s.log + PublishedOf(attempts[..0], accepts) == s.log;
      states', steps' := states, steps;
    } else {
      states', steps' := SendRun(states, steps, s, n - 1);
      var t := s.(phase := s.phase.(sends := n), log := s.log + PublishedOf(attempts[..n], accepts));
      PublishedNext(attempts, n - 1, accepts, s.log);
      CycleAppends(states', steps', Send, t);
      states', steps' := states' + [t], steps' + [Send];
    }
  }

  lemma PublishedNext(attempts: seq<TaskId>, n: nat, accepts: TaskId -> bool, log: seq<Event>)
    requires n < |attempts|
    ensures var before := log + PublishedOf(attempts[..n], accepts);
            log + PublishedOf(attempts[..n + 1], accepts) ==
              if accepts(attempts[n]) then before + [Published(attempts[n])] else before
  {
    SnocPrefix(attempts, n);
  }

  /** An update of the stored list is the update of the document map. */
  lemma {:induction false} UpdateIsWritten(docs: seq<Record>, id: TaskId, w: Write)
    requires UniqueIds(docs)
    ensures UniqueIds(Update(docs, id, w)) && RecordMap(Update(docs, id, w)) == Written(RecordMap(docs), id, w)
  {
    hide RecordMap, Update, Applied;
    var r, m := Update(docs, id, w), RecordMap(docs);
    var t := Written(m, id, w);
    forall i | 0 <= i < |docs|
      ensures r[i].id == docs[i].id && docs[i].id in t && t[docs[i].id] == r[i]
    {
      UpdateAt(docs, id, w, i);
      StatusWrites.DocumentIn(docs, i);
    }
    forall x | x in t
      ensures exists i :: 0 <= i < |r| && r[i].id == x
    {
      MappedRecord(docs, x);
      var i :| 0 <= i < |docs| && docs[i].id == x;
      assert r[i].id == x;
    }
    StatusWrites.MapsAgree(r, t);
  }

  /** The planned cycle over `recs`, all of its messages attempted. */
  ghost predicate Sending(p: Phase, recs: seq<Record>, writes: nat) {
    && p.Planned? && p.recs == recs && p.sends == |p.out.attempts| && p.writes == writes
    && forall id :: id in OrderOf(recs) ==> id in SnapshotOf(StatusMap(recs)) && id in p.out.final
  }

  /** The tasks are written one by one. */
  lemma {:induction false} PersistRun(states: seq<State>, steps: seq<Step>, s: State, docs: seq<Record>,
                                      recs: seq<Record>, n: nat)
    returns (states': seq<State>, steps': seq<Step>)
    requires CyclePath(states, steps) && |states| > 0 && states[|states| - 1] == s
    requires Sending(s.phase, recs, 0) && n <= |OrderOf(recs)|
    requires UniqueIds(docs) && s.db == RecordMap(docs)
    ensures CyclePath(states', steps') && |states'| > 0 && states'[0] == states[0]
    ensures var stored := Persisted(docs, OrderOf(recs)[..n], SnapshotOf(StatusMap(recs)), s.phase.out.final);
            && UniqueIds(stored)
            && states'[|states'| - 1] == s.(phase := s.phase.(writes := n), db := RecordMap(stored))
  {
    hide CyclePath, RecordMap, OrderOf, StatusMap, UniqueIds, WriteFor, Update;
    var order, originals, final := OrderOf(recs), SnapshotOf(StatusMap(recs)), s.phase.out.final;
    if n == 0 {
      assert order[..0] == [];
      states', steps' := states, steps;
    } else {
      states', steps' := PersistRun(states, steps, s, docs, recs, n - 1);
      SnocPrefix(order, n - 1);
      var id := order[n - 1];
      var before := Persisted(docs, order[..n - 1], originals, final);
      var stored := Persisted(docs, order[..n], originals, final);
      UpdateIsWritten(before, id, WriteFor(originals[id], final[id]));
      var t := s.(phase := s.phase.(writes := n), db := RecordMap(stored));
      PersistStep(states'[|states'| - 1], recs, n - 1, t);
      CycleAppends(states', steps', Persist, t);
      states', steps' := states' + [t], steps' + [Persist];
    }
  }

  lemma {:induction false} PersistStep(s: State, recs: seq<Record>, n: nat, t: State)
    requires Sending(s.phase, recs, n) && n < |OrderOf(recs)|
    requires var id := OrderOf(recs)[n];
             t == s.(phase := s.phase.(writes := n + 1),
                     db := Written(s.db, id, WriteFor(SnapshotOf(StatusMap(recs))[id], s.phase.out.final[id])))
    ensures SchedulerStep(s, Persist, t)
  {
    hide OrderOf, StatusMap, WriteFor, Written;
    assert OrderOf(recs)[n] in OrderOf(recs);
  }

  lemma {:induction false} FetchedAreStored(docs: seq<Record>)
    requires UniqueIds(docs)
    ensures |Fetch(docs)| <= FETCH_LIMIT
    ensures forall r :: r in Fetch(docs) ==> r.id in RecordMap(docs) && RecordMap(docs)[r.id] == r && Active(r.status)
  {
    hide RecordMap, UniqueIds;
    forall r | r in Fetch(docs)
      ensures r.id in RecordMap(docs) && RecordMap(docs)[r.id] == r
    {
      var i :| 0 <= i < |docs| && docs[i] == r;
      StatusWrites.DocumentIn(docs, i);
    }
  }

  lemma {:induction false} CycleKeys(recs: seq<Record>, idle: QueueName -> int, accepts: TaskId -> bool)
    ensures forall id :: id in OrderOf(recs) ==>
              id in SnapshotOf(StatusMap(recs)) && id in CycleOf(recs, idle, accepts).final
  {
    hide CycleOf, GraphOf, OrderOf;
    OrderListsMap(recs);
    ChangesOnly(recs, idle, accepts);
  }

  /** From a collection `docs` without a running cycle there is a run, of scheduler steps
      alone and to the end of the cycle, that publishes what `execute` publishes and
      leaves the collection that `execute` leaves. */
  lemma {:induction false} ExecuteIsRun(s: State, docs: seq<Record>, idle: QueueName -> int, accepts: TaskId -> bool)
    returns (states: seq<State>, steps: seq<Step>)
    requires UniqueIds(docs) && s.phase.NoCycle? && s.db == RecordMap(docs)
    ensures CyclePath(states, steps) && |states| > 0 && states[0] == s && states[|states| - 1].phase.NoCycle?
    ensures var recs := Fetch(docs);
            var out := CycleOf(recs, idle, accepts);
            && (forall id :: id in OrderOf(recs) ==> id in SnapshotOf(StatusMap(recs)) && id in out.final)
            && states[|states| - 1].log == s.log + PublishedOf(out.attempts, accepts)
            && states[|states| - 1].db ==
                 RecordMap(Persisted(docs, OrderOf(recs), SnapshotOf(StatusMap(recs)), out.final))
  {
    hide CyclePath, RecordMap, OrderOf, StatusMap, UniqueIds, CycleOf, Fetch, Persisted, PublishedOf;
    var recs := Fetch(docs);
    var out := CycleOf(recs, idle, accepts);
    CycleKeys(recs, idle, accepts);
    FetchedAreStored(docs);
    CycleStarts(s);
    var begun := s.(phase := Fetching([]));
    CycleAppends([s], [], Begin, begun);
    states, steps := FetchRun([s] + [begun], [] + [Begin], begun, recs);
    var fetched := states[|states| - 1];
    if recs == [] {
      NothingFetched(docs, idle, accepts);
      CycleAppends(states, steps, Plan(idle, accepts), s);
      states, steps := states + [s], steps + [Plan(idle, accepts)];
      return;
    }
    var planned := s.(phase := Planned(recs, out, accepts, 0, 0));
    CycleAppends(states, steps, Plan(idle, accepts), planned);
    states, steps := SendRun(states + [planned], steps + [Plan(idle, accepts)], planned, |out.attempts|);
    assert out.attempts[..|out.attempts|] == out.attempts;
    var order := OrderOf(recs);
    states, steps := PersistRun(states, steps, states[|states| - 1], docs, recs, |order|);
    assert order[..|order|] == order;
    var done := states[|states| - 1].(phase := NoCycle);
    CycleAppends(states, steps, Finish, done);
    states, steps := states + [done], steps + [Finish];
  }

  lemma {:induction false} NothingFetched(docs: seq<Record>, idle: QueueName -> int, accepts: TaskId -> bool)
    ensures forall id :: id in OrderOf([]) ==>
              id in SnapshotOf(StatusMap([])) && id in CycleOf([], idle, accepts).final
    ensures PublishedOf(CycleOf([], idle, accepts).attempts, accepts) == []
    ensures Persisted(docs, OrderOf([]), SnapshotOf(StatusMap([])), CycleOf([], idle, accepts).final) == docs
  {
    EmptyCycle(docs, idle, accepts);
  }
}

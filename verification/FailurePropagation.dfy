/** What failure propagation means: a task is doomed when a chain of failure
    edges leads to it from a task that had already failed, through tasks of the
    map that were not in a final state. */
module FailurePropagation {
  import opened Collections
  import opened TaskModel

  ghost predicate FailureChain(s: Statuses, g: Graph, p: seq<TaskId>) {
    && |p| > 0
    && p[0] in s && s[p[0]].Failed?
    && forall i :: 0 < i < |p| ==> FailureEdge(g, p[i - 1], p[i]) && p[i] in s && !Final(s[p[i]])
  }

  ghost predicate Doomed(s: Statuses, g: Graph, id: TaskId) {
    exists p :: FailureChain(s, g, p) && p[|p| - 1] == id
  }

  /** The statuses after propagation. */
  ghost function Propagated(s: Statuses, g: Graph): Statuses {
    map id | id in s :: if Doomed(s, g, id) then Failed else s[id]
  }

  /** No failure edge leads from `a` to a task of the map that is still open. */
  ghost predicate Settled(s: Statuses, g: Graph, a: TaskId) {
    forall b :: b in s && FailureEdge(g, a, b) ==> Final(s[b])
  }

  lemma FailedIsDoomed(s: Statuses, g: Graph, id: TaskId)
    requires id in s && s[id].Failed?
    ensures Doomed(s, g, id)
  {
    assert FailureChain(s, g, [id]);
  }

  lemma DoomedSpreads(s: Statuses, g: Graph, a: TaskId, b: TaskId)
    requires Doomed(s, g, a) && FailureEdge(g, a, b) && b in s && !Final(s[b])
    ensures Doomed(s, g, b)
  {
    var p :| FailureChain(s, g, p) && p[|p| - 1] == a;
    assert FailureChain(s, g, p + [b]);
  }

  lemma DoomedInMap(s: Statuses, g: Graph, id: TaskId)
    requires Doomed(s, g, id)
    ensures id in s && (s[id].Failed? || !Final(s[id]))
  {
    var p :| FailureChain(s, g, p) && p[|p| - 1] == id;
  }

  lemma LastLink(s: Statuses, g: Graph, p: seq<TaskId>)
    requires FailureChain(s, g, p) && |p| > 1
    ensures var a := p[|p| - 2];
            FailureEdge(g, a, p[|p| - 1]) && a in s && (s[a].Failed? || !Final(s[a]))
  {
    var last := |p| - 1;
    assert FailureEdge(g, p[last - 1], p[last]);
  }

  /** A failure enters an open task only along an edge from a task that is FAILED or
      open: not from a STOPPED one. */
  lemma NotReached(s: Statuses, g: Graph, id: TaskId)
    requires id in s && !s[id].Failed?
    requires forall a :: a in s && FailureEdge(g, a, id) ==> s[a].Stopped? || s[a].Success?
    ensures !Doomed(s, g, id)
  {
    if p :| FailureChain(s, g, p) && p[|p| - 1] == id {
      if |p| > 1 {
        LastLink(s, g, p);
      }
    }
  }

  /** Every set that holds the failed tasks and is closed under failure edges into
      open tasks holds all the doomed ones. */
  lemma {:induction false} DoomedIsLeast(s: Statuses, g: Graph, closed: set<TaskId>, p: seq<TaskId>)
    requires forall id :: id in s && s[id].Failed? ==> id in closed
    requires forall a, b :: a in closed && FailureEdge(g, a, b) && b in s && !Final(s[b]) ==> b in closed
    requires FailureChain(s, g, p)
    ensures p[|p| - 1] in closed
  {
    if |p| > 1 {
      var q := p[..|p| - 1];
      assert FailureChain(s, g, q) by {
        forall i | 0 < i < |q|
          ensures FailureEdge(g, q[i - 1], q[i]) && q[i] in s && !Final(s[q[i]])
        {
          assert q[i - 1] == p[i - 1] && q[i] == p[i];
        }
      }
      DoomedIsLeast(s, g, closed, q);
      var last := |p| - 1;
      assert FailureEdge(g, p[last - 1], p[last]);
    }
  }

  /** Propagation is a least fixpoint: it fails exactly the least set that holds
      the failed tasks and is closed under failure edges into open tasks, and
      leaves every other status alone. */
  lemma PropagationIsLeastFixpoint(s: Statuses, g: Graph, closed: set<TaskId>)
    requires forall id :: id in s && s[id].Failed? ==> id in closed
    requires forall a, b :: a in closed && FailureEdge(g, a, b) && b in s && !Final(s[b]) ==> b in closed
    ensures var r := Propagated(s, g);
            && r.Keys == s.Keys
            && (forall id :: id in s && r[id].Failed? ==> id in closed)
            && (forall id :: id in s && s[id].Failed? ==> r[id].Failed?)
            && (forall id :: id in s && r[id].Failed? ==> Settled(r, g, id))
            && (forall id :: id in s && !r[id].Failed? ==> r[id] == s[id])
  {
    var r := Propagated(s, g);
    forall id | id in s
      ensures r[id].Failed? ==> id in closed
      ensures s[id].Failed? ==> r[id].Failed?
    {
      if s[id].Failed? {
        FailedIsDoomed(s, g, id);
      } else if r[id].Failed? {
        var p :| FailureChain(s, g, p) && p[|p| - 1] == id;
        DoomedIsLeast(s, g, closed, p);
      }
    }
    PropagatedIsSettled(s, g);
  }

  lemma PropagatedIsSettled(s: Statuses, g: Graph)
    ensures var r := Propagated(s, g);
            forall id :: id in s && r[id].Failed? ==> Doomed(s, g, id) && Settled(r, g, id)
  {
    var r := Propagated(s, g);
    forall a | a in s && r[a].Failed?
      ensures Doomed(s, g, a) && Settled(r, g, a)
    {
      if s[a].Failed? {
        FailedIsDoomed(s, g, a);
      }
      forall b | b in s && FailureEdge(g, a, b)
        ensures Final(r[b])
      {
        if !Final(s[b]) {
          DoomedSpreads(s, g, a, b);
        }
      }
    }
  }

  /** The state of the search: `s0` are the statuses it started from, `s` the
      current ones, `enqueued` every id that has entered the queue. */
  ghost predicate Searching(s0: Statuses, s: Statuses, g: Graph, queue: seq<TaskId>, enqueued: seq<TaskId>) {
    && s.Keys == s0.Keys
    && (forall id :: id in s ==> s[id] == s0[id] || (s[id].Failed? && !Final(s0[id])))
    && (forall id :: id in s && s[id].Failed? ==> Doomed(s0, g, id))
    && (forall id :: id in enqueued <==> id in s && s[id].Failed?)
    && NoDup(enqueued)
    && |queue| <= |enqueued| && queue == enqueued[|enqueued| - |queue|..]
  }

  /** Every failed task outside the queue, `busy` apart, has passed its failure on. */
  ghost predicate Drained(s: Statuses, g: Graph, queue: seq<TaskId>, busy: set<TaskId>) {
    forall id :: id in s && s[id].Failed? && id !in queue && id !in busy ==> Settled(s, g, id)
  }

  ghost function Open(s: Statuses): set<TaskId> {
    set id | id in s && !Final(s[id])
  }

  /** The search may fail the open task `b` reached from the doomed task `a`. */
  lemma SearchStep(s0: Statuses, s: Statuses, g: Graph, queue: seq<TaskId>, enqueued: seq<TaskId>,
                   a: TaskId, b: TaskId, busy: set<TaskId>)
    requires Searching(s0, s, g, queue, enqueued) && Drained(s, g, queue, busy)
    requires a in s && s[a].Failed? && FailureEdge(g, a, b) && b in s && !Final(s[b])
    ensures Searching(s0, s[b := Failed], g, queue + [b], enqueued + [b])
    ensures Drained(s[b := Failed], g, queue + [b], busy)
    ensures Open(s[b := Failed]) < Open(s)
  {
    DoomedSpreads(s0, g, a, b);
    assert b in Open(s) && b !in Open(s[b := Failed]);
    assert (enqueued + [b])[|enqueued| - |queue|..] == queue + [b];
    var s' := s[b := Failed];
    forall id | id in s' && s'[id].Failed? && id !in queue + [b] && id !in busy
      ensures Settled(s', g, id)
    {
      assert id != b && id !in queue;
      assert Settled(s, g, id);
    }
  }

  /** When the queue is empty the search has computed the propagation. */
  lemma SearchDone(s0: Statuses, s: Statuses, g: Graph, enqueued: seq<TaskId>)
    requires Searching(s0, s, g, [], enqueued) && Drained(s, g, [], {})
    ensures s == Propagated(s0, g)
  {
    var failed := set id | id in s && s[id].Failed?;
    forall id | id in s
      ensures s[id] == Propagated(s0, g)[id]
    {
      if Doomed(s0, g, id) {
        var p :| FailureChain(s0, g, p) && p[|p| - 1] == id;
        forall a, b | a in failed && FailureEdge(g, a, b) && b in s0 && !Final(s0[b])
          ensures b in failed
        {
          assert Settled(s, g, a);
        }
        DoomedIsLeast(s0, g, failed, p);
      }
    }
  }
}

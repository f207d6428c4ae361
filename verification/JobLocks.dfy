/** The distributed job lock: an expiring document per lock key and lock type, taken
    by an atomic upsert under a unique index. Any number of processes call the
    methods in any order, each with its own reading of the clock. */
module JobLocks {
  import opened Collections

  datatype Key = Key(lockKey: string, lockType: string)

  const EXPIRE_SECONDS := 15

  /** The history of the collection: who took which lock when, what was written to
      `expire_at`, what was deleted. */
  datatype Event =
    | Acquired(key: Key, now: int, expireAt: int)
    | Refreshed(key: Key, expireAt: int)
    | Deleted(key: Key)

  /** The `expire_at` of the lock document after `log`, if there is a document. */
  ghost function ExpiryAfter(log: seq<Event>, k: Key): Option<int> {
    if log == [] then None else
      var last := log[|log| - 1];
      if last.key != k then ExpiryAfter(log[..|log| - 1], k)
      else if last.Deleted? then None
      else Some(last.expireAt)
  }

  /** Every acquisition found no document, or one that had expired, and lasts for 15
      seconds. */
  ghost predicate Lawful(log: seq<Event>) {
    forall j :: 0 <= j < |log| && log[j].Acquired? ==>
      var e := ExpiryAfter(log[..j], log[j].key);
      (e.None? || e.value < log[j].now) && log[j].expireAt == log[j].now + 15
  }

  ghost predicate Writes(e: Event, k: Key) {
    e.key == k && !e.Deleted?
  }

  lemma {:induction false} LastWrite(log: seq<Event>, i: nat, j: nat) returns (m: nat)
    requires i < j <= |log| && !log[i].Deleted?
    requires forall n :: i < n < j ==> log[n] != Deleted(log[i].key)
    ensures i <= m < j && Writes(log[m], log[i].key)
    ensures forall n :: m < n < j ==> log[n].key != log[i].key
    ensures ExpiryAfter(log[..j], log[i].key) == Some(log[m].expireAt)
    decreases j
  {
    assert log[..j][..j - 1] == log[..j - 1];
    if log[j - 1].key == log[i].key {
      m := j - 1;
    } else {
      m := LastWrite(log, i, j - 1);
    }
  }

  /** Lock safety: between two acquisitions of the same lock either its document was
      deleted, or the second acquirer's clock is past the last expiry written. */
  lemma AcquisitionsAreSeparated(log: seq<Event>, i: nat, j: nat)
    requires Lawful(log) && i < j < |log|
    requires log[i].Acquired? && log[j].Acquired? && log[i].key == log[j].key
    ensures || (exists n :: i < n < j && log[n] == Deleted(log[i].key))
            || (exists m :: i <= m < j && Writes(log[m], log[i].key) && log[m].expireAt < log[j].now
                            && forall n :: m < n < j ==> log[n].key != log[i].key)
  {
    if forall n :: i < n < j ==> log[n] != Deleted(log[i].key) {
      var m := LastWrite(log, i, j);
    }
  }

  /** A lock that is neither deleted nor refreshed is exclusive for 15 seconds. */
  lemma UndisturbedLockIsExclusive(log: seq<Event>, i: nat, j: nat)
    requires Lawful(log) && i < j < |log|
    requires log[i].Acquired? && log[j].Acquired? && log[i].key == log[j].key
    requires forall n :: i < n < j ==> log[n].key != log[i].key
    ensures log[i].now + 15 < log[j].now
  {
    AcquisitionsAreSeparated(log, i, j);
  }

  class LockCollection {
    var expireAt: map<Key, int>
    ghost var log: seq<Event>

    ghost predicate Valid()
      reads this
    {
      && (forall k :: ExpiryAfter(log, k) == if k in expireAt then Some(expireAt[k]) else None)
      && Lawful(log)
    }

    constructor ()
      ensures Valid() && log == [] && expireAt == map[]
    {
      expireAt, log := map[], [];
    }

    /** The upsert: it matches an expired document, inserts where there is none, and
        otherwise runs into the unique index. */
    method Acquire(k: Key, now: int) returns (acquired: bool)
      requires Valid()
      modifies this
      ensures Valid()
      ensures acquired <==> k !in old(expireAt) || old(expireAt)[k] < now
      ensures acquired ==> expireAt == old(expireAt)[k := now + 15]
                           && log == old(log) + [Acquired(k, now, now + 15)]
      ensures !acquired ==> expireAt == old(expireAt) && log == old(log)
    {
      if k in expireAt && expireAt[k] < now {
        Append(log, Acquired(k, now, now + EXPIRE_SECONDS));
        log := log + [Acquired(k, now, now + EXPIRE_SECONDS)];
        expireAt := expireAt[k := now + EXPIRE_SECONDS];
        acquired := true;
      } else if k !in expireAt {
        Append(log, Acquired(k, now, now + EXPIRE_SECONDS));
        log := log + [Acquired(k, now, now + EXPIRE_SECONDS)];
        expireAt := expireAt[k := now + EXPIRE_SECONDS];
        acquired := true;
      } else {
        acquired := false;
      }
    }

    /** One round of the refresh worker; `found` tells whether it goes on. */
    method Refresh(k: Key, now: int) returns (found: bool)
      requires Valid()
      modifies this
      ensures Valid() && (found <==> k in old(expireAt))
      ensures expireAt == if found then old(expireAt)[k := now + 15] else old(expireAt)
      ensures log == if found then old(log) + [Refreshed(k, now + 15)] else old(log)
    {
      found := k in expireAt;
      if found {
        Append(log, Refreshed(k, now + EXPIRE_SECONDS));
        log := log + [Refreshed(k, now + EXPIRE_SECONDS)];
        expireAt := expireAt[k := now + EXPIRE_SECONDS];
      }
    }

    /** `delete_one`, by whoever finishes or cleans up a job, and by the TTL index. */
    method Delete(k: Key)
      requires Valid()
      modifies this
      ensures Valid() && expireAt == old(expireAt) - {k}
      ensures log == if k in old(expireAt) then old(log) + [Deleted(k)] else old(log)
    {
      if k in expireAt {
        Append(log, Deleted(k));
        log := log + [Deleted(k)];
        expireAt := expireAt - {k};
      }
    }

    /** The cleanup at start-up deletes exactly the expired documents. */
    method CleanupStaleLocks(now: int)
      requires Valid()
      modifies this
      ensures Valid()
      ensures expireAt == map k | k in old(expireAt) && old(expireAt)[k] >= now :: old(expireAt)[k]
      ensures old(log) <= log && forall e :: e in log[|old(log)|..] ==>
                e.Deleted? && e.key in old(expireAt) && old(expireAt)[e.key] < now
    {
      var stale := set k | k in expireAt && expireAt[k] < now;
      while stale != {}
        invariant Valid()
        invariant stale <= expireAt.Keys
        invariant forall k :: k in expireAt ==> k in old(expireAt) && expireAt[k] == old(expireAt)[k]
        invariant forall k :: k in stale <==> k in expireAt && expireAt[k] < now
        invariant forall k :: k in old(expireAt) && old(expireAt)[k] >= now ==> k in expireAt
        invariant old(log) <= log
        invariant forall e :: e in log[|old(log)|..] ==>
                    e.Deleted? && e.key in old(expireAt) && old(expireAt)[e.key] < now
      {
        var k :| k in stale;
        stale := stale - {k};
        ghost var before := log;
        Delete(k);
        assert log[|old(log)|..] == before[|old(log)|..] + [Deleted(k)];
      }
    }
  }

  lemma {:induction false} Append(log: seq<Event>, e: Event)
    requires Lawful(log)
    ensures forall k :: ExpiryAfter(log + [e], k) ==
              if e.key != k then ExpiryAfter(log, k) else if e.Deleted? then None else Some(e.expireAt)
    ensures (e.Acquired? ==>
               var x := ExpiryAfter(log, e.key); (x.None? || x.value < e.now) && e.expireAt == e.now + 15) ==>
              Lawful(log + [e])
  {
    assert (log + [e])[..|log|] == log;
    forall j | 0 <= j < |log|
      ensures (log + [e])[..j] == log[..j]
    {
    }
  }
}

/** The RPC client: a circuit breaker, a retry loop and a wait loop, against a network
    that may lose, delay, repeat and reorder replies. */
module RpcCalling {
  import opened Collections

  // ---------- the circuit breaker ----------

  datatype State = Closed | Opened | HalfOpen

  /** What the breaker was told, and when it was asked. */
  datatype Verdict = Asked(at: real) | Succeeded | Failed(at: real)

  /** The failures since the last success. */
  function FailuresInARow(history: seq<Verdict>): nat {
    if history == [] then 0 else
      var before := history[..|history| - 1];
      match history[|history| - 1]
      case Asked(_) => FailuresInARow(before)
      case Succeeded => 0
      case Failed(_) => FailuresInARow(before) + 1
  }

  /** The failures that no success has followed. */
  ghost function SinceSuccess(history: seq<Verdict>): set<int> {
    set i | 0 <= i < |history| && history[i].Failed? && forall j :: i < j < |history| ==> !history[j].Succeeded?
  }

  lemma {:induction false} FailuresAreSinceSuccess(history: seq<Verdict>)
    ensures FailuresInARow(history) == |SinceSuccess(history)|
  {
    if history != [] {
      var n := |history| - 1;
      FailuresAreSinceSuccess(history[..n]);
      var before := SinceSuccess(history[..n]);
      assert n !in before;
      match history[n]
      case Asked(_) => assert SinceSuccess(history) == before;
      case Succeeded => assert SinceSuccess(history) == {};
      case Failed(_) => assert SinceSuccess(history) == before + {n};
    } else {
      assert SinceSuccess(history) == {};
    }
  }

  /** Failure `i` is the last verdict, and no question since came after the recovery time. */
  predicate StillFresh(history: seq<Verdict>, i: int, recovery: real) {
    && 0 <= i < |history| && history[i].Failed?
    && forall j :: i < j < |history| ==> history[j].Asked? && history[j].at - history[i].at <= recovery
  }

  /** Calls at `now` are refused: enough failures in a row, the last one recent, and no
      trial call was let through since. */
  ghost predicate Refuses(history: seq<Verdict>, threshold: int, recovery: real, now: real) {
    && FailuresInARow(history) >= threshold
    && exists i :: StillFresh(history, i, recovery) && now - history[i].at <= recovery
  }

  class CircuitBreaker {
    const threshold: int
    const recoveryTimeout: real
    var failureCount: nat
    var lastFailureTime: real
    var state: State
    ghost var history: seq<Verdict>

    ghost predicate Valid()
      reads this
    {
      && failureCount == FailuresInARow(history)
      && (state.Closed? <==> failureCount == 0 || failureCount < threshold)
      && (forall i :: StillFresh(history, i, recoveryTimeout) ==> lastFailureTime == history[i].at)
      && (state.Opened? <==> failureCount >= threshold && exists i :: StillFresh(history, i, recoveryTimeout))
    }

    constructor (threshold: int, recoveryTimeout: real)
      ensures Valid() && history == []
      ensures this.threshold == threshold && this.recoveryTimeout == recoveryTimeout
    {
      this.threshold, this.recoveryTimeout := threshold, recoveryTimeout;
      failureCount, lastFailureTime, state, history := 0, 0.0, Closed, [];
    }

    /** `is_open`, which lets a trial call through once the recovery time has passed. */
    method IsOpen(now: real) returns (open: bool)
      requires Valid()
      modifies this`state, this`history
      ensures Valid() && history == old(history) + [Asked(now)]
      ensures open <==> Refuses(old(history), threshold, recoveryTimeout, now)
    {
      open := false;
      if state.Opened? {
        if now - lastFailureTime > recoveryTimeout {
          state := HalfOpen;
        } else {
          open := true;
        }
      }
      FreshAfterAsking(history, recoveryTimeout, now);
      history := history + [Asked(now)];
    }

    method RecordSuccess()
      requires Valid()
      modifies this`state, this`history, this`failureCount
      ensures Valid() && history == old(history) + [Succeeded]
    {
      failureCount, state := 0, Closed;
      history := history + [Succeeded];
    }

    method RecordFailure(now: real)
      requires Valid()
      modifies this
      ensures Valid() && history == old(history) + [Failed(now)]
    {
      failureCount := failureCount + 1;
      lastFailureTime := now;
      if state.HalfOpen? || failureCount >= threshold {
        state := Opened;
      }
      history := history + [Failed(now)];
      assert StillFresh(history, |history| - 1, recoveryTimeout);
    }
  }

  lemma {:induction false} FreshAfterAsking(history: seq<Verdict>, recovery: real, now: real)
    ensures var h := history + [Asked(now)];
            && FailuresInARow(h) == FailuresInARow(history)
            && forall i :: StillFresh(h, i, recovery) <==>
                             (StillFresh(history, i, recovery) && now - history[i].at <= recovery)
  {
    var h := history + [Asked(now)];
    assert h[..|history|] == history;
    forall i | StillFresh(history, i, recovery) && now - history[i].at <= recovery
      ensures StillFresh(h, i, recovery)
    {
    }
    forall i | StillFresh(h, i, recovery)
      ensures StillFresh(history, i, recovery) && now - history[i].at <= recovery
    {
      assert h[|history|].Asked?;
      assert forall j :: 0 <= j < |history| ==> h[j] == history[j];
    }
  }

  function FailuresAt(times: seq<real>): (h: seq<Verdict>)
    ensures |h| == |times| && forall i :: 0 <= i < |h| ==> h[i] == Failed(times[i])
  {
    seq(|times|, i requires 0 <= i < |times| => Failed(times[i]))
  }

  lemma {:induction false} FailuresAfterSuccess(before: seq<Verdict>, times: seq<real>)
    ensures FailuresInARow(before + [Succeeded] + FailuresAt(times)) == |times|
  {
    var h := before + [Succeeded] + FailuresAt(times);
    if times == [] {
      assert h == before + [Succeeded];
    } else {
      var init := times[..|times| - 1];
      FailuresAfterSuccess(before, init);
      assert h[..|h| - 1] == before + [Succeeded] + FailuresAt(init);
    }
  }

  /** After a success and then failures, calls are refused exactly if the failures are as
      many as the threshold and the last was within the recovery time; and no longer once
      a question after that time has let a trial call through. */
  lemma BreakerTrips(before: seq<Verdict>, times: seq<real>, threshold: int, recovery: real, asked: real, now: real)
    requires times != []
    ensures var h, last := before + [Succeeded] + FailuresAt(times), times[|times| - 1];
            && (Refuses(h, threshold, recovery, now) <==> |times| >= threshold && now - last <= recovery)
            && (Refuses(h + [Asked(asked)], threshold, recovery, now) <==>
                  |times| >= threshold && asked - last <= recovery && now - last <= recovery)
  {
    var h, last := before + [Succeeded] + FailuresAt(times), times[|times| - 1];
    FailuresAfterSuccess(before, times);
    FreshAfterAsking(h, recovery, asked);
    assert h[|h| - 1] == Failed(last);
    assert forall i :: StillFresh(h, i, recovery) <==> i == |h| - 1;
  }

  // ---------- the network ----------

  /** A reply body, unpickled: None, a dict with a status, or any other object. */
  datatype Payload =
    | NoValue
    | ErrorReply(kind: Option<string>, message: Option<string>)
    | SuccessReply(result: Option<int>)
    | Plain(value: int)
    | Unreadable

  /** A reply carries the correlation id of the request it was produced for. */
  datatype Request = Request(corrId: int, call: nat)
  datatype Reply = Reply(request: nat, payload: Payload)

  /** What an operation on the connection may run into; a publication that fails may
      have gone out all the same. */
  datatype Fault = NoFault | ConnectionLost(sent: bool) | ServiceMissing | OtherFault

  /** The world between two operations: the clock, the replies delivered, and the fault. A reply to
      a request that is not published yet does not exist and is skipped. */
  datatype Happening = Happening(clock: real, replies: seq<Reply>, fault: Fault)

  datatype Attempt = Got(payload: Payload) | LostConnection | TimedOut | Unavailable | Crashed

  datatype Outcome =
    | Refused
    | Returned(payload: Payload)
    | Raised(kind: string, message: string)
    | GaveUp
    | Broke

  const ALLOWED: set<string> :=
    {"TypeError", "ValueError", "KeyError", "AttributeError", "RuntimeError", "PermissionError"}

  /** What `_raise_rpc_exception` raises: an allowed type as itself, any other as
      RuntimeError. The raise stands inside the try whose handler catches
      AttributeError, so that one becomes a RuntimeError too. */
  function RaisedKind(kind: Option<string>): (r: string)
    ensures r in ALLOWED - {"AttributeError"}
    ensures kind.Some? && kind.value in ALLOWED && kind.value != "AttributeError" ==> r == kind.value
  {
    var named := if kind.Some? then kind.value else "RpcError";
    var thrown := if named in ALLOWED then named else "RuntimeError";
    if thrown == "AttributeError" then "RuntimeError" else thrown
  }

  /** The exceptions on which a call tries again. */
  const RETRIED: set<string> := {"AMQPConnectionError", "ChannelClosed", "TimeoutError", "ServiceUnavailableError"}

  /** What the caller makes of the reply it accepted: an error of the service is
      raised, but never as one on which the call would try again. */
  function Interpret(p: Payload): (out: Outcome)
    ensures if p.ErrorReply? then out.Raised? else out.Returned?
    ensures out.Raised? ==> out.kind in {"TypeError", "ValueError", "KeyError", "RuntimeError", "PermissionError"}
    ensures out.Raised? ==> out.kind !in RETRIED
  {
    match p
    case ErrorReply(kind, message) =>
      Raised(RaisedKind(kind), if message.Some? then message.value else "Unknown RPC error")
    case SuccessReply(result) => Returned(if result.Some? then Plain(result.value) else NoValue)
    case _ => Returned(p)
  }

  /** What became of a request at the service: its method returned a value or None, or
      something was raised, with the name of its type and its message. */
  datatype Served = Gave(result: Option<int>) | Threw(kind: string, message: string)

  /** The reply of the listener. */
  function ReplyTo(did: Served): Payload {
    match did
    case Gave(result) => SuccessReply(result)
    case Threw(kind, message) => ErrorReply(Some(kind), Some(message))
  }

  /** `out` tells the caller what `did` happened: the value that the method returned; or
      its exception, by its own type if that is one of five and as a RuntimeError
      otherwise, with its own message. */
  ghost predicate Conveys(out: Outcome, did: Served) {
    match did
    case Gave(None) => out == Returned(NoValue)
    case Gave(Some(v)) => out == Returned(Plain(v))
    case Threw(kind, message) =>
      var five := {"TypeError", "ValueError", "KeyError", "RuntimeError", "PermissionError"};
      out == Raised(if kind in five then kind else "RuntimeError", message)
  }

  /** The round trip: through the listener's reply the caller gets what the method did.
      A reply without a status is returned unchanged; an error that names neither type nor
      message is a RuntimeError, "Unknown RPC error". */
  lemma ReplyConveys(did: Served)
    ensures Conveys(Interpret(ReplyTo(did)), did)
    ensures ReplyTo(did) != NoValue && ReplyTo(did) != Unreadable
    ensures forall v :: Interpret(Plain(v)) == Returned(Plain(v))
    ensures Interpret(ErrorReply(None, None)) == Raised("RuntimeError", "Unknown RPC error")
  {
  }

  /** Sooner or later every deadline passes. */
  ghost predicate TimePasses(env: nat -> Happening) {
    forall t: nat, limit: real :: WillPass(env, t, limit)
  }

  ghost predicate WillPass(env: nat -> Happening, t: nat, limit: real) {
    exists u: nat :: Past(env, u, t, limit)
  }

  ghost predicate Past(env: nat -> Happening, u: nat, t: nat, limit: real) {
    t <= u && env(u).clock > limit
  }

  /** Between two logs at most `limit` requests were added, all by one call under one id. */
  ghost predicate Issued(before: seq<Request>, after: seq<Request>, limit: int, request: Request) {
    && before <= after && |after| - |before| <= (if limit < 0 then 0 else limit)
    && forall i :: |before| <= i < |after| ==> after[i] == request
  }

  ghost predicate NeverReused(ids: nat -> int) {
    forall i, j :: i != j ==> ids(i) != ids(j)
  }

  class RpcCaller {
    const maxRetries: int
    const timeout: real
    const env: nat -> Happening
    /** The correlation id that each call draws. */
    const ids: nat -> int
    const breaker: CircuitBreaker
    var tick: nat
    var response: Option<Payload>
    var corrId: int
    var calls: nat
    /** The requests published so far, with the call that published each. */
    var published: seq<Request>
    /** The request that the response was produced for. */
    ghost var source: nat
    ghost var attempts: nat

    ghost predicate Valid()
      reads this, breaker
    {
      && breaker.Valid() && TimePasses(env)
      && (forall i :: 0 <= i < |published| ==>
            published[i].call < calls && published[i].corrId == ids(published[i].call))
      && (calls > 0 ==> corrId == ids(calls - 1))
    }

    constructor (maxRetries: int, timeout: real, breaker: CircuitBreaker, env: nat -> Happening, ids: nat -> int)
      requires breaker.Valid() && TimePasses(env)
      ensures Valid() && this.breaker == breaker && published == [] && calls == 0
      ensures this.maxRetries == maxRetries && this.timeout == timeout && this.env == env && this.ids == ids
    {
      this.maxRetries, this.timeout, this.breaker, this.env, this.ids := maxRetries, timeout, breaker, env, ids;
      tick, response, corrId, calls, published, source, attempts := 0, None, 0, 0, [], 0, 0;
    }

    /** The response is a reply, delivered since tick `since`, to a request with the
        current correlation id. */
    ghost predicate Heard(since: nat)
      reads this
    {
      response.Some? ==>
        && source < |published| && published[source].corrId == corrId
        && response.value != NoValue && response.value != Unreadable
        && exists t :: since <= t < tick && Reply(source, response.value) in env(t).replies
    }

    /** `_on_response`: a reply with the current correlation id replaces the response. */
    method OnResponse(reply: Reply) returns (readable: bool)
      modifies this`response, this`source
      ensures var taken := reply.request < |published| && published[reply.request].corrId == corrId;
              if !taken then readable && response == old(response) && source == old(source)
              else readable == !reply.payload.Unreadable? && source == reply.request
                   && response == if reply.payload.NoValue? then None
                                  else if readable then Some(reply.payload) else old(response)
    {
      readable := true;
      if reply.request < |published| && published[reply.request].corrId == corrId {
        source := reply.request;
        match reply.payload
        case Unreadable => readable := false;
        case NoValue => response := None;
        case _ => response := Some(reply.payload);
      }
    }

    /** An operation on the connection, which delivers the replies that are there. */
    method Deliver(ghost since: nat) returns (fault: Fault)
      requires since <= tick && Heard(since)
      modifies this`response, this`source, this`tick
      ensures tick == old(tick) + 1
      ensures !fault.OtherFault? ==> fault == env(old(tick)).fault && Heard(since)
    {
      var now := env(tick);
      tick := tick + 1;
      for i := 0 to |now.replies|
        invariant Heard(since) && tick == old(tick) + 1
      {
        var readable := OnResponse(now.replies[i]);
        if !readable {
          return OtherFault;
        }
        assert now.replies[i] in env(tick - 1).replies;
      }
      fault := now.fault;
    }

    /** The wait loop: connection events are served until there is a response. */
    method AwaitResponse(ghost since: nat) returns (r: Attempt)
      requires Valid() && since <= tick && Heard(since)
      modifies this`response, this`source, this`tick
      ensures Valid() && since <= tick
      ensures r.Got? ==> response == Some(r.payload) && Heard(since)
      ensures r.TimedOut? ==> response.None? && env(tick).clock - env(old(tick)).clock > timeout
    {
      var start := env(tick).clock;
      ghost var limit := start + timeout;
      assert WillPass(env, tick, limit);
      ghost var deadline: nat :| Past(env, deadline, tick, limit);
      while response.None?
        invariant Valid() && since <= tick <= deadline && Heard(since)
        decreases deadline - tick
      {
        if env(tick).clock - start > timeout {
          return TimedOut;
        }
        var fault := Deliver(since);
        if !fault.NoFault? {
          return if fault.OtherFault? then Crashed else LostConnection;
        }
      }
      r := Got(response.value);
    }

    /** `_execute_call`: one attempt. */
    method ExecuteCall() returns (r: Attempt)
      requires Valid() && calls > 0
      modifies this`response, this`source, this`tick, this`published, this`attempts
      ensures Valid() && old(tick) <= tick && attempts == old(attempts) + 1
      ensures published == old(published) || published == old(published) + [Request(corrId, calls - 1)]
      ensures r.Got? || r.TimedOut? ==> published != old(published)
      ensures r.Got? ==> response == Some(r.payload) && Heard(old(tick))
    {
      hide CircuitBreaker.Valid, TimePasses;
      ghost var since := tick;
      attempts := attempts + 1;
      response := None;
      var fault := Deliver(since);
      if !fault.NoFault? {
        return if fault.ServiceMissing? then Unavailable else if fault.OtherFault? then Crashed else LostConnection;
      }
      fault := Deliver(since);
      if fault.OtherFault? {
        return Crashed;
      }
      if fault != ConnectionLost(false) {
        published := published + [Request(corrId, calls - 1)];
      }
      if !fault.NoFault? {
        return LostConnection;
      }
      r := AwaitResponse(since);
    }

    function Tries(): nat {
      if maxRetries < 0 then 0 else maxRetries
    }

    /** The retry loop, up to an attempt that ends it. */
    method Attempts() returns (r: Attempt)
      requires Valid() && calls > 0
      modifies this`response, this`source, this`tick, this`published, this`attempts
      ensures Valid()
      ensures Issued(old(published), published, maxRetries, Request(corrId, calls - 1))
      ensures 0 <= attempts - old(attempts) <= Tries()
      ensures !r.Got? && !r.Crashed? ==> attempts - old(attempts) == Tries()
      ensures r.Got? ==> response == Some(r.payload) && Heard(old(tick)) && published != old(published)
    {
      hide CircuitBreaker.Valid, TimePasses;
      r := Unavailable;
      var attempt := 1;
      while attempt <= maxRetries
        invariant Valid() && old(tick) <= tick && attempt >= 1 && !r.Got?
        invariant Issued(old(published), published, attempt - 1, Request(corrId, calls - 1))
        invariant attempt <= maxRetries + 1 || attempt == 1
        invariant attempts - old(attempts) == attempt - 1
      {
        ghost var start := tick;
        r := ExecuteCall();
        if r.Got? {
          HeardSince(start, old(tick));
          return;
        }
        if r.Crashed? {
          return;
        }
        attempt := attempt + 1;
      }
    }

    lemma HeardSince(start: nat, since: nat)
      requires Heard(start) && since <= start
      ensures Heard(since)
    {
    }

    /** `call`: refused, or up to `maxRetries` attempts under one correlation id. The
        reply that it returns or raises from was produced, and delivered since the call
        began, for a request with that id: one of its own, if ids are never reused.
        If the listener produced it, the caller gets what the service method did. */
    method Call() returns (out: Outcome)
      requires Valid()
      modifies this, breaker
      ensures Valid()
      ensures out.Refused? <==>
                Refuses(old(breaker.history), breaker.threshold, breaker.recoveryTimeout, env(old(tick)).clock)
      ensures out.Refused? ==> published == old(published) && calls == old(calls) && corrId == old(corrId)
      ensures !out.Refused? ==>
                && calls == old(calls) + 1 && corrId == ids(old(calls))
                && Issued(old(published), published, maxRetries, Request(corrId, old(calls)))
      ensures out.Returned? || out.Raised? ==>
                && response.Some? && out == Interpret(response.value) && Heard(old(tick)) && published != old(published)
                && (NeverReused(ids) ==> |old(published)| <= source < |published|)
                && (forall did :: response.value == ReplyTo(did) ==> Conveys(out, did))
                && (response.value.Plain? ==> out == Returned(response.value))
      ensures maxRetries >= 0 ==> |published| - |old(published)| <= maxRetries
      ensures maxRetries >= 0 ==> attempts - old(attempts) <= maxRetries
      ensures maxRetries >= 0 && out.GaveUp? ==> attempts - old(attempts) == maxRetries
      ensures maxRetries < 0 ==> published == old(published) && attempts == old(attempts)
      ensures var asked := old(breaker.history) + [Asked(env(old(tick)).clock)];
              match out
              case Returned(_) => breaker.history == asked + [Succeeded]
              case GaveUp => exists now :: breaker.history == asked + [Failed(now)]
              case _ => breaker.history == asked
    {
      hide CircuitBreaker.Valid, Refuses, TimePasses, NeverReused, Heard, Issued, Interpret;
      var open := breaker.IsOpen(env(tick).clock);
      if open {
        return Refused;
      }
      corrId := ids(calls);
      calls := calls + 1;
      var r := Attempts();
      if r.Got? {
        OwnRequest(old(tick), old(published));
        ReplyGivesOutcome(r.payload);
      }
      IssuedIs(old(published), published, maxRetries, Request(corrId, old(calls)));
      out := Conclude(r);
    }

    lemma IssuedIs(before: seq<Request>, after: seq<Request>, limit: int, request: Request)
      requires Issued(before, after, limit, request)
      ensures |after| - |before| <= (if limit < 0 then 0 else limit)
      ensures limit < 0 ==> after == before
    {
    }

    lemma ReplyGivesOutcome(payload: Payload)
      ensures forall did :: payload == ReplyTo(did) ==> Conveys(Interpret(payload), did)
      ensures payload.Plain? ==> Interpret(payload) == Returned(payload)
    {
      forall did | payload == ReplyTo(did)
        ensures Conveys(Interpret(payload), did)
      {
        ReplyConveys(did);
      }
    }

    /** The end of `call`: what it returns or raises, and what the breaker is told. */
    method Conclude(r: Attempt) returns (out: Outcome)
      requires breaker.Valid()
      modifies breaker
      ensures breaker.Valid()
      ensures match r
              case Got(payload) => out == Interpret(payload)
              case Crashed => out == Broke
              case _ => out == GaveUp
      ensures match out
              case Returned(_) => breaker.history == old(breaker.history) + [Succeeded]
              case GaveUp => exists now :: breaker.history == old(breaker.history) + [Failed(now)]
              case _ => breaker.history == old(breaker.history)
    {
      hide CircuitBreaker.Valid;
      match r
      case Got(payload) =>
        out := Interpret(payload);
        if out.Returned? {
          breaker.RecordSuccess();
        }
      case Crashed =>
        out := Broke;
      case _ =>
        breaker.RecordFailure(env(tick).clock);
        out := GaveUp;
    }

    /** With fresh ids, the current one is on no request of an earlier call. */
    lemma OwnRequest(since: nat, before: seq<Request>)
      requires Valid() && calls > 0 && Heard(since) && response.Some?
      requires Issued(before, published, maxRetries, Request(corrId, calls - 1))
      requires forall i :: 0 <= i < |before| ==> before[i].call < calls - 1
      ensures NeverReused(ids) ==> |before| <= source < |published|
    {
    }
  }
}

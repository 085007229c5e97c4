/**
 What the agent as a whole does with commands over runs: how many get past the rate limiter, how far
 apart one nonce is accepted, which lockdowns last, and what a row says about its command.
*/
module Admission {
  import opened Basics
  import opened AgentState
  import opened RateLimit
  import opened System
  import Auth
  import Audit

  // ---------------------------------------------------------------- the gate

  predicate IsCommand(e: Event) {
    e.Ack? || e.Http? || e.WebSocket?
  }

  function AttemptOf(cfg: Config): (Core, Event) -> nat {
    (core: Core, e: Event) => if Runs(cfg, core, e) then 1 else 0
  }

  /** A request for `run_verified_command` is turned away by a lockdown or a wrong token, and then it
      changes nothing. Over WebSocket the lockdown lets through what reads as an acknowledgement. */
  lemma TheGate(cfg: Config, core: Core, e: Event)
    requires e.Http? || e.WebSocket?
    ensures !Runs(cfg, core, e) ==> Step(cfg, core, e) == core
    ensures Runs(cfg, core, e) ==> Step(cfg, core, e) == RunVerified(cfg, core, e.signed, e.env).0
    ensures e.Http? ==> (Runs(cfg, core, e) <==> !core.lock.flag && e.token == cfg.internalToken)
    ensures e.WebSocket? ==>
              (Runs(cfg, core, e) <==> !core.lock.flag || PeekInnerCommandType(cfg, e.signed) == Some("agent.heartbeat_ack"))
  {
  }

  /** The reply of a request that is turned away: the lockdown comes before the token. */
  lemma GateReplies(cfg: Config, core: Core, token: string, signed: Auth.SignedCommand, env: Env)
    ensures core.lock.flag ==> Execute(cfg, core, token, signed, env).1 == Err(LockdownActive)
    ensures !core.lock.flag && token != cfg.internalToken ==> Execute(cfg, core, token, signed, env).1 == Err(Unauthorized)
    ensures core.lock.flag && PeekInnerCommandType(cfg, signed) != Some("agent.heartbeat_ack") ==>
              HandleMessage(cfg, core, signed, env).1 == Err(LockdownActive)
  {
  }

  /** The document behind the payload is an object, and the value has this text as its type. */
  predicate TypeIs(doc: Auth.Json, t: string) {
    && doc.Object? && "command" in doc.fields
    && var command := doc.fields["command"];
       command.Object? && "type" in command.fields && command.fields["type"] == Auth.String(t)
  }

  /** What is read of a payload that nobody has verified. */
  lemma PeekReads(cfg: Config, signed: Auth.SignedCommand, t: string)
    ensures PeekInnerCommandType(cfg, signed) == Some(t) <==>
              && signed.payload.Some? && cfg.auth.document(signed.payload.value).Some?
              && TypeIs(cfg.auth.document(signed.payload.value).value, t)
  {
    if signed.payload.Some? && cfg.auth.document(signed.payload.value).Some? {
      var doc := cfg.auth.document(signed.payload.value).value;
      if doc.Object? && "command" in doc.fields {
        Auth.TypeFieldIff(doc.fields["command"], t);
      }
    }
  }

  /** The heartbeat path takes exactly verified acknowledgements, which clear a lockdown for a missed
      heartbeat and no other; whatever else it is sent uses up at most a nonce. */
  lemma HeartbeatPathTakesAcksOnly(cfg: Config, core: Core, signed: Auth.SignedCommand, env: Env)
    requires core.lock.Consistent()
    ensures var (after, ok) := HandleHeartbeat(cfg, core, signed, env);
            var verified := Verify(cfg, core, signed, env).1;
            && (ok <==> verified.Ok? && verified.value.command.TypeField() == Some("agent.heartbeat_ack"))
            && after.nonces == Verify(cfg, core, signed, env).0 && after.rows == core.rows && after.rate == core.rate
            && after.lastHeartbeat == (if ok then env.monotonic else core.lastHeartbeat)
            && after.lock == (if ok && core.lock.reason == Some(Heartbeat) then Lockdown(false, None) else core.lock)
  {
  }

  // ---------------------------------------------------------------- the rate limiter over runs

  /** The command gets past the rate limiter. */
  predicate Passes(cfg: Config, core: Core, e: Event) {
    Runs(cfg, core, e) && core.rate.Check(e.env.now).1
  }

  /** One that does not is refused as such and leaves no trace at all. */
  lemma RefusedCommandLeavesNoTrace(cfg: Config, core: Core, e: Event)
    requires Runs(cfg, core, e) && !Passes(cfg, core, e)
    ensures RunVerified(cfg, core, e.signed, e.env) == (core, Err(BadRequest("rate limit exceeded")))
    ensures Step(cfg, core, e) == core
  {
  }

  /** One that does is verified, and refused if the verification says so. */
  lemma PassingCommandIsVerified(cfg: Config, core: Core, e: Event)
    requires Passes(cfg, core, e)
    ensures RunVerified(cfg, core, e.signed, e.env).0.nonces == Verify(cfg, core, e.signed, e.env).0
    ensures Verify(cfg, core, e.signed, e.env).1.Err? ==> RunVerified(cfg, core, e.signed, e.env).1 == Err(Unauthorized)
  {
  }

  /** The commands that get past the limiter at a time in [from, from + 60). */
  function PassesIn(cfg: Config, from: nat): (Core, Event) -> nat {
    (core: Core, e: Event) => if Passes(cfg, core, e) && from <= e.env.now < from + 60 then 1 else 0
  }

  function Passed(cfg: Config, core: Core, events: seq<Event>, from: nat, n: nat): nat
    requires n <= |events|
  {
    Tally(Machine(cfg), core, events, PassesIn(cfg, from), n)
  }

  function TimesOf(cfg: Config): (Core, Event) -> seq<nat> {
    (core: Core, e: Event) => if Runs(cfg, core, e) then [e.env.now] else []
  }

  /** When the first `n` events of a run asked the limiter. */
  function CallTimes(cfg: Config, core: Core, events: seq<Event>, n: nat): seq<nat>
    requires n <= |events|
  {
    Gathered(Machine(cfg), core, events, TimesOf(cfg), n)
  }

  lemma RunVerifiedCharges(cfg: Config, core: Core, signed: Auth.SignedCommand, env: Env)
    ensures RunVerified(cfg, core, signed, env).0.rate == core.rate.Check(env.now).0
  {
  }

  lemma StepCharges(cfg: Config, core: Core, e: Event)
    ensures Step(cfg, core, e).rate == if Runs(cfg, core, e) then core.rate.Check(e.env.now).0 else core.rate
  {
    if Runs(cfg, core, e) {
      RunVerifiedCharges(cfg, core, e.signed, e.env);
    }
  }

  /** The limiter has been charged with these calls, and has let that many of them past. */
  function Charged(rate: Rate, from: nat): (Core, seq<nat>, nat) -> bool {
    (core: Core, calls: seq<nat>, passed: nat) => core.rate == RateAfter(rate, calls) && passed == Admitted(rate, calls, from)
  }

  lemma StepIsACall(cfg: Config, rate: Rate, from: nat, core: Core, calls: seq<nat>, passed: nat, e: Event)
    ensures FollowsAt(Machine(cfg), TimesOf(cfg), PassesIn(cfg, from), Charged(rate, from), core, calls, passed, e)
  {
    StepCharges(cfg, core, e);
    if Runs(cfg, core, e) {
      OneMoreCall(rate, calls, e.env.now, from);
    } else {
      assert calls + TimesOf(cfg)(core, e) == calls;
    }
  }

  /** Every command that gets to the limiter is charged to it, whatever becomes of it, and nothing else is. */
  lemma RunChargesItsCalls(cfg: Config, core: Core, events: seq<Event>, from: nat, n: nat)
    requires n <= |events|
    ensures StateAt(cfg, core, events, n).rate == RateAfter(core.rate, CallTimes(cfg, core, events, n))
    ensures Passed(cfg, core, events, from, n) == Admitted(core.rate, CallTimes(cfg, core, events, n), from)
  {
    forall x, calls, k, e
      ensures FollowsAt(Machine(cfg), TimesOf(cfg), PassesIn(cfg, from), Charged(core.rate, from), x, calls, k, e)
    {
      StepIsACall(cfg, core.rate, from, x, calls, k, e);
    }
    FollowsInRuns(Machine(cfg), core, events, TimesOf(cfg), PassesIn(cfg, from), Charged(core.rate, from), n);
  }

  /** The clock of the agent does not go back, and it is past the first minute of 1970. */
  predicate ClockGoesOn(events: seq<Event>) {
    && (forall k | 0 <= k < |events| && IsCommand(events[k]) :: 60 <= events[k].env.now)
    && (forall j, k | 0 <= j < k < |events| && IsCommand(events[j]) && IsCommand(events[k]) ::
          events[j].env.now <= events[k].env.now)
  }

  /** All calls so far were made in the second minute of 1970 or later, and none after `t`. */
  predicate CalledUpTo(calls: seq<nat>, t: nat) {
    forall i | 0 <= i < |calls| :: 60 <= calls[i] <= t
  }

  lemma OneLaterCall(calls: seq<nat>, t: nat)
    requires NonDecreasing(calls) && CalledUpTo(calls, t) && 60 <= t
    ensures NonDecreasing(calls + [t]) && CalledUpTo(calls + [t], t)
  {
  }

  lemma {:induction false} CallTimesAreOrdered(cfg: Config, core: Core, events: seq<Event>, n: nat, t: nat)
    requires n <= |events| && ClockGoesOn(events)
    requires forall k | 0 <= k < n && IsCommand(events[k]) :: events[k].env.now <= t
    ensures NonDecreasing(CallTimes(cfg, core, events, n)) && CalledUpTo(CallTimes(cfg, core, events, n), t)
  {
    if n > 0 {
      var e := events[n - 1];
      if Runs(cfg, StateAt(cfg, core, events, n - 1), e) {
        CallTimesAreOrdered(cfg, core, events, n - 1, e.env.now);
        OneLaterCall(CallTimes(cfg, core, events, n - 1), e.env.now);
      } else {
        CallTimesAreOrdered(cfg, core, events, n - 1, t);
      }
    }
  }

  /** In every run of the agent, by HTTP and WebSocket together and whatever else happens in between,
      no half-open minute lets more than 199 commands past the limiter. */
  lemma AtMost199AMinute(cfg: Config, core: Core, events: seq<Event>, from: nat, n: nat)
    requires core.rate == Rate(0, 0) && ClockGoesOn(events) && n <= |events|
    ensures Passed(cfg, core, events, from, n) <= 199
  {
    RunChargesItsCalls(cfg, core, events, from, n);
    var calls := CallTimes(cfg, core, events, n);
    var t := LatestTime(events, n);
    CallTimesAreOrdered(cfg, core, events, n, t);
    if calls != [] {
      BoundedFromACleanStart(calls, from);
    }
  }

  lemma {:induction false} LatestTime(events: seq<Event>, n: nat) returns (t: nat)
    requires n <= |events|
    ensures forall k | 0 <= k < n && IsCommand(events[k]) :: events[k].env.now <= t
  {
    if n == 0 {
      t := 0;
    } else {
      t := LatestTime(events, n - 1);
      if IsCommand(events[n - 1]) {
        t := Max(t, events[n - 1].env.now);
      }
    }
  }

  /** How many of the first `n` events asked the limiter. */
  function Attempts(cfg: Config, core: Core, events: seq<Event>, n: nat): nat
    requires n <= |events|
  {
    Tally(Machine(cfg), core, events, AttemptOf(cfg), n)
  }

  predicate WithinTheWindow(rate: Rate, events: seq<Event>) {
    forall k | 0 <= k < |events| && IsCommand(events[k]) :: rate.start <= events[k].env.now < rate.start + 60
  }

  lemma AttemptsAreCalls(cfg: Config, core: Core, events: seq<Event>, n: nat)
    requires n <= |events|
    ensures |CallTimes(cfg, core, events, n)| == Attempts(cfg, core, events, n)
  {
    var asMany := (x: Core, calls: seq<nat>, attempts: nat) => |calls| == attempts;
    forall x, calls, k, e ensures FollowsAt(Machine(cfg), TimesOf(cfg), AttemptOf(cfg), asMany, x, calls, k, e) {
    }
    FollowsInRuns(Machine(cfg), core, events, TimesOf(cfg), AttemptOf(cfg), asMany, n);
  }

  predicate CalledWithin(calls: seq<nat>, start: nat) {
    forall i | 0 <= i < |calls| :: start <= calls[i] < start + 60
  }

  lemma {:induction false} CallTimesAreWithin(cfg: Config, core: Core, events: seq<Event>, n: nat)
    requires n <= |events| && WithinTheWindow(core.rate, events)
    ensures CalledWithin(CallTimes(cfg, core, events, n), core.rate.start)
  {
    if n > 0 {
      CallTimesAreWithin(cfg, core, events, n - 1);
    }
  }

  lemma WindowTally(cfg: Config, core: Core, events: seq<Event>, n: nat)
    requires core.rate.count <= 100 && WithinTheWindow(core.rate, events) && n <= |events|
    ensures Passed(cfg, core, events, core.rate.start, n) == Min(Attempts(cfg, core, events, n), 100 - core.rate.count)
  {
    AttemptsAreCalls(cfg, core, events, n);
    CallTimesAreWithin(cfg, core, events, n);
    RunChargesItsCalls(cfg, core, events, core.rate.start, n);
    WindowAdmitsTheFirstHundred(core.rate, CallTimes(cfg, core, events, n));
  }

  /** Within one window a command gets past the limiter exactly when fewer than a hundred of the
      window have asked before it. */
  lemma ExactlyTheFirstHundred(cfg: Config, core: Core, events: seq<Event>, k: nat)
    requires core.rate.count <= 100 && WithinTheWindow(core.rate, events) && k < |events|
    requires Runs(cfg, StateAt(cfg, core, events, k), events[k])
    ensures Passes(cfg, StateAt(cfg, core, events, k), events[k]) <==> core.rate.count + Attempts(cfg, core, events, k) < 100
  {
    WindowTally(cfg, core, events, k);
    WindowTally(cfg, core, events, k + 1);
  }

  /** Requests with the right token, at the given moments. */
  function Requests(cfg: Config, signed: Auth.SignedCommand, env: Env, calls: seq<nat>): seq<Event> {
    seq(|calls|, (i: nat) requires i < |calls| => Http(cfg.internalToken, signed, env.(now := calls[i])))
  }

  lemma RequestsDoNotLock(cfg: Config, core: Core, e: Event)
    requires e.Http? && !core.lock.flag
    ensures !Step(cfg, core, e).lock.flag
  {
  }

  predicate AreRequests(cfg: Config, events: seq<Event>, calls: seq<nat>) {
    && |events| == |calls|
    && forall k | 0 <= k < |events| :: events[k].Http? && events[k].token == cfg.internalToken && events[k].env.now == calls[k]
  }

  lemma {:induction false} RequestsStayUnlocked(cfg: Config, core: Core, events: seq<Event>, calls: seq<nat>, n: nat)
    requires !core.lock.flag && AreRequests(cfg, events, calls) && n <= |events|
    ensures !StateAt(cfg, core, events, n).lock.flag
  {
    if n > 0 {
      RequestsStayUnlocked(cfg, core, events, calls, n - 1);
      RequestsDoNotLock(cfg, StateAt(cfg, core, events, n - 1), events[n - 1]);
    }
  }

  lemma RequestIsACall(cfg: Config, core: Core, e: Event, t: nat)
    requires !core.lock.flag && e.Http? && e.token == cfg.internalToken && e.env.now == t
    ensures TimesOf(cfg)(core, e) == [t]
  {
  }

  lemma RequestsAreCalls(cfg: Config, core: Core, events: seq<Event>, calls: seq<nat>, n: nat)
    requires !core.lock.flag && AreRequests(cfg, events, calls) && n <= |events|
    ensures CallTimes(cfg, core, events, n) == calls[..n]
  {
    forall k | 0 <= k < |events| ensures TimesOf(cfg)(StateAt(cfg, core, events, k), events[k]) == [calls[k]] {
      RequestsStayUnlocked(cfg, core, events, calls, k);
      RequestIsACall(cfg, StateAt(cfg, core, events, k), events[k], calls[k]);
    }
    OneEach(Machine(cfg), core, events, TimesOf(cfg), calls, n);
  }

  /** The bound is reached: some run of requests gets 199 commands past the limiter in one minute,
      whether they verify or not. */
  lemma AMinuteOf199(cfg: Config, core: Core, signed: Auth.SignedCommand, env: Env) returns (events: seq<Event>)
    requires !core.lock.flag && core.rate == Rate(0, 0)
    ensures ClockGoesOn(events) && Passed(cfg, core, events, 61, |events|) == 199
  {
    var calls := NinetyNinePlusHundred(60);
    events := Requests(cfg, signed, env, calls);
    RequestsAreCalls(cfg, core, events, calls, |calls|);
    RunChargesItsCalls(cfg, core, events, 61, |calls|);
    assert calls[..|calls|] == calls;
  }

  // ---------------------------------------------------------------- nonces over runs

  /** The event verifies a command whose payload carries the nonce. */
  predicate AcceptsNonce(cfg: Config, core: Core, e: Event, nonce: string) {
    && (e.Ack? || Passes(cfg, core, e))
    && Verify(cfg, core, e.signed, e.env).1.Ok?
    && e.signed.payload.Some? && cfg.auth.Parse(e.signed.payload.value).Some?
    && cfg.auth.Parse(e.signed.payload.value).value.nonce == nonce
  }

  predicate OnRecord(core: Core, nonce: string, at: int) {
    nonce in core.nonces && core.nonces[nonce] == at
  }

  lemma VerifyKeepsTheRecord(cfg: Config, core: Core, signed: Auth.SignedCommand, env: Env, nonce: string, at: int)
    requires OnRecord(core, nonce, at) && env.queries.purgeAt <= at + 300_000_000
    ensures nonce in Verify(cfg, core, signed, env).0 && Verify(cfg, core, signed, env).0[nonce] == at
  {
  }

  lemma StepKeepsTheRecord(cfg: Config, core: Core, e: Event, nonce: string, at: int)
    requires OnRecord(core, nonce, at) && (IsCommand(e) ==> e.env.queries.purgeAt <= at + 300_000_000)
    ensures OnRecord(Step(cfg, core, e), nonce, at)
  {
    if IsCommand(e) {
      VerifyKeepsTheRecord(cfg, core, e.signed, e.env, nonce, at);
      if Passes(cfg, core, e) {
        PassingCommandIsVerified(cfg, core, e);
      } else if Runs(cfg, core, e) {
        RefusedCommandLeavesNoTrace(cfg, core, e);
      }
    }
  }

  lemma AcceptedNonceIsNew(cfg: Config, core: Core, e: Event, nonce: string, at: int)
    requires OnRecord(core, nonce, at) && AcceptsNonce(cfg, core, e, nonce)
    ensures e.env.queries.purgeAt > at + 300_000_000
  {
  }

  lemma VerifyRecords(cfg: Config, core: Core, e: Event, nonce: string)
    requires AcceptsNonce(cfg, core, e, nonce)
    ensures var nonces := Verify(cfg, core, e.signed, e.env).0; nonce in nonces && nonces[nonce] == e.env.queries.insertAt
  {
  }

  lemma AcceptedNonceIsRecorded(cfg: Config, core: Core, e: Event, nonce: string)
    requires AcceptsNonce(cfg, core, e, nonce)
    ensures OnRecord(Step(cfg, core, e), nonce, e.env.queries.insertAt)
  {
    VerifyRecords(cfg, core, e, nonce);
    if !e.Ack? {
      PassingCommandIsVerified(cfg, core, e);
    }
  }

  /** The purges of a run between two events look no later than the one of the second. */
  predicate PurgesInOrder(events: seq<Event>, i: nat, j: nat)
    requires i <= j < |events|
  {
    IsCommand(events[j]) && forall k | i < k < j && IsCommand(events[k]) ::
                               events[k].env.queries.purgeAt <= events[j].env.queries.purgeAt
  }

  lemma {:induction false} RecordLasts(cfg: Config, core: Core, events: seq<Event>, i: nat, j: nat, nonce: string, at: int)
    requires i < j <= |events| && OnRecord(StateAt(cfg, core, events, i + 1), nonce, at)
    requires forall k | i < k < j && IsCommand(events[k]) :: events[k].env.queries.purgeAt <= at + 300_000_000
    ensures OnRecord(StateAt(cfg, core, events, j), nonce, at)
    decreases j
  {
    if i + 1 < j {
      RecordLasts(cfg, core, events, i, j - 1, nonce, at);
      StepKeepsTheRecord(cfg, StateAt(cfg, core, events, j - 1), events[j - 1], nonce, at);
    }
  }

  /** One nonce is accepted twice, by whichever of the three entrances, only if more than five minutes
      lie between the insert of the first and the purge of the second. */
  lemma NoncesAreSpacedOverRuns(cfg: Config, core: Core, events: seq<Event>, i: nat, j: nat, nonce: string)
    requires i < j < |events| && PurgesInOrder(events, i, j)
    requires AcceptsNonce(cfg, StateAt(cfg, core, events, i), events[i], nonce)
    requires AcceptsNonce(cfg, StateAt(cfg, core, events, j), events[j], nonce)
    ensures events[j].env.queries.purgeAt - events[i].env.queries.insertAt > 300_000_000
  {
    var at := events[i].env.queries.insertAt;
    if events[j].env.queries.purgeAt <= at + 300_000_000 {
      AcceptedNonceIsRecorded(cfg, StateAt(cfg, core, events, i), events[i], nonce);
      RecordLasts(cfg, core, events, i, j, nonce, at);
      AcceptedNonceIsNew(cfg, StateAt(cfg, core, events, j), events[j], nonce, at);
    }
  }

  // ---------------------------------------------------------------- the watchdogs

  /** The moment of the last acknowledgement that the first `n` events have accepted, or that the run
      starts with. */
  function LastAck(cfg: Config, core: Core, events: seq<Event>, n: nat): int
    requires n <= |events|
  {
    if n == 0 then core.lastHeartbeat
    else if IsAcceptedAck(cfg, StateAt(cfg, core, events, n - 1), events[n - 1]) then events[n - 1].env.monotonic
    else LastAck(cfg, core, events, n - 1)
  }

  lemma DispatchMovesTheTimer(cfg: Config, core: Core, e: Event)
    requires Runs(cfg, core, e)
    ensures RunVerified(cfg, core, e.signed, e.env).0.lastHeartbeat
         == if Dispatched(cfg, core, e) == Some("agent.heartbeat_ack") then e.env.monotonic else core.lastHeartbeat
  {
  }

  lemma StepMovesTheTimer(cfg: Config, core: Core, e: Event)
    ensures Step(cfg, core, e).lastHeartbeat == if IsAcceptedAck(cfg, core, e) then e.env.monotonic else core.lastHeartbeat
  {
    if Runs(cfg, core, e) {
      DispatchMovesTheTimer(cfg, core, e);
    }
  }

  lemma {:induction false} TimerIsTheLastAck(cfg: Config, core: Core, events: seq<Event>, n: nat)
    requires n <= |events|
    ensures StateAt(cfg, core, events, n).lastHeartbeat == LastAck(cfg, core, events, n)
  {
    if n > 0 {
      TimerIsTheLastAck(cfg, core, events, n - 1);
      StepMovesTheTimer(cfg, StateAt(cfg, core, events, n - 1), events[n - 1]);
    }
  }

  /** The heartbeat watchdog locks exactly an unlocked agent that has accepted no acknowledgement for
      more than 300 seconds, and for a reason that the next one clears. */
  lemma MissedHeartbeatLocksIff(cfg: Config, core: Core, events: seq<Event>, k: nat)
    requires k < |events| && events[k].HeartbeatTick?
    ensures var (before, after) := (StateAt(cfg, core, events, k).lock, StateAt(cfg, core, events, k + 1).lock);
            after == if !before.flag && events[k].monotonic - LastAck(cfg, core, events, k) > 300
                     then Lockdown(true, Some(Heartbeat)) else before
  {
    TimerIsTheLastAck(cfg, core, events, k);
  }

  /** An unreachable database locks an unlocked agent, and no acknowledgement or other event of the
      rest of the run unlocks it; a reachable one locks nothing. */
  lemma UnreachableDatabaseLocksForGood(cfg: Config, core: Core, events: seq<Event>, k: nat, n: nat)
    requires core.lock.Consistent() && k < n <= |events| && events[k].PostgresTick?
    requires !StateAt(cfg, core, events, k).lock.flag
    ensures !events[k].reachable ==>
              && StateAt(cfg, core, events, k + 1).lock == Lockdown(true, Some(PgUnreachable))
              && StateAt(cfg, core, events, n).lock.flag
    ensures events[k].reachable ==> StateAt(cfg, core, events, k + 1) == StateAt(cfg, core, events, k)
  {
    LockdownPersists(cfg, core, events, k + 1, n);
  }

  // ---------------------------------------------------------------- what a row says

  /** `success` for a command that succeeded, `rejected` for one the agent did not want, `failed` for
      one that went wrong. */
  function ResultText(reply: Reply): string {
    match reply
    case Ok(_) => "success"
    case Err(Internal) => "failed"
    case Err(LockdownActive) => "failed"
    case _ => "rejected"
  }

  function ErrorText(cfg: Config, reply: Reply): Option<Bytes> {
    match reply
    case Ok(_) => None
    case Err(Unauthorized) => Some(cfg.utf8("unauthorized"))
    case Err(Forbidden(m)) => Some(cfg.utf8("forbidden: " + m))
    case Err(BadRequest(m)) => Some(cfg.utf8("bad request: " + m))
    case Err(LockdownActive) => Some(cfg.utf8("lockdown active"))
    case Err(Internal) => Some(cfg.utf8("internal error"))
  }

  predicate HealthyLog(cfg: Config, core: Core, env: Env) {
    Audit.Extendable(cfg.sha, core.rows) && env.db == Audit.Healthy
  }

  predicate HasHandler(t: string) {
    || t == "nftables.apply" || t == "nftables.restore" || t == "nftables.accept" || t == "nftables.close_setup_port"
    || t == "container.list" || t == "container.deploy" || t == "container.down" || t == "container.start"
    || t == "container.stop" || t == "container.remove" || t == "container.restart" || t == "container.update"
    || t == "tenant.ensure" || t == "update.self" || t == "wg.rotate_psk" || t == "wg.management.add_peer"
    || t == "wg.management.remove_peer" || t == "wg.management.list_peers" || t == "wg.data_plane.setup"
    || t == "wg.data_plane.teardown" || t == "dashboard.migrate" || t == "cert.update" || t == "vps.reboot"
    || t == "nginx.deploy" || t == "nginx.update_config" || t == "nginx.install_cert" || t == "certbot.obtain"
    || t == "db.rotate_password"
  }

  lemma KnownIffHandled(t: string)
    ensures t in KNOWN_COMMANDS <==> HasHandler(t)
    ensures !HasHandler("unknown")
  {
  }

  /** What the command itself answers: the acknowledgement is answered by the agent, an unknown type
      refused, everything else left to its handler. */
  predicate Answers(command: Auth.Json, env: Env, reply: Reply) {
    var t := command.TypeField();
    if t == Some("agent.heartbeat_ack") then reply == Ok(Auth.Object(map["ok" := Auth.Bool(true)]))
    else if t.Some? && HasHandler(t.value) then reply == env.handler
    else reply == Err(BadRequest("unknown command type"))
  }

  predicate TellsTheCommand(cfg: Config, row: Audit.Row, v: Auth.VerifiedCommand, reply: Reply, env: Env) {
    var t := v.command.TypeField();
    && row.id == env.rowId && row.createdAt == env.createdAt
    && row.agentId == cfg.auth.ownAgentId && row.userId == Some(v.userId) && row.organizationId == v.organizationId
    && row.commandType == cfg.utf8(if t.Some? then t.value else "unknown")
    && row.result == Ascii(ResultText(reply)) && row.error == ErrorText(cfg, reply)
  }

  lemma DispatchAnswers(core: Core, command: Auth.Json, env: Env)
    ensures Answers(command, env, Dispatch(core, command, env).1)
    ensures Dispatch(core, command, env).0.rows == core.rows
  {
    KnownIffHandled(CommandType(command));
  }

  lemma ResultTexts(reply: Reply)
    ensures Classify(reply).AsStr() == Ascii(ResultText(reply)) && Audit.CheckConstraint(Classify(reply))
  {
  }

  lemma EntryTellsTheCommand(cfg: Config, v: Auth.VerifiedCommand, reply: Reply, prev: Bytes, env: Env)
    ensures TellsTheCommand(cfg, Audit.NewRow(cfg.sha, prev, env.rowId, CommandEntry(cfg, v, reply), env.createdAt), v, reply, env)
  {
    ResultTexts(reply);
  }

  lemma ProcessDispatches(cfg: Config, core: Core, e: Event)
    requires Passes(cfg, core, e) && Verify(cfg, core, e.signed, e.env).1.Ok?
    ensures var v := Verify(cfg, core, e.signed, e.env).1.value;
            var p := Process(cfg, core, e.signed, e.env);
            && p.core.rows == core.rows && p.mandatory && Answers(v.command, e.env, p.reply)
            && p.entry == CommandEntry(cfg, v, p.reply)
  {
    var (nonces, verified) := Verify(cfg, core, e.signed, e.env);
    DispatchAnswers(core.(rate := core.rate.Check(e.env.now).0, nonces := nonces), verified.value.command, e.env);
  }

  /** With a healthy log the reply to a verified command is its own answer, and the one new row names
      this agent, the user and the organization that signed it, its type and how it ended. */
  lemma RowTellsTheCommand(cfg: Config, core: Core, e: Event)
    requires Passes(cfg, core, e) && HealthyLog(cfg, core, e.env)
    requires Verify(cfg, core, e.signed, e.env).1.Ok?
    ensures var v := Verify(cfg, core, e.signed, e.env).1.value;
            var (after, reply) := RunVerified(cfg, core, e.signed, e.env);
            && Answers(v.command, e.env, reply)
            && |after.rows| == |core.rows| + 1 && core.rows <= after.rows
            && TellsTheCommand(cfg, after.rows[|core.rows|], v, reply, e.env)
  {
    ProcessDispatches(cfg, core, e);
    var p, v := Process(cfg, core, e.signed, e.env), Verify(cfg, core, e.signed, e.env).1.value;
    ResultTexts(p.reply);
    EntryTellsTheCommand(cfg, v, p.reply, Audit.Head(core.rows), e.env);
  }

  /** A command that does not verify gets one row that names nobody. */
  lemma RowTellsTheRefusal(cfg: Config, core: Core, e: Event)
    requires Passes(cfg, core, e) && HealthyLog(cfg, core, e.env)
    requires Verify(cfg, core, e.signed, e.env).1.Err?
    ensures var why := Verify(cfg, core, e.signed, e.env).1.error;
            var (after, reply) := RunVerified(cfg, core, e.signed, e.env);
            && reply == Err(Unauthorized) && |after.rows| == |core.rows| + 1 && core.rows <= after.rows
            && var row := after.rows[|core.rows|];
               && row.agentId == cfg.auth.ownAgentId && row.userId == None && row.organizationId == None
               && row.commandType == cfg.utf8("unknown") && row.result == Ascii("rejected")
               && row.error == Some(cfg.utf8(cfg.authErrorText(why)))
  {
  }

  /** A verified command whose row is not written is answered with an internal error, whatever its
      handler has done; a refusal stays a refusal. */
  lemma UnwrittenRowFailsTheCommand(cfg: Config, core: Core, e: Event)
    requires Passes(cfg, core, e) && !HealthyLog(cfg, core, e.env)
    ensures RunVerified(cfg, core, e.signed, e.env).1
         == if Verify(cfg, core, e.signed, e.env).1.Ok? then Err(Internal) else Err(Unauthorized)
  {
  }

  // ---------------------------------------------------------------- rows of the other tasks

  predicate TellsTheNotice(cfg: Config, row: Audit.Row, commandType: string, result: string, error: string)
    requires forall i | 0 <= i < |result| :: result[i] as int < 128
  {
    && row.agentId == cfg.auth.ownAgentId && row.userId == None && row.organizationId == None
    && row.commandType == cfg.utf8(commandType) && row.result == Ascii(result) && row.error == Some(cfg.utf8(error))
  }

  lemma NoticeAddsARow(cfg: Config, core: Core, notice: Notice, stamp: Stamp)
    requires Audit.Extendable(cfg.sha, core.rows) && stamp.db == Audit.Healthy
    ensures var after := Step(cfg, core, Log(notice, stamp));
            var entry := NoticeCall(cfg, notice, stamp).entry;
            && after.rows == core.rows + [Audit.NewRow(cfg.sha, Audit.Head(core.rows), stamp.rowId, entry, stamp.createdAt)]
            && Audit.Extendable(cfg.sha, after.rows)
  {
  }

  lemma NoticeRow(cfg: Config, prev: Bytes, notice: Notice, stamp: Stamp)
    ensures var row := Audit.NewRow(cfg.sha, prev, stamp.rowId, NoticeCall(cfg, notice, stamp).entry, stamp.createdAt);
            match notice
            case ConflictDetected(software, detail) =>
              TellsTheNotice(cfg, row, "conflicting_software_detected", "failed", software + ": " + detail)
            case ConflictRemoved(software, action) =>
              TellsTheNotice(cfg, row, "conflicting_software_removed", "success", software + ": " + action)
            case NginxEvent(event, detail) => TellsTheNotice(cfg, row, event, "success", detail)
  {
  }

  /** With a healthy log the check of one software that is there writes three rows: that it was found,
      what became of it, and that again as a removal, which reads as a success either way. */
  lemma RemovalIsTold(cfg: Config, core: Core, s: Suspect)
    requires s.present && Audit.Extendable(cfg.sha, core.rows)
    requires s.detected.db == Audit.Healthy && s.notified.db == Audit.Healthy && s.recorded.db == Audit.Healthy
    ensures var after := Final(Machine(cfg), core, SuspectEvents(s));
            var n := |core.rows|;
            var outcome := match s.failure case None => "removed" case Some(f) => "removal_failed: " + f;
            && |after.rows| == n + 3 && core.rows <= after.rows
            && TellsTheNotice(cfg, after.rows[n], "conflicting_software_detected", "failed", s.name + ": " + "detected")
            && TellsTheNotice(cfg, after.rows[n + 1], "conflicting_software_detected", "failed", s.name + ": " + outcome)
            && TellsTheNotice(cfg, after.rows[n + 2], "conflicting_software_removed", "success", s.name + ": " + outcome)
            && after.lock == (if s.failure.Some? then Lockdown(true, Some(IncompatibleSoftware)) else core.lock)
  {
    SuspectRun(cfg, core, s);
    var outcome := RemovalText(s);
    var first, second, third := ConflictDetected(s.name, "detected"), ConflictDetected(s.name, outcome), ConflictRemoved(s.name, outcome);
    var c1 := Step(cfg, core, Log(first, s.detected));
    var c2 := Step(cfg, c1, Log(second, s.notified));
    NoticeAddsARow(cfg, core, first, s.detected);
    NoticeAddsARow(cfg, c1, second, s.notified);
    NoticeAddsARow(cfg, c2, third, s.recorded);
    NoticeRow(cfg, Audit.Head(core.rows), first, s.detected);
    NoticeRow(cfg, Audit.Head(c1.rows), second, s.notified);
    NoticeRow(cfg, Audit.Head(c2.rows), third, s.recorded);
  }

  lemma SuspectLocksIff(cfg: Config, core: Core, s: Suspect)
    ensures Final(Machine(cfg), core, SuspectEvents(s)).lock
         == if s.present && s.failure.Some? then Lockdown(true, Some(IncompatibleSoftware)) else core.lock
  {
    SuspectRun(cfg, core, s);
  }

  predicate SomeRemovalFails(suspects: seq<Suspect>) {
    exists i | 0 <= i < |suspects| :: suspects[i].present && suspects[i].failure.Some?
  }

  lemma SomeRemovalFailsCons(suspects: seq<Suspect>)
    requires suspects != []
    ensures SomeRemovalFails(suspects) <==> RemovalFails(suspects[0]) || SomeRemovalFails(suspects[1..])
  {
    assert forall i | 0 < i < |suspects| :: suspects[i] == suspects[1..][i - 1];
    if SomeRemovalFails(suspects[1..]) {
      var i :| 0 <= i < |suspects[1..]| && RemovalFails(suspects[1..][i]);
      assert RemovalFails(suspects[i + 1]);
    }
  }

  /** A round of the conflict check locks the agent exactly when some removal fails. */
  lemma {:induction false} RoundLocksIff(cfg: Config, core: Core, suspects: seq<Suspect>)
    ensures Final(Machine(cfg), core, CheckEvents(suspects)).lock
         == if SomeRemovalFails(suspects) then Lockdown(true, Some(IncompatibleSoftware)) else core.lock
    decreases suspects
  {
    if suspects != [] {
      SomeRemovalFailsCons(suspects);
      CheckTakesOne(cfg, core, suspects);
      SuspectLocksIff(cfg, core, suspects[0]);
      RoundLocksIff(cfg, Final(Machine(cfg), core, SuspectEvents(suspects[0])), suspects[1..]);
    }
  }

  /** And it ends there: what comes after the first failure is neither looked for nor logged. */
  lemma {:induction false} NothingBehindAFailure(before: seq<Suspect>, failed: Suspect, rest: seq<Suspect>)
    requires RemovalFails(failed)
    ensures CheckEvents(before + [failed] + rest) == CheckEvents(before + [failed])
    decreases before
  {
    var all, part := before + [failed] + rest, before + [failed];
    if before != [] {
      NothingBehindAFailure(before[1..], failed, rest);
      assert all[1..] == before[1..] + [failed] + rest && part[1..] == before[1..] + [failed];
    }
  }
}

/**
 Replay protection over whole runs: any number of verifications in flight, each with its freshness
 check and its nonce insert as separate steps, purges by verifications and by the hourly cleanup
 task between any two of them, and two clocks that drift against each other.
 */
module Replay {
  import opened Basics
  import opened Auth

  /** A freshness check that has passed, with both clocks at that moment. */
  datatype Check = Check(payload: CommandPayload, agentAt: int, dbAt: int)

  datatype Acceptance = Acceptance(check: Check, at: int)

  datatype World = World(
    db: int,
    agent: int,
    nonces: map<string, int>,
    inFlight: seq<Check>,
    accepted: seq<Acceptance>)

  datatype Event =
    | Tick(db: int, agent: int)
    | Begin(payload: CommandPayload)
    | Purge
    | Insert(i: nat)

  /** `skew` bounds the distance of the clocks, `delay` the time from check to insert. */
  datatype Bounds = Bounds(skew: nat, delay: nat)

  predicate ClocksOk(db: int, agent: int, b: Bounds) {
    agent - db <= b.skew && db - agent <= b.skew && agent >= 0 && ClockInRange(agent / SECOND)
  }

  predicate Enabled(w: World, e: Event, b: Bounds) {
    match e
    case Tick(db, agent) => db >= w.db && ClocksOk(db, agent, b)
    case Begin(p) => IsI64(p.timestamp) && (p.IsHeartbeatAck() || Fresh(w.agent / SECOND, p.timestamp))
    case Purge => true
    case Insert(i) => i < |w.inFlight| && w.db - w.inFlight[i].dbAt <= b.delay
  }

  function Step(w: World, e: Event): World {
    match e
    case Tick(db, agent) => w.(db := db, agent := agent)
    case Begin(p) => w.(inFlight := w.inFlight + [Check(p, w.agent, w.db)])
    case Purge => w.(nonces := Purged(w.nonces, w.db))
    case Insert(i) =>
      if i >= |w.inFlight| then w
      else
        var check := w.inFlight[i];
        var rest := w.(inFlight := w.inFlight[..i] + w.inFlight[i + 1..]);
        if check.payload.nonce in w.nonces then rest
        else rest.(nonces := w.nonces[check.payload.nonce := w.db], accepted := w.accepted + [Acceptance(check, w.db)])
  }

  function Run(w: World, events: seq<Event>): World {
    Final(Step, w, events)
  }

  /** Every event is possible when it happens. */
  predicate Valid(w: World, events: seq<Event>, b: Bounds) {
    forall n {:trigger EnabledAt(w, events, b, n)} | 0 <= n < |events| :: EnabledAt(w, events, b, n)
  }

  predicate EnabledAt(w: World, events: seq<Event>, b: Bounds, n: nat)
    requires n < |events|
  {
    Enabled(StateAfter(Step, w, events, n), events[n], b)
  }

  predicate Start(w: World, b: Bounds) {
    ClocksOk(w.db, w.agent, b) && w.inFlight == [] && w.accepted == []
  }

  /** The queries of a verification that nothing disturbs, up to the first that fails. */
  function QueryEvents(q: NonceQueries, agent: int): seq<Event> {
    if !q.purgeOk then [Tick(q.purgeAt, agent)]
    else if !q.insertOk then [Tick(q.purgeAt, agent), Purge, Tick(q.insertAt, agent)]
    else [Tick(q.purgeAt, agent), Purge, Tick(q.insertAt, agent), Insert(0)]
  }

  /**
   One verification of `Auth.VerifyCommand` past its freshness check, undisturbed, is a run of the
   machine: it leaves the nonces and accepts the command as `Auth.ConsumeNonce` says.
   */
  lemma VerificationIsARun(w: World, p: CommandPayload, q: NonceQueries, agent: int)
    requires w.inFlight == []
    ensures var t := Run(Step(w, Begin(p)), QueryEvents(q, agent));
            var (nonces, r) := ConsumeNonce(w.nonces, p.nonce, q);
            && t.nonces == nonces
            && t.accepted == w.accepted + if r.Ok? then [Acceptance(Check(p, w.agent, w.db), q.insertAt)] else []
  {
    var events, w0 := QueryEvents(q, agent), Step(w, Begin(p));
    var w1 := w0.(db := q.purgeAt, agent := agent);
    var w2 := Step(w1, Purge);
    var w3 := Step(w2, Tick(q.insertAt, agent));
    var w4 := Step(w3, Insert(0));
    if !q.purgeOk {
      StatesAlong(Step, w0, events, [w0, w1], 1);
    } else if !q.insertOk {
      StatesAlong(Step, w0, events, [w0, w1, w2, w3], 3);
    } else {
      StatesAlong(Step, w0, events, [w0, w1, w2, w3, w4], 4);
    }
  }

  // ---------------------------------------------------------------- invariant

  predicate CheckOk(c: Check, db: int, b: Bounds) {
    && ClocksOk(c.dbAt, c.agentAt, b)
    && c.dbAt <= db
    && IsI64(c.payload.timestamp)
    && (c.payload.IsHeartbeatAck() || Fresh(c.agentAt / SECOND, c.payload.timestamp))
  }

  predicate AcceptanceOk(a: Acceptance, w: World, b: Bounds) {
    && CheckOk(a.check, w.db, b)
    && a.check.dbAt <= a.at <= a.check.dbAt + b.delay
    && a.at <= w.db
    && var n := a.check.payload.nonce;
       if n in w.nonces then a.at <= w.nonces[n] else a.at < w.db - RETENTION
  }

  /** Two acceptances of one nonce are more than the retention apart. */
  predicate Spaced(first: Acceptance, second: Acceptance) {
    first.check.payload.nonce == second.check.payload.nonce ==> second.at - first.at > 300_000_000
  }

  predicate AllSpaced(accepted: seq<Acceptance>) {
    forall i, j {:trigger Spaced(accepted[i], accepted[j])} | 0 <= i < j < |accepted| :: Spaced(accepted[i], accepted[j])
  }

  predicate Invariant(w: World, b: Bounds) {
    && ClocksOk(w.db, w.agent, b)
    && (forall c {:trigger CheckOk(c, w.db, b)} | c in w.inFlight :: CheckOk(c, w.db, b))
    && (forall a {:trigger AcceptanceOk(a, w, b)} | a in w.accepted :: AcceptanceOk(a, w, b))
    && AllSpaced(w.accepted)
  }

  lemma InsertKeepsInvariant(w: World, i: nat, b: Bounds)
    requires Invariant(w, b) && Enabled(w, Insert(i), b)
    ensures Invariant(Step(w, Insert(i)), b)
  {
    var t := Step(w, Insert(i));
    var check := w.inFlight[i];
    assert CheckOk(check, w.db, b);
    forall c | c in t.inFlight ensures CheckOk(c, t.db, b) {
      assert c in w.inFlight && CheckOk(c, w.db, b);
    }
    forall a | a in t.accepted ensures AcceptanceOk(a, t, b) {
      if a in w.accepted {
        assert AcceptanceOk(a, w, b);
      }
    }
    forall j, k | 0 <= j < k < |t.accepted| ensures Spaced(t.accepted[j], t.accepted[k]) {
      if k < |w.accepted| {
        assert Spaced(w.accepted[j], w.accepted[k]);
      } else {
        assert AcceptanceOk(w.accepted[j], w, b);
      }
    }
  }

  lemma StepKeepsInvariant(w: World, e: Event, b: Bounds)
    requires Invariant(w, b) && Enabled(w, e, b)
    ensures Invariant(Step(w, e), b)
  {
    if e.Insert? {
      InsertKeepsInvariant(w, e.i, b);
    } else {
      var t := Step(w, e);
      forall c | c in t.inFlight ensures CheckOk(c, t.db, b) {
        if c in w.inFlight {
          assert CheckOk(c, w.db, b);
        }
      }
      forall a | a in t.accepted ensures AcceptanceOk(a, t, b) {
        assert AcceptanceOk(a, w, b);
      }
    }
  }

  lemma {:induction false} RunKeepsInvariant(w: World, events: seq<Event>, b: Bounds, n: nat)
    requires Invariant(w, b) && Valid(w, events, b) && n <= |events|
    ensures Invariant(StateAfter(Step, w, events, n), b)
  {
    if n > 0 {
      RunKeepsInvariant(w, events, b, n - 1);
      assert EnabledAt(w, events, b, n - 1);
      StepKeepsInvariant(StateAfter(Step, w, events, n - 1), events[n - 1], b);
    }
  }

  /** No nonce, of a heartbeat or any other command, is accepted twice within five minutes. */
  lemma NoncesAreSpaced(w: World, events: seq<Event>, b: Bounds)
    requires Start(w, b) && Valid(w, events, b)
    ensures AllSpaced(Run(w, events).accepted)
  {
    RunKeepsInvariant(w, events, b, |events|);
  }

  // ---------------------------------------------------------------- no replay

  predicate IsReplay(accepted: seq<Acceptance>, i: nat, j: nat) {
    i < j < |accepted| && accepted[i].check.payload == accepted[j].check.payload
  }

  predicate CommandReplayed(w: World) {
    exists i, j {:trigger IsReplay(w.accepted, i, j)} | 0 <= i < j < |w.accepted| ::
      IsReplay(w.accepted, i, j) && !w.accepted[i].check.payload.IsHeartbeatAck()
  }

  predicate SafeRun(w: World, events: seq<Event>, b: Bounds) {
    Start(w, b) && Valid(w, events, b) ==> !CommandReplayed(Run(w, events))
  }

  ghost predicate ReplayFree(b: Bounds) {
    forall w, events {:trigger SafeRun(w, events, b)} :: SafeRun(w, events, b)
  }

  /** The window is 61 seconds wide, not 60, because freshness compares whole seconds. */
  predicate WindowFits(b: Bounds) {
    61_000_000 + 2 * b.skew + b.delay <= 300_000_001
  }

  /** Two acceptances of one command lie closer together than the window allows for. */
  lemma AcceptancesAreClose(first: Acceptance, second: Acceptance, w: World, b: Bounds)
    requires AcceptanceOk(first, w, b) && AcceptanceOk(second, w, b)
    requires first.check.payload == second.check.payload && !first.check.payload.IsHeartbeatAck()
    ensures second.at - first.at < 61 * SECOND + 2 * b.skew + b.delay
  {
    var s, t := first.check.agentAt, second.check.agentAt;
    TwoFreshReadingsAreClose(s / SECOND, t / SECOND, first.check.payload.timestamp);
    assert t - s < 61 * SECOND;
  }

  lemma SafeWhenTheWindowFits(w: World, events: seq<Event>, b: Bounds)
    requires WindowFits(b)
    ensures SafeRun(w, events, b)
  {
    if Start(w, b) && Valid(w, events, b) {
      RunKeepsInvariant(w, events, b, |events|);
      var end := Run(w, events);
      forall i, j | 0 <= i < j < |end.accepted| && IsReplay(end.accepted, i, j)
        ensures end.accepted[i].check.payload.IsHeartbeatAck()
      {
        var first, second := end.accepted[i], end.accepted[j];
        assert AcceptanceOk(first, end, b) && AcceptanceOk(second, end, b) && Spaced(first, second);
        if !first.check.payload.IsHeartbeatAck() {
          AcceptancesAreClose(first, second, end, b);
        }
      }
    }
  }

  // ---------------------------------------------------------------- runs that accept twice

  /** One payload goes through at `i1` and, after a purge, again at `i2`. */
  function TwiceEvents(p: CommandPayload, check2: int, agent2: int, i2: int): seq<Event> {
    [Begin(p), Purge, Insert(0), Tick(check2, agent2), Begin(p), Tick(i2, i2), Purge, Insert(0)]
  }

  lemma TwiceAccepted(p: CommandPayload, db1: int, agent1: int, check2: int, agent2: int, i2: int, b: Bounds)
    returns (w: World)
    requires IsI64(p.timestamp)
    requires ClocksOk(db1, agent1, b) && ClocksOk(check2, agent2, b) && ClocksOk(i2, i2, b)
    requires db1 <= check2 <= i2 <= check2 + b.delay && i2 - db1 > RETENTION
    requires p.IsHeartbeatAck() || (Fresh(agent1 / SECOND, p.timestamp) && Fresh(agent2 / SECOND, p.timestamp))
    ensures Start(w, b) && Valid(w, TwiceEvents(p, check2, agent2, i2), b)
    ensures IsReplay(Run(w, TwiceEvents(p, check2, agent2, i2)).accepted, 0, 1)
    ensures Run(w, TwiceEvents(p, check2, agent2, i2)).accepted[0].check.payload == p
  {
    w := World(db1, agent1, map[], [], []);
    var events := TwiceEvents(p, check2, agent2, i2);
    var c1, c2 := Check(p, agent1, db1), Check(p, agent2, check2);
    var w1 := w.(inFlight := [c1]);
    assert Step(w, events[0]) == w1;
    assert Step(w1, events[1]) == w1;
    var w3 := World(db1, agent1, map[p.nonce := db1], [], [Acceptance(c1, db1)]);
    assert Step(w1, events[2]) == w3;
    var w4 := w3.(db := check2, agent := agent2);
    assert Step(w3, events[3]) == w4;
    var w5 := w4.(inFlight := [c2]);
    assert Step(w4, events[4]) == w5;
    var w6 := w5.(db := i2, agent := i2);
    assert Step(w5, events[5]) == w6;
    var w7 := w6.(nonces := map[]);
    assert Step(w6, events[6]) == w7;
    var w8 := World(i2, i2, map[p.nonce := i2], [], [Acceptance(c1, db1), Acceptance(c2, i2)]);
    assert Step(w7, events[7]) == w8;
    AlongTheWay(w, events, [w, w1, w1, w3, w4, w5, w6, w7, w8], b);
  }

  /** A valid run given state by state. */
  lemma AlongTheWay(w: World, events: seq<Event>, states: seq<World>, b: Bounds)
    requires |states| == |events| + 1 && states[0] == w
    requires forall i | 0 <= i < |events| :: Step(states[i], events[i]) == states[i + 1] && Enabled(states[i], events[i], b)
    ensures Run(w, events) == states[|events|] && Valid(w, events, b)
  {
    StatesAlong(Step, w, events, states, |events|);
    forall n | 0 <= n < |events| ensures EnabledAt(w, events, b, n) {
      StatesAlong(Step, w, events, states, n);
    }
  }

  /** Whenever the window does not fit, some run accepts a command twice. */
  lemma UnsafeWhenTheWindowDoesNotFit(p: CommandPayload, b: Bounds) returns (w: World, events: seq<Event>)
    requires !WindowFits(b) && !p.IsHeartbeatAck() && p.timestamp == 1000
    ensures !SafeRun(w, events, b)
  {
    var skew, delay := Min(b.skew, RETENTION), Min(b.delay, RETENTION);
    var agent1 := 970 * SECOND;
    var agent2 := 1031 * SECOND - 1;
    var i2 := agent2 + skew + delay;
    FreshIsTheWindow(agent1 / SECOND, 1000);
    FreshIsTheWindow(agent2 / SECOND, 1000);
    w := TwiceAccepted(p, agent1 - skew, agent1, agent2 + skew, agent2, i2, b);
    events := TwiceEvents(p, agent2 + skew, agent2, i2);
    var end := Run(w, events);
    assert IsReplay(end.accepted, 0, 1);
  }

  /**
   The sharp bound: commands other than heartbeat acknowledgements are never accepted twice, in any
   run, exactly when the freshness window, twice the clock skew and the delay fit the retention.
   */
  lemma NoReplayIffTheWindowFits(b: Bounds)
    ensures ReplayFree(b) <==> WindowFits(b)
  {
    if WindowFits(b) {
      forall w, events ensures SafeRun(w, events, b) {
        SafeWhenTheWindowFits(w, events, b);
      }
    } else {
      var p := CommandPayload("n", 1000, NIL_UUID, NIL_UUID, None, Write, Null);
      var w, events := UnsafeWhenTheWindowDoesNotFit(p, b);
      assert !SafeRun(w, events, b);
    }
  }

  /** Heartbeat acknowledgements skip the freshness check: each can be accepted again as soon as its
      nonce has been purged, however good the clocks are. */
  lemma HeartbeatAcksCanRepeat(p: CommandPayload, b: Bounds) returns (w: World, events: seq<Event>)
    requires p.IsHeartbeatAck() && IsI64(p.timestamp)
    ensures Start(w, b) && Valid(w, events, b) && IsReplay(Run(w, events).accepted, 0, 1)
    ensures Run(w, events).accepted[0].check.payload == p
  {
    var later := RETENTION + 1;
    w := TwiceAccepted(p, 0, 0, later, later, later, b);
    events := TwiceEvents(p, later, later, later);
  }
}

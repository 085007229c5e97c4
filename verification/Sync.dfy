/**
 Replication of the audit log to the dashboard (internal/sync/mod.rs): a timestamp cursor moved
 forward in batches, reset to the epoch when the dashboard rejects the chain. Appends of other
 tasks may land between reading a batch and the dashboard's reply. The log is kept in the order of
 its timestamps, and rows with equal ones in the order of their insertion.
 */
module Sync {
  import opened Basics
  import Audit

  type Row = Audit.Row

  const BATCH_SIZE: nat := 100
  const EPOCH := 0

  // ---------------------------------------------------------------- the queries

  /** `WHERE created_at > $1 ORDER BY created_at ASC`, over rows kept in that order. */
  function After(log: seq<Row>, cursor: int): seq<Row> {
    if log == [] then []
    else (if log[0].createdAt > cursor then [log[0]] else []) + After(log[1..], cursor)
  }

  function UpTo(log: seq<Row>, cursor: int): seq<Row> {
    if log == [] then []
    else (if log[0].createdAt <= cursor then [log[0]] else []) + UpTo(log[1..], cursor)
  }

  function Select(log: seq<Row>, cursor: int): (batch: seq<Row>)
    ensures |batch| <= BATCH_SIZE
  {
    var pending := After(log, cursor);
    if |pending| <= BATCH_SIZE then pending else pending[..BATCH_SIZE]
  }

  predicate Ordered(log: seq<Row>) {
    forall i, j | 0 <= i < j < |log| :: log[i].createdAt < log[j].createdAt
  }

  predicate WeaklyOrdered(log: seq<Row>) {
    forall i, j | 0 <= i < j < |log| :: log[i].createdAt <= log[j].createdAt
  }

  /** The cursor stands between positions `k - 1` and `k`. */
  predicate CursorAt(log: seq<Row>, cursor: int, k: nat) {
    && k <= |log|
    && (forall i | 0 <= i < k :: log[i].createdAt <= cursor)
    && (forall i | k <= i < |log| :: log[i].createdAt > cursor)
  }

  lemma CursorInRest(log: seq<Row>, cursor: int, k: nat)
    requires CursorAt(log, cursor, k) && log != []
    ensures CursorAt(log[1..], cursor, if k == 0 then 0 else k - 1)
  {
    assert forall i | 0 <= i < |log[1..]| :: log[1..][i] == log[i + 1];
  }

  lemma {:induction false} QueriesSplitTheLog(log: seq<Row>, cursor: int, k: nat)
    requires CursorAt(log, cursor, k)
    ensures UpTo(log, cursor) == log[..k] && After(log, cursor) == log[k..]
  {
    if log != [] {
      var rest, j := log[1..], if k == 0 then 0 else k - 1;
      CursorInRest(log, cursor, k);
      QueriesSplitTheLog(rest, cursor, j);
      if k == 0 {
        assert [log[0]] + rest[0..] == log[0..] && rest[..0] == log[..0];
      } else {
        assert [log[0]] + rest[..j] == log[..k] && rest[j..] == log[k..];
      }
    }
  }

  lemma CursorPosition(log: seq<Row>, cursor: int) returns (k: nat)
    requires WeaklyOrdered(log)
    ensures CursorAt(log, cursor, k)
  {
    k := 0;
    while k < |log| && log[k].createdAt <= cursor
      invariant k <= |log| && forall i | 0 <= i < k :: log[i].createdAt <= cursor
    {
      k := k + 1;
    }
  }

  /** The log with one more row at the place of its timestamp. */
  function InsertRow(log: seq<Row>, row: Row): seq<Row> {
    UpTo(log, row.createdAt) + [row] + After(log, row.createdAt)
  }

  lemma InsertRowKeepsOrder(log: seq<Row>, row: Row)
    requires WeaklyOrdered(log)
    ensures WeaklyOrdered(InsertRow(log, row))
  {
    var k := CursorPosition(log, row.createdAt);
    QueriesSplitTheLog(log, row.createdAt, k);
  }

  /** A row later than all others goes to the end. */
  lemma LatestRowIsAppended(log: seq<Row>, row: Row)
    requires forall i | 0 <= i < |log| :: log[i].createdAt < row.createdAt
    ensures InsertRow(log, row) == log + [row]
  {
    QueriesSplitTheLog(log, row.createdAt, |log|);
    assert log[..|log|] == log && log[|log|..] == [];
  }

  // ---------------------------------------------------------------- the machine

  /** How the request ended and whether the cursor update that follows it committed. */
  datatype Reply =
    | Accepted(committed: bool)
    | ChainMismatch(body: Bytes, committed: bool)
    | Refused(body: Bytes)
    | NoReply

  /** The first 200 bytes of a body are taken for the log, which panics when they end inside a
      character; the panic ends the sync loop. */
  predicate CutsACharacter(body: Bytes) {
    |body| > 200 && 128 <= body[200] < 192
  }

  predicate Panics(reply: Reply) {
    (reply.ChainMismatch? || reply.Refused?) && CutsACharacter(reply.body)
  }

  /**
   `delivered` is the history of the machine: the concatenation of the batches whose cursor update
   has committed since the last reset.
   */
  datatype State = State(log: seq<Row>, cursor: int, inFlight: Option<seq<Row>>, delivered: seq<Row>, alive: bool)

  datatype Event = Insert(row: Row) | Read | Respond(reply: Reply) | Restart

  function Answered(s: State, reply: Reply): State
    requires s.inFlight.Some? && s.inFlight.value != []
  {
    var batch := s.inFlight.value;
    var done := s.(inFlight := None);
    if Panics(reply) then done.(alive := false)
    else
      match reply
      case Accepted(true) => done.(cursor := batch[|batch| - 1].createdAt, delivered := s.delivered + batch)
      case ChainMismatch(_, true) => done.(cursor := EPOCH, delivered := [])
      case _ => done
  }

  function Step(s: State, e: Event): State {
    match e
    case Insert(row) => s.(log := InsertRow(s.log, row))
    case Read =>
      var batch := Select(s.log, s.cursor);
      if !s.alive || s.inFlight.Some? || batch == [] then s else s.(inFlight := Some(batch))
    case Respond(reply) => if s.inFlight.None? || s.inFlight.value == [] then s else Answered(s, reply)
    case Restart => s.(inFlight := None, alive := true)
  }

  const START := State([], EPOCH, None, [], true)

  function At(events: seq<Event>, n: nat): State
    requires n <= |events|
  {
    StateAfter(Step, START, events, n)
  }

  /** The database clock: every insert is later than the epoch and than every row before it. */
  predicate Enabled(s: State, e: Event) {
    e.Insert? ==> e.row.createdAt > EPOCH && forall i | 0 <= i < |s.log| :: s.log[i].createdAt < e.row.createdAt
  }

  predicate ValidRun(events: seq<Event>) {
    forall n {:trigger At(events, n)} | 0 <= n < |events| :: Enabled(At(events, n), events[n])
  }

  predicate Invariant(s: State) {
    && Ordered(s.log)
    && (forall i | 0 <= i < |s.log| :: s.log[i].createdAt > EPOCH)
    && s.delivered <= s.log
    && s.cursor == (if s.delivered == [] then EPOCH else s.delivered[|s.delivered| - 1].createdAt)
    && (s.inFlight.Some? ==> s.inFlight.value != [] && s.delivered + s.inFlight.value <= s.log)
  }

  lemma CursorFollowsDelivered(s: State)
    requires Invariant(s)
    ensures CursorAt(s.log, s.cursor, |s.delivered|)
  {
    assert s.delivered == s.log[..|s.delivered|];
  }

  lemma SelectExtendsDelivered(s: State)
    requires Invariant(s)
    ensures s.delivered + Select(s.log, s.cursor) <= s.log
  {
    CursorFollowsDelivered(s);
    QueriesSplitTheLog(s.log, s.cursor, |s.delivered|);
    assert s.log == s.delivered + s.log[|s.delivered|..];
  }

  lemma InsertKeepsInvariant(s: State, row: Row)
    requires Invariant(s) && Enabled(s, Insert(row))
    ensures Invariant(Step(s, Insert(row)))
  {
    LatestRowIsAppended(s.log, row);
    assert s.log <= s.log + [row];
  }

  lemma ReadKeepsInvariant(s: State)
    requires Invariant(s)
    ensures Invariant(Step(s, Read))
  {
    SelectExtendsDelivered(s);
  }

  lemma RespondKeepsInvariant(s: State, reply: Reply)
    requires Invariant(s)
    ensures Invariant(Step(s, Respond(reply)))
  {
  }

  lemma StepKeepsInvariant(s: State, e: Event)
    requires Invariant(s) && Enabled(s, e)
    ensures Invariant(Step(s, e))
  {
    match e
    case Insert(row) => InsertKeepsInvariant(s, row);
    case Read => ReadKeepsInvariant(s);
    case Respond(reply) => RespondKeepsInvariant(s, reply);
    case Restart =>
  }

  lemma {:induction false} RunKeepsInvariant(events: seq<Event>, n: nat)
    requires ValidRun(events) && n <= |events|
    ensures Invariant(At(events, n))
  {
    if n > 0 {
      RunKeepsInvariant(events, n - 1);
      StepKeepsInvariant(At(events, n - 1), events[n - 1]);
    }
  }

  predicate DeliveredIsThePrefixUpToTheCursor(s: State) {
    && s.delivered == UpTo(s.log, s.cursor)
    && s.log == s.delivered + After(s.log, s.cursor)
  }

  lemma InvariantSplitsTheLog(s: State)
    requires Invariant(s)
    ensures DeliveredIsThePrefixUpToTheCursor(s)
    ensures |After(s.log, s.cursor)| == |s.log| - |s.delivered|
  {
    CursorFollowsDelivered(s);
    QueriesSplitTheLog(s.log, s.cursor, |s.delivered|);
  }

  /**
   In every interleaving of appends, successes, failures, lost cursor updates and resets, what has
   been delivered since the last reset is exactly the rows at or below the cursor: a prefix of the
   chain, in order, without gap or duplicate.
   */
  lemma {:induction false} SyncDeliversAChainPrefix(events: seq<Event>, n: nat)
    requires ValidRun(events) && n <= |events|
    ensures DeliveredIsThePrefixUpToTheCursor(At(events, n))
  {
    RunKeepsInvariant(events, n);
    InvariantSplitsTheLog(At(events, n));
  }

  // ---------------------------------------------------------------- draining

  /** One successful sync without concurrent appends. */
  function Cycle(s: State): State {
    Step(Step(s, Read), Respond(Accepted(true)))
  }

  function Cycles(s: State, k: nat): State {
    Iterate(Cycle, s, k)
  }

  lemma CycleKeepsInvariant(s: State)
    requires Invariant(s)
    ensures Invariant(Cycle(s))
  {
    StepKeepsInvariant(s, Read);
    StepKeepsInvariant(Step(s, Read), Respond(Accepted(true)));
  }

  lemma CycleDelivers(s: State)
    requires s.inFlight.None? && s.alive
    ensures var t := Cycle(s); t.inFlight.None? && t.alive && t.log == s.log && t.delivered == s.delivered + Select(s.log, s.cursor)
  {
    if Select(s.log, s.cursor) == [] {
      assert s.delivered + [] == s.delivered;
    }
  }

  lemma CycleCounts(s: State)
    requires Invariant(s) && s.inFlight.None? && s.alive
    ensures |Cycle(s).delivered| == Min(|s.log|, |s.delivered| + BATCH_SIZE)
  {
    InvariantSplitsTheLog(s);
    CycleDelivers(s);
  }

  predicate Idle(s: State, log: seq<Row>) {
    Invariant(s) && s.inFlight.None? && s.alive && s.log == log
  }

  function IdleOn(log: seq<Row>): State -> bool {
    (s: State) => Idle(s, log)
  }

  function DeliveredCount(s: State): nat {
    |s.delivered|
  }

  lemma CycleAdds(s: State, log: seq<Row>)
    ensures AddsAt(Cycle, IdleOn(log), DeliveredCount, |log|, BATCH_SIZE, s)
  {
    if Idle(s, log) {
      CycleKeepsInvariant(s);
      CycleDelivers(s);
      CycleCounts(s);
    }
  }

  /** After `k` successful syncs all but `100 * k` of the pending rows are gone. */
  lemma CyclesDeliver(s: State, k: nat)
    requires Idle(s, s.log)
    ensures Idle(Cycles(s, k), s.log)
    ensures |Cycles(s, k).delivered| == Min(|s.log|, |s.delivered| + BATCH_SIZE * k)
  {
    var log := s.log;
    forall x ensures AddsAt(Cycle, IdleOn(log), DeliveredCount, |log|, BATCH_SIZE, x) {
      CycleAdds(x, log);
    }
    IterateAdds(Cycle, IdleOn(log), DeliveredCount, |log|, BATCH_SIZE, s, k);
  }

  /** `n` pending rows take exactly ceil(n / 100) successful syncs. */
  lemma DrainTakesCeilSyncs(s: State, k: nat)
    requires Invariant(s) && s.inFlight.None? && s.alive
    ensures After(Cycles(s, k).log, Cycles(s, k).cursor) == []
       <==> k >= (|After(s.log, s.cursor)| + 99) / 100
  {
    CyclesDeliver(s, k);
    InvariantSplitsTheLog(s);
    InvariantSplitsTheLog(Cycles(s, k));
  }

  // ---------------------------------------------------------------- any timestamps

  predicate Commits(s: State, e: Event) {
    e == Respond(Accepted(true)) && s.inFlight.Some? && s.inFlight.value != []
  }

  predicate Resets(s: State, e: Event) {
    && e.Respond? && e.reply.ChainMismatch? && e.reply.committed && !Panics(e.reply)
    && s.inFlight.Some? && s.inFlight.value != []
  }

  /** The committed cursor update moves to or past the row, and the row is not in the batch. */
  predicate PassesOver(s: State, e: Event, row: Row) {
    && Commits(s, e) && row !in s.inFlight.value
    && s.cursor < row.createdAt <= s.inFlight.value[|s.inFlight.value| - 1].createdAt
  }

  /** Not delivered, and no later query asks for it: the cursor is at or past it. */
  predicate Skipped(s: State, row: Row) {
    row.createdAt <= s.cursor && row !in s.delivered
  }

  predicate BatchOk(batch: seq<Row>, cursor: int) {
    batch != [] && forall i | 0 <= i < |batch| :: cursor < batch[i].createdAt <= batch[|batch| - 1].createdAt
  }

  /** What holds however the clock of the database behaves. */
  predicate WeakInvariant(s: State) {
    && WeaklyOrdered(s.log)
    && (forall i | 0 <= i < |s.delivered| :: s.delivered[i].createdAt <= s.cursor)
    && (s.inFlight.Some? ==> BatchOk(s.inFlight.value, s.cursor))
  }

  /** A batch is a stretch of the log, full or up to its end. */
  lemma SelectIsAStretch(log: seq<Row>, cursor: int) returns (k: nat)
    requires WeaklyOrdered(log)
    ensures CursorAt(log, cursor, k)
    ensures var n := |Select(log, cursor)|;
            k + n <= |log| && Select(log, cursor) == log[k..k + n] && (n == BATCH_SIZE || k + n == |log|)
  {
    k := CursorPosition(log, cursor);
    QueriesSplitTheLog(log, cursor, k);
  }

  lemma SelectIsABatch(log: seq<Row>, cursor: int)
    requires WeaklyOrdered(log) && Select(log, cursor) != []
    ensures BatchOk(Select(log, cursor), cursor)
  {
    var k := SelectIsAStretch(log, cursor);
  }

  lemma StepKeepsWeakInvariant(s: State, e: Event)
    requires WeakInvariant(s)
    ensures WeakInvariant(Step(s, e))
  {
    match e
    case Insert(row) => InsertRowKeepsOrder(s.log, row);
    case Read =>
      if Select(s.log, s.cursor) != [] {
        SelectIsABatch(s.log, s.cursor);
      }
    case Respond(_) =>
    case Restart =>
  }

  /** How one step changes whether a row is skipped. */
  lemma StepSkips(s: State, e: Event, row: Row)
    requires WeakInvariant(s) && row.createdAt > EPOCH
    ensures Skipped(Step(s, e), row) <==> PassesOver(s, e, row) || (Skipped(s, row) && !Resets(s, e))
  {
    if Commits(s, e) {
      var batch := s.inFlight.value;
      assert BatchOk(batch, s.cursor);
      assert row in s.delivered ==> row.createdAt <= s.cursor;
      assert row in batch ==> s.cursor < row.createdAt;
    }
  }

  function PassesOverRow(row: Row): (State, Event) -> bool {
    (s: State, e: Event) => PassesOver(s, e, row)
  }

  function SkippedRow(row: Row): State -> bool {
    (s: State) => Skipped(s, row)
  }

  /** Before step `n` the row has been passed over, and nothing has been reset after that. */
  predicate PassedOverBefore(events: seq<Event>, row: Row, n: nat) {
    Since(Occurs(Step, START, events, PassesOverRow(row)), Occurs(Step, START, events, Resets), n)
  }

  /**
   In every run, with clocks that stand still or step back and rows that arrive while a batch is
   under way: a row is skipped exactly when, since the last reset, some committed cursor update has
   moved to or past its timestamp while it was outside the batch.
   */
  lemma SkippedIffPassedOver(events: seq<Event>, n: nat, row: Row)
    requires n <= |events| && row.createdAt > EPOCH
    ensures Skipped(At(events, n), row) <==> PassedOverBefore(events, row, n)
  {
    forall x, e ensures SwitchesAt(Step, WeakInvariant, SkippedRow(row), PassesOverRow(row), Resets, x, e) {
      if WeakInvariant(x) {
        StepKeepsWeakInvariant(x, e);
        StepSkips(x, e, row);
      }
    }
    SinceInRuns(Step, START, events, WeakInvariant, SkippedRow(row), PassesOverRow(row), Resets, n);
  }

  /** A skipped row stays undelivered until the dashboard forces a reset. */
  lemma SkippedUntilReset(events: seq<Event>, n: nat, later: nat, row: Row)
    requires n <= later <= |events| && row.createdAt > EPOCH && Skipped(At(events, n), row)
    requires var reset := Occurs(Step, START, events, Resets);
             forall k: nat {:trigger reset(k)} | n <= k < later :: !reset(k)
    ensures Skipped(At(events, later), row)
  {
    SkippedIffPassedOver(events, n, row);
    SkippedIffPassedOver(events, later, row);
    SinceLasts(Occurs(Step, START, events, PassesOverRow(row)), Occurs(Step, START, events, Resets), n, later);
  }

  /** A row that the query could see is left out only by a full batch, and then passed over only by a
      tie: the batch ends at or before it. */
  lemma SeenRowIsPassedOverByATie(log: seq<Row>, cursor: int, row: Row)
    requires WeaklyOrdered(log) && row in log && cursor < row.createdAt
    ensures var batch := Select(log, cursor);
            row in batch || (|batch| == 100 && batch[|batch| - 1].createdAt <= row.createdAt)
  {
    var k := SelectIsAStretch(log, cursor);
    var batch := Select(log, cursor);
    var i :| 0 <= i < |log| && log[i] == row;
    if i < k + |batch| {
      assert batch[i - k] == row;
    } else {
      assert batch[|batch| - 1] == log[k + |batch| - 1];
    }
  }

  /** A row that arrives with the same timestamp while the batch is under way is passed over without
      any tie in the batch. */
  lemma RowInFlightIsSkipped(a: Row, b: Row)
    requires a.createdAt == b.createdAt > EPOCH && a != b
    ensures Skipped(At([Insert(a), Read, Insert(b), Respond(Accepted(true))], 4), b)
  {
    var events := [Insert(a), Read, Insert(b), Respond(Accepted(true))];
    var s1 := START.(log := [a]);
    var s2 := s1.(inFlight := Some([a]));
    var s3 := s2.(log := [a, b]);
    var s4 := State([a, b], a.createdAt, None, [a], true);
    TwoEqualRows(a, b);
    assert Step(START, events[0]) == s1;
    assert Step(s1, events[1]) == s2;
    assert Step(s2, events[2]) == s3;
    assert Step(s3, events[3]) == s4 by {
      assert [] + [a] == [a];
    }
    StatesAlong(Step, START, events, [START, s1, s2, s3, s4], 4);
  }

  lemma TwoEqualRows(a: Row, b: Row)
    requires a.createdAt == b.createdAt > EPOCH
    ensures InsertRow([], a) == [a] && InsertRow([a], b) == [a, b] && Select([a], EPOCH) == [a]
  {
    assert UpTo([a], b.createdAt) == [a] && After([a], b.createdAt) == [] by {
      QueriesSplitTheLog([a], b.createdAt, 1);
    }
    assert After([a], EPOCH) == [a] by {
      QueriesSplitTheLog([a], EPOCH, 0);
    }
  }

  // ---------------------------------------------------------------- a panic

  function RestartAt(events: seq<Event>): nat -> bool {
    (k: nat) => k < |events| && events[k].Restart?
  }

  /** A reply whose log text cuts a character ends the sync loop: neither does a 422 reset the cursor,
      nor is anything delivered or reset before the agent is restarted. */
  lemma {:induction false} PanicEndsSync(events: seq<Event>, n: nat, later: nat)
    requires n < later <= |events| && At(events, n).inFlight.Some? && At(events, n).inFlight.value != []
    requires events[n].Respond? && Panics(events[n].reply)
    requires forall k: nat {:trigger RestartAt(events)(k)} | n < k < later :: !RestartAt(events)(k)
    ensures At(events, later).delivered == At(events, n).delivered && At(events, later).cursor == At(events, n).cursor
    ensures !At(events, later).alive && At(events, later).inFlight.None?
    decreases later
  {
    if n + 1 < later {
      PanicEndsSync(events, n, later - 1);
      assert !RestartAt(events)(later - 1);
      DeadStaysDead(At(events, later - 1), events[later - 1]);
    }
  }

  lemma DeadStaysDead(s: State, e: Event)
    requires !s.alive && s.inFlight.None? && !e.Restart?
    ensures var t := Step(s, e); !t.alive && t.inFlight.None? && t.delivered == s.delivered && t.cursor == s.cursor
  {
  }

  // ---------------------------------------------------------------- one query

  predicate NothingSkipped(log: seq<Row>, cursor: int)
    requires Select(log, cursor) != []
  {
    var batch := Select(log, cursor);
    After(log, batch[|batch| - 1].createdAt) == After(log, cursor)[|batch|..]
  }

  predicate TieAtTheCut(pending: seq<Row>) {
    |pending| > 100 && pending[100].createdAt == pending[99].createdAt
  }

  /** For the log as the query saw it, a committed batch leaves nothing behind exactly when the first
      row that did not fit is later than the last one that did. */
  lemma NothingIsSkippedIffNoTieAtTheCut(log: seq<Row>, cursor: int)
    requires WeaklyOrdered(log) && Select(log, cursor) != []
    ensures NothingSkipped(log, cursor) <==> !TieAtTheCut(After(log, cursor))
  {
    var n := CutPosition(log, cursor);
    var next := log[n - 1].createdAt;
    var j := CursorPosition(log, next);
    QueriesSplitTheLog(log, next, j);
    assert j >= n && (j > n <==> n < |log| && log[n].createdAt == next);
    assert |log[j..]| == |log| - j && |log[n..]| == |log| - n;
  }

  /** The position in the log where the batch ends. */
  lemma CutPosition(log: seq<Row>, cursor: int) returns (n: nat)
    requires WeaklyOrdered(log) && Select(log, cursor) != []
    ensures var batch, pending := Select(log, cursor), After(log, cursor);
            && 0 < n <= |log| && log[n - 1] == batch[|batch| - 1] && pending[|batch|..] == log[n..]
            && (TieAtTheCut(pending) <==> n < |log| && log[n].createdAt == log[n - 1].createdAt)
  {
    var k := SelectIsAStretch(log, cursor);
    QueriesSplitTheLog(log, cursor, k);
    n := k + |Select(log, cursor)|;
    assert |log[k..]| > 100 ==> log[k..][100] == log[k + 100] && log[k..][99] == log[k + 99];
  }

  // ---------------------------------------------------------------- one batch

  function InsertEvents(rows: seq<Row>): (events: seq<Event>)
    ensures |events| == |rows| && forall i | 0 <= i < |rows| :: events[i] == Insert(rows[i])
  {
    seq(|rows|, i requires 0 <= i < |rows| => Insert(rows[i]))
  }

  function InsertAll(log: seq<Row>, rows: seq<Row>, n: nat): seq<Row>
    requires n <= |rows|
  {
    if n == 0 then log else InsertRow(InsertAll(log, rows, n - 1), rows[n - 1])
  }

  lemma {:induction false} RunInserts(s: State, rows: seq<Row>, n: nat)
    requires n <= |rows|
    ensures StateAfter(Step, s, InsertEvents(rows), n) == s.(log := InsertAll(s.log, rows, n))
  {
    if n > 0 {
      RunInserts(s, rows, n - 1);
    }
  }

  function Batch(during: seq<Row>, reply: Reply): seq<Event> {
    [Read] + (InsertEvents(during) + [Respond(reply)])
  }

  /** A batch, event by event, and the state it ends in. */
  lemma RunBatch(s: State, during: seq<Row>, reply: Reply)
    ensures var reading := Step(s, Read);
            Final(Step, s, Batch(during, reply)) == Step(reading.(log := InsertAll(s.log, during, |during|)), Respond(reply))
  {
    var inserts := InsertEvents(during);
    FinalOfConcat(Step, s, [Read], inserts + [Respond(reply)]);
    FinalOfOne(Step, s, Read);
    FinalOfConcat(Step, Step(s, Read), inserts, [Respond(reply)]);
    RunInserts(Step(s, Read), during, |during|);
    FinalOfOne(Step, Final(Step, Step(s, Read), inserts), Respond(reply));
  }

  predicate Succeeds(reply: Reply) {
    (reply.Accepted? || reply.ChainMismatch?) && reply.committed && !Panics(reply)
  }

  class SyncTask {
    var auditLog: seq<Row>
    var lastSyncedAt: int
    ghost var delivered: seq<Row>
    var alive: bool

    ghost function View(): State
      reads this
    {
      State(auditLog, lastSyncedAt, None, delivered, alive)
    }

    constructor ()
      ensures View() == START
    {
      auditLog := [];
      lastSyncedAt := EPOCH;
      delivered := [];
      alive := true;
    }

    /** One `sync_batch`, with the rows that other tasks append while the request is under way. */
    method SyncBatch(during: seq<Row>, reply: Reply) returns (ok: bool)
      requires alive
      modifies this
      ensures Select(old(auditLog), old(lastSyncedAt)) == [] ==> View() == old(View())
      ensures Select(old(auditLog), old(lastSyncedAt)) != [] ==>
                View() == Final(Step, old(View()), Batch(during, reply))
      ensures ok <==> (Select(old(auditLog), old(lastSyncedAt)) == [] || Succeeds(reply))
    {
      var entries := Select(auditLog, lastSyncedAt);
      if entries == [] {
        return true;
      }
      var lastAt := entries[|entries| - 1].createdAt;
      RunBatch(View(), during, reply);
      auditLog := InsertAll(auditLog, during, |during|);
      match reply {
        case NoReply =>
          return false;
        case ChainMismatch(body, committed) =>
          if CutsACharacter(body) {
            alive := false;
            return false;
          }
          if !committed { return false; }
          lastSyncedAt := EPOCH;
          delivered := [];
        case Refused(body) =>
          alive := !CutsACharacter(body);
          return false;
        case Accepted(committed) =>
          if !committed { return false; }
          lastSyncedAt := lastAt;
          delivered := delivered + entries;
      }
      ok := true;
    }
  }
}

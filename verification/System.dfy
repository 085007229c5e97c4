/**
 Command admission, dispatch and audit (internal/handlers/system.rs), the WebSocket gate
 (internal/ws_client.rs), the heartbeat endpoint and the two watchdogs (internal/main.rs).

 Each watchdog tick, heartbeat and command is one atomic step. What a handler other than
 `agent.heartbeat_ack` answers is an input of the step.
 */
module System {
  import opened Basics
  import opened AgentState
  import Auth
  import Audit

  datatype AgentError =
    | Unauthorized
    | Forbidden(message: string)
    | BadRequest(message: string)
    | LockdownActive
    | Internal
  {
    /** `sanitize_error`: what an audit row may say about the error. */
    function Sanitized(): string {
      match this
      case Unauthorized => "unauthorized"
      case Forbidden(m) => "forbidden: " + m
      case BadRequest(m) => "bad request: " + m
      case LockdownActive => "lockdown active"
      case Internal => "internal error"
    }
  }

  type Reply = Result<Auth.Json, AgentError>

  datatype Config = Config(
    auth: Auth.Context,
    sha: Audit.HashFn,
    internalToken: string,
    utf8: string -> Bytes,
    authErrorText: Auth.AuthError -> string)

  /** When a row is written, and what the database does with it. */
  datatype Stamp = Stamp(rowId: Uuid, createdAt: int, db: Audit.Db)

  /** Everything one command meets: clocks, the database and the handler it is dispatched to. */
  datatype Env = Env(
    now: nat,
    agentClock: int,
    monotonic: int,
    queries: Auth.NonceQueries,
    handler: Reply,
    rowId: Uuid,
    createdAt: int,
    db: Audit.Db)

  datatype Core = Core(
    rate: Rate,
    lock: Lockdown,
    lastHeartbeat: int,
    nonces: map<string, int>,
    rows: seq<Audit.Row>)

  const KNOWN_COMMANDS: set<string> := {
    "nftables.apply", "nftables.restore", "nftables.accept", "container.list", "tenant.ensure",
    "container.deploy", "container.down", "container.start", "container.stop", "container.remove",
    "container.restart", "container.update", "update.self", "wg.rotate_psk", "wg.management.add_peer",
    "wg.management.remove_peer", "wg.management.list_peers", "wg.data_plane.setup", "wg.data_plane.teardown",
    "dashboard.migrate", "cert.update", "vps.reboot", "nginx.deploy", "nginx.update_config",
    "nginx.install_cert", "certbot.obtain", "nftables.close_setup_port", "db.rotate_password"
  }

  function CommandType(command: Auth.Json): string {
    var t := command.TypeField();
    if t.Some? then t.value else "unknown"
  }

  /** `command_dispatch`. */
  function Dispatch(core: Core, command: Auth.Json, env: Env): (Core, Reply) {
    var t := CommandType(command);
    if t == Auth.HEARTBEAT_ACK then
      (core.(lastHeartbeat := env.monotonic, lock := core.lock.ClearIfHeartbeat()), Ok(Auth.Object(map["ok" := Auth.Bool(true)])))
    else if t in KNOWN_COMMANDS then (core, env.handler)
    else (core, Err(BadRequest("unknown command type")))
  }

  function Classify(reply: Reply): Audit.AuditResult {
    match reply
    case Ok(_) => Audit.Success
    case Err(BadRequest(_)) => Audit.Rejected
    case Err(Unauthorized) => Audit.Rejected
    case Err(Forbidden(_)) => Audit.Rejected
    case Err(_) => Audit.Failed
  }

  function RejectionEntry(cfg: Config, result: Audit.AuditResult, error: Option<Bytes>): Audit.Entry {
    Audit.Entry(cfg.auth.ownAgentId, None, None, cfg.utf8("unknown"), result, error)
  }

  function CommandEntry(cfg: Config, v: Auth.VerifiedCommand, reply: Reply): Audit.Entry {
    Audit.Entry(cfg.auth.ownAgentId, v.organizationId, Some(v.userId), cfg.utf8(CommandType(v.command)), Classify(reply),
                if reply.Err? then Some(cfg.utf8(reply.error.Sanitized())) else None)
  }

  /** The outcome of verification when the rate limiter admits the command. */
  function Verify(cfg: Config, core: Core, signed: Auth.SignedCommand, env: Env)
    : (map<string, int>, Result<Auth.VerifiedCommand, Auth.AuthError>)
  {
    Auth.Verification(cfg.auth, signed, env.agentClock, core.nonces, env.queries)
  }

  /** A command on the point of being logged; `mandatory` when its reply depends on the row. */
  datatype Pending = Pending(core: Core, entry: Audit.Entry, reply: Reply, mandatory: bool)

  /** `run_verified_command` up to the audit row. */
  function Process(cfg: Config, core: Core, signed: Auth.SignedCommand, env: Env): Pending {
    var (rate, admitted) := core.rate.Check(env.now);
    var limited := core.(rate := rate);
    if !admitted then
      Pending(limited, RejectionEntry(cfg, Audit.RejectedRateLimit, None), Err(BadRequest("rate limit exceeded")), false)
    else
      var (nonces, verified) := Verify(cfg, core, signed, env);
      var checked := limited.(nonces := nonces);
      match verified
      case Err(e) =>
        Pending(checked, RejectionEntry(cfg, Audit.Rejected, Some(cfg.utf8(cfg.authErrorText(e)))), Err(Unauthorized), false)
      case Ok(v) =>
        var (done, reply) := Dispatch(checked, v.command, env);
        Pending(done, CommandEntry(cfg, v, reply), reply, true)
  }

  function LogCall(p: Pending, env: Env): Audit.AppendCall {
    Audit.AppendCall(env.rowId, p.entry, env.createdAt, env.db)
  }

  /** `run_verified_command`. */
  function RunVerified(cfg: Config, core: Core, signed: Auth.SignedCommand, env: Env): (Core, Reply) {
    var p := Process(cfg, core, signed, env);
    var (rows, appended) := Audit.AppendTo(cfg.sha, p.core.rows, LogCall(p, env));
    (p.core.(rows := rows), if p.mandatory && !appended then Err(Internal) else p.reply)
  }

  /** `execute_command`, POST /cmd. */
  function Execute(cfg: Config, core: Core, token: string, signed: Auth.SignedCommand, env: Env): (Core, Reply) {
    if core.lock.flag then (core, Err(LockdownActive))
    else if token != cfg.internalToken then (core, Err(Unauthorized))
    else RunVerified(cfg, core, signed, env)
  }

  /** `peek_inner_command_type`: the command type of a payload nobody has verified yet. */
  function PeekInnerCommandType(cfg: Config, signed: Auth.SignedCommand): Option<string> {
    if signed.payload.None? then None
    else
      match cfg.auth.document(signed.payload.value)
      case None => None
      case Some(doc) =>
        var command := doc.Get("command");
        if command.Some? then command.value.TypeField() else None
  }

  /** The `command` branch of `handle_message`. */
  function HandleMessage(cfg: Config, core: Core, signed: Auth.SignedCommand, env: Env): (Core, Reply) {
    if PeekInnerCommandType(cfg, signed) != Some(Auth.HEARTBEAT_ACK) && core.lock.flag then (core, Err(LockdownActive))
    else RunVerified(cfg, core, signed, env)
  }

  /** `heartbeat_handler`, POST /heartbeat: no rate limit and no audit row. */
  function HandleHeartbeat(cfg: Config, core: Core, signed: Auth.SignedCommand, env: Env): (Core, bool) {
    var (nonces, verified) := Verify(cfg, core, signed, env);
    var checked := core.(nonces := nonces);
    if verified.Ok? && verified.value.command.TypeField() == Some(Auth.HEARTBEAT_ACK) then
      (checked.(lastHeartbeat := env.monotonic, lock := core.lock.ClearIfHeartbeat()), true)
    else (checked, false)
  }

  const HEARTBEAT_TIMEOUT := 300

  // ---------------------------------------------------------------- rows from other tasks

  /** What the conflict check and the nginx watchdog log. Of these only the first is not a success. */
  datatype Notice =
    | ConflictDetected(software: string, detail: string)
    | ConflictRemoved(software: string, action: string)
    | NginxEvent(event: string, detail: string)
  {
    function Result(): Audit.AuditResult {
      if ConflictDetected? then Audit.Failed else Audit.Success
    }

    function CommandType(): string {
      match this
      case ConflictDetected(_, _) => "conflicting_software_detected"
      case ConflictRemoved(_, _) => "conflicting_software_removed"
      case NginxEvent(event, _) => event
    }

    function Error(): string {
      match this
      case ConflictDetected(software, detail) => software + ": " + detail
      case ConflictRemoved(software, action) => software + ": " + action
      case NginxEvent(_, detail) => detail
    }
  }

  function NoticeCall(cfg: Config, notice: Notice, stamp: Stamp): Audit.AppendCall {
    var entry := Audit.Entry(cfg.auth.ownAgentId, None, None, cfg.utf8(notice.CommandType()), notice.Result(),
                             Some(cfg.utf8(notice.Error())));
    Audit.AppendCall(stamp.rowId, entry, stamp.createdAt, stamp.db)
  }

  /** One incompatible software: whether it is there, how its removal ended, and the rows on the way. */
  datatype Suspect = Suspect(
    name: string,
    present: bool,
    failure: Option<string>,
    detected: Stamp,
    notified: Stamp,
    recorded: Stamp)

  function RemovalText(s: Suspect): string {
    if s.failure.Some? then "removal_failed: " + s.failure.value else "removed"
  }

  /** What `check_and_remove` does about one of them, as events of the machine. */
  function SuspectEvents(s: Suspect): seq<Event> {
    if !s.present then []
    else
      [Log(ConflictDetected(s.name, "detected"), s.detected),
       Log(ConflictDetected(s.name, RemovalText(s)), s.notified),
       Log(ConflictRemoved(s.name, RemovalText(s)), s.recorded)]
      + if s.failure.Some? then [RemovalFailed] else []
  }

  predicate RemovalFails(s: Suspect) {
    s.present && s.failure.Some?
  }

  /** The check ends with the first removal that fails. */
  function CheckEvents(suspects: seq<Suspect>): seq<Event> {
    if suspects == [] then []
    else
      SuspectEvents(suspects[0])
      + if RemovalFails(suspects[0]) then [] else CheckEvents(suspects[1..])
  }

  // ---------------------------------------------------------------- the agent

  class Agent {
    const cfg: Config
    const app: AppState
    const nonces: Auth.NonceTable
    const log: Audit.AuditLog

    ghost predicate Valid() {
      log.sha == cfg.sha
    }

    constructor (cfg: Config, now: int)
      ensures Valid() && this.cfg == cfg && fresh(app) && fresh(nonces) && fresh(log)
      ensures View() == Core(Rate(0, 0), Lockdown(false, None), now, map[], [])
    {
      this.cfg := cfg;
      app := new AppState(now);
      nonces := new Auth.NonceTable();
      log := new Audit.AuditLog(cfg.sha);
    }

    ghost function View(): Core
      reads app, nonces, log
    {
      Core(app.RateView(), app.LockdownView(), app.lastHeartbeat, nonces.rows, log.rows)
    }

    method CommandDispatch(command: Auth.Json, env: Env) returns (reply: Reply)
      modifies app`lastHeartbeat, app`lockdown, app`lockdownReason
      ensures (View(), reply) == Dispatch(old(View()), command, env)
    {
      var t := CommandType(command);
      if t == Auth.HEARTBEAT_ACK {
        app.lastHeartbeat := env.monotonic;
        app.ClearLockdownIfHeartbeat();
        reply := Ok(Auth.Object(map["ok" := Auth.Bool(true)]));
      } else if t in KNOWN_COMMANDS {
        reply := env.handler;
      } else {
        reply := Err(BadRequest("unknown command type"));
      }
    }

    method RunVerifiedCommand(signed: Auth.SignedCommand, env: Env) returns (reply: Reply)
      requires Valid()
      modifies app, nonces, log
      ensures (View(), reply) == RunVerified(cfg, old(View()), signed, env)
    {
      var admitted := app.CheckCmdRate(env.now);
      if !admitted {
        var _ := app.RecordRateRejection(env.now);
        var _ := log.Append(Audit.AppendCall(env.rowId, RejectionEntry(cfg, Audit.RejectedRateLimit, None), env.createdAt, env.db));
        return Err(BadRequest("rate limit exceeded"));
      }
      var verified := Auth.VerifyCommand(cfg.auth, signed, env.agentClock, nonces, env.queries);
      if verified.Err? {
        var entry := RejectionEntry(cfg, Audit.Rejected, Some(cfg.utf8(cfg.authErrorText(verified.error))));
        var _ := log.Append(Audit.AppendCall(env.rowId, entry, env.createdAt, env.db));
        return Err(Unauthorized);
      }
      var result := CommandDispatch(verified.value.command, env);
      var appended := log.Append(
        Audit.AppendCall(env.rowId, CommandEntry(cfg, verified.value, result), env.createdAt, env.db));
      reply := if appended then result else Err(Internal);
    }

    method ExecuteCommand(token: string, signed: Auth.SignedCommand, env: Env) returns (reply: Reply)
      requires Valid()
      modifies app, nonces, log
      ensures (View(), reply) == Execute(cfg, old(View()), token, signed, env)
    {
      if app.lockdown {
        return Err(LockdownActive);
      }
      if token != cfg.internalToken {
        return Err(Unauthorized);
      }
      reply := RunVerifiedCommand(signed, env);
    }

    method HandleCommandMessage(signed: Auth.SignedCommand, env: Env) returns (reply: Reply)
      requires Valid()
      modifies app, nonces, log
      ensures (View(), reply) == HandleMessage(cfg, old(View()), signed, env)
    {
      var isHeartbeatAck := PeekInnerCommandType(cfg, signed) == Some(Auth.HEARTBEAT_ACK);
      if !isHeartbeatAck && app.lockdown {
        return Err(LockdownActive);
      }
      reply := RunVerifiedCommand(signed, env);
    }

    method HeartbeatHandler(signed: Auth.SignedCommand, env: Env) returns (ok: bool)
      requires Valid()
      modifies app, nonces
      ensures (View(), ok) == HandleHeartbeat(cfg, old(View()), signed, env)
    {
      var verified := Auth.VerifyCommand(cfg.auth, signed, env.agentClock, nonces, env.queries);
      if verified.Err? {
        return false;
      }
      if verified.value.command.TypeField() != Some(Auth.HEARTBEAT_ACK) {
        return false;
      }
      app.lastHeartbeat := env.monotonic;
      app.ClearLockdownIfHeartbeat();
      ok := true;
    }

    method LogNotice(notice: Notice, stamp: Stamp)
      requires Valid()
      modifies log
      ensures View() == Step(cfg, old(View()), Log(notice, stamp))
    {
      var _ := log.Append(NoticeCall(cfg, notice, stamp));
    }

    method CheckSuspect(s: Suspect) returns (locked: bool)
      requires Valid()
      modifies log, app`lockdown, app`lockdownReason
      ensures View() == Final(Machine(cfg), old(View()), SuspectEvents(s))
      ensures locked <==> RemovalFails(s)
    {
      SuspectRun(cfg, View(), s);
      if s.present {
        LogNotice(ConflictDetected(s.name, "detected"), s.detected);
        LogNotice(ConflictDetected(s.name, RemovalText(s)), s.notified);
        LogNotice(ConflictRemoved(s.name, RemovalText(s)), s.recorded);
        if s.failure.Some? {
          app.SetLockdown(IncompatibleSoftware);
        }
      }
      locked := s.present && s.failure.Some?;
    }

    /** One round of the conflict check. */
    method CheckAndRemove(suspects: seq<Suspect>)
      requires Valid()
      modifies log, app`lockdown, app`lockdownReason
      ensures View() == Final(Machine(cfg), old(View()), CheckEvents(suspects))
    {
      for i := 0 to |suspects|
        invariant Final(Machine(cfg), View(), CheckEvents(suspects[i..])) == Final(Machine(cfg), old(View()), CheckEvents(suspects))
      {
        CheckTakesOne(cfg, View(), suspects[i..]);
        assert suspects[i..][1..] == suspects[i + 1..];
        var locked := CheckSuspect(suspects[i]);
        if locked {
          return;
        }
      }
    }

    method HeartbeatWatchdogTick(monotonic: int)
      modifies app`lockdown, app`lockdownReason
      ensures View() == Step(cfg, old(View()), HeartbeatTick(monotonic))
    {
      if monotonic - app.lastHeartbeat > HEARTBEAT_TIMEOUT && !app.lockdown {
        app.SetLockdown(Heartbeat);
      }
    }

    method PostgresWatchdogTick(reachable: bool)
      modifies app`lockdown, app`lockdownReason
      ensures View() == Step(cfg, old(View()), PostgresTick(reachable))
    {
      if !reachable && !app.lockdown {
        app.SetLockdown(PgUnreachable);
      }
    }
  }

  // ---------------------------------------------------------------- runs

  datatype Event =
    | HeartbeatTick(monotonic: int)
    | PostgresTick(reachable: bool)
    | RestoreFailed
    | RemovalFailed
    | Log(notice: Notice, stamp: Stamp)
    | Ack(signed: Auth.SignedCommand, env: Env)
    | Http(token: string, signed: Auth.SignedCommand, env: Env)
    | WebSocket(signed: Auth.SignedCommand, env: Env)

  function Step(cfg: Config, core: Core, e: Event): Core {
    match e
    case HeartbeatTick(monotonic) =>
      if monotonic - core.lastHeartbeat > HEARTBEAT_TIMEOUT && !core.lock.flag then core.(lock := core.lock.Set(Heartbeat)) else core
    case PostgresTick(reachable) =>
      if !reachable && !core.lock.flag then core.(lock := core.lock.Set(PgUnreachable)) else core
    case RestoreFailed => core.(lock := core.lock.Set(NftablesFailure))
    case RemovalFailed => core.(lock := core.lock.Set(IncompatibleSoftware))
    case Log(notice, stamp) => core.(rows := Audit.AppendTo(cfg.sha, core.rows, NoticeCall(cfg, notice, stamp)).0)
    case Ack(signed, env) => HandleHeartbeat(cfg, core, signed, env).0
    case Http(token, signed, env) => Execute(cfg, core, token, signed, env).0
    case WebSocket(signed, env) => HandleMessage(cfg, core, signed, env).0
  }

  function AfterSuspect(cfg: Config, core: Core, s: Suspect): Core {
    if !s.present then core
    else
      var c1 := Step(cfg, core, Log(ConflictDetected(s.name, "detected"), s.detected));
      var c2 := Step(cfg, c1, Log(ConflictDetected(s.name, RemovalText(s)), s.notified));
      var c3 := Step(cfg, c2, Log(ConflictRemoved(s.name, RemovalText(s)), s.recorded));
      if s.failure.Some? then Step(cfg, c3, RemovalFailed) else c3
  }

  lemma SuspectRun(cfg: Config, core: Core, s: Suspect)
    ensures Final(Machine(cfg), core, SuspectEvents(s)) == AfterSuspect(cfg, core, s)
  {
    if s.present {
      var events := SuspectEvents(s);
      var c1 := Step(cfg, core, events[0]);
      var c2 := Step(cfg, c1, events[1]);
      var c3 := Step(cfg, c2, events[2]);
      if s.failure.Some? {
        StatesAlong(Machine(cfg), core, events, [core, c1, c2, c3, Step(cfg, c3, RemovalFailed)], 4);
      } else {
        StatesAlong(Machine(cfg), core, events, [core, c1, c2, c3], 3);
      }
    }
  }

  lemma CheckTakesOne(cfg: Config, core: Core, suspects: seq<Suspect>)
    requires suspects != []
    ensures var next := Final(Machine(cfg), core, SuspectEvents(suspects[0]));
            Final(Machine(cfg), core, CheckEvents(suspects))
              == if RemovalFails(suspects[0]) then next else Final(Machine(cfg), next, CheckEvents(suspects[1..]))
  {
    var rest := if RemovalFails(suspects[0]) then [] else CheckEvents(suspects[1..]);
    FinalOfConcat(Machine(cfg), core, SuspectEvents(suspects[0]), rest);
  }

  /** Whether the event gets as far as `run_verified_command`. */
  predicate Runs(cfg: Config, core: Core, e: Event) {
    match e
    case Http(token, _, _) => !core.lock.flag && token == cfg.internalToken
    case WebSocket(signed, _) => !core.lock.flag || PeekInnerCommandType(cfg, signed) == Some(Auth.HEARTBEAT_ACK)
    case _ => false
  }

  /** The type of the command that the event dispatches, if it dispatches one. */
  function Dispatched(cfg: Config, core: Core, e: Event): Option<string> {
    if Runs(cfg, core, e) && core.rate.Check(e.env.now).1 && Verify(cfg, core, e.signed, e.env).1.Ok?
    then Some(CommandType(Verify(cfg, core, e.signed, e.env).1.value.command))
    else None
  }

  function Machine(cfg: Config): (Core, Event) -> Core {
    (core: Core, e: Event) => Step(cfg, core, e)
  }

  function StateAt(cfg: Config, core: Core, events: seq<Event>, n: nat): Core
    requires n <= |events|
  {
    StateAfter(Machine(cfg), core, events, n)
  }

  // ---------------------------------------------------------------- lockdown

  /**
   Peeking and dispatching read the same bytes. For a command that verifies they see the same type,
   unless the payload is written as an array: then peeking sees none. So whatever is peeked as an
   acknowledgement is dispatched as one.
   */
  lemma PeekAgreesWithDispatch(cfg: Config, core: Core, signed: Auth.SignedCommand, env: Env)
    requires Verify(cfg, core, signed, env).1.Ok?
    ensures var dispatched := Verify(cfg, core, signed, env).1.value.command.TypeField();
            PeekInnerCommandType(cfg, signed) == if IsArrayForm(cfg, signed) then None else dispatched
  {
    var p := cfg.auth.Parse(signed.payload.value);
    assert p.Some?;
  }

  predicate IsArrayForm(cfg: Config, signed: Auth.SignedCommand) {
    && signed.payload.Some? && cfg.auth.document(signed.payload.value).Some?
    && cfg.auth.document(signed.payload.value).value.Array?
  }

  /** An acknowledgement in that form does not get through to a locked agent by WebSocket; by its own
      HTTP path it does. */
  lemma ArrayAckIsHeldBack(cfg: Config, core: Core, signed: Auth.SignedCommand, env: Env)
    requires core.lock.flag && IsArrayForm(cfg, signed)
    ensures HandleMessage(cfg, core, signed, env) == (core, Err(LockdownActive))
    ensures Verify(cfg, core, signed, env).1.Ok? && core.lock.reason == Some(Heartbeat)
            && Verify(cfg, core, signed, env).1.value.command.TypeField() == Some(Auth.HEARTBEAT_ACK) ==>
              !HandleHeartbeat(cfg, core, signed, env).0.lock.flag
  {
  }

  lemma StepKeepsLockdownInvariant(cfg: Config, core: Core, e: Event)
    requires core.lock.Consistent()
    ensures Step(cfg, core, e).lock.Consistent()
    ensures core.lock.Permanent() ==> Step(cfg, core, e).lock.Permanent()
  {
    if e.Http? || e.WebSocket? {
      var lock := Process(cfg, core, e.signed, e.env).core.lock;
      assert lock == core.lock || lock == core.lock.ClearIfHeartbeat();
    }
  }

  lemma OnlyAcksAreDispatchedWhileLocked(cfg: Config, core: Core, e: Event)
    requires core.lock.flag
    ensures Dispatched(cfg, core, e).None? || Dispatched(cfg, core, e) == Some(Auth.HEARTBEAT_ACK)
  {
    if Dispatched(cfg, core, e).Some? {
      PeekAgreesWithDispatch(cfg, core, e.signed, e.env);
    }
  }

  predicate ConsistentLock(core: Core) {
    core.lock.Consistent()
  }

  predicate PermanentLock(core: Core) {
    core.lock.Consistent() && core.lock.Permanent()
  }

  lemma LockdownPersists(cfg: Config, core: Core, events: seq<Event>, i: nat, j: nat)
    requires core.lock.Consistent() && i <= j <= |events|
    ensures StateAt(cfg, core, events, j).lock.Consistent()
    ensures StateAt(cfg, core, events, i).lock.Permanent() ==> StateAt(cfg, core, events, j).lock.Permanent()
  {
    forall x, e ensures KeepsAt(Machine(cfg), ConsistentLock, x, e) && KeepsAt(Machine(cfg), PermanentLock, x, e) {
      if x.lock.Consistent() {
        StepKeepsLockdownInvariant(cfg, x, e);
      }
    }
    InvariantFrom(Machine(cfg), ConsistentLock, core, events, 0, i);
    InvariantFrom(Machine(cfg), ConsistentLock, core, events, 0, j);
    if StateAt(cfg, core, events, i).lock.Permanent() {
      InvariantFrom(Machine(cfg), PermanentLock, core, events, i, j);
    }
  }

  predicate DispatchesOnlyAcks(cfg: Config, core: Core, e: Event) {
    core.lock.flag && Dispatched(cfg, core, e).Some? ==> Dispatched(cfg, core, e) == Some(Auth.HEARTBEAT_ACK)
  }

  /**
   The lockdown machine over whole runs: the flag is set exactly when a reason is recorded; a reason
   other than a missed heartbeat is neither cleared nor replaced by one; and while the agent is
   locked no command but a heartbeat acknowledgement is dispatched.
   */
  lemma {:induction false} LockdownMachine(cfg: Config, core: Core, events: seq<Event>, i: nat, j: nat)
    requires core.lock.Consistent() && i <= j <= |events|
    ensures StateAt(cfg, core, events, j).lock.Consistent()
    ensures StateAt(cfg, core, events, i).lock.Permanent() ==> StateAt(cfg, core, events, j).lock.Permanent()
    ensures j < |events| ==> DispatchesOnlyAcks(cfg, StateAt(cfg, core, events, j), events[j])
  {
    LockdownPersists(cfg, core, events, i, j);
    if j < |events| && StateAt(cfg, core, events, j).lock.flag {
      OnlyAcksAreDispatchedWhileLocked(cfg, StateAt(cfg, core, events, j), events[j]);
    }
  }

  predicate IsAcceptedAck(cfg: Config, core: Core, e: Event) {
    || (e.Ack? && HandleHeartbeat(cfg, core, e.signed, e.env).1)
    || Dispatched(cfg, core, e) == Some(Auth.HEARTBEAT_ACK)
  }

  /** A lockdown ends exactly with an accepted acknowledgement, and only one for a missed heartbeat. */
  lemma LockdownEndsExactlyByAck(cfg: Config, core: Core, e: Event)
    requires core.lock.Consistent() && core.lock.flag
    ensures !Step(cfg, core, e).lock.flag <==> core.lock.reason == Some(Heartbeat) && IsAcceptedAck(cfg, core, e)
  {
    if e.Http? || e.WebSocket? {
      OnlyAcksAreDispatchedWhileLocked(cfg, core, e);
    }
  }

  // ---------------------------------------------------------------- audit conservation

  /** The reply of `run_verified_command`, if the event gets there. */
  function ReplyOf(cfg: Config, core: Core, e: Event): Option<Reply> {
    if Runs(cfg, core, e) then Some(RunVerified(cfg, core, e.signed, e.env).1) else None
  }

  function SuccessRows(rows: seq<Audit.Row>): nat {
    if rows == [] then 0
    else SuccessRows(rows[..|rows| - 1]) + if rows[|rows| - 1].result == Audit.AuditResult.Success.AsStr() then 1 else 0
  }

  predicate RepliesOk(cfg: Config, core: Core, e: Event) {
    ReplyOf(cfg, core, e).Some? && ReplyOf(cfg, core, e).value.Ok?
  }

  /** The command succeeded and its row was committed, but the acknowledgement got lost. */
  predicate LosesAck(cfg: Config, core: Core, e: Event) {
    && Runs(cfg, core, e)
    && Process(cfg, core, e.signed, e.env).reply.Ok?
    && Audit.Extendable(cfg.sha, core.rows)
    && e.env.db == Audit.AckLost
  }

  function OkReply(cfg: Config): (Core, Event) -> nat {
    (core: Core, e: Event) => if RepliesOk(cfg, core, e) then 1 else 0
  }

  function LostAck(cfg: Config): (Core, Event) -> nat {
    (core: Core, e: Event) => if LosesAck(cfg, core, e) then 1 else 0
  }

  /** The event inserts a success row for a task other than the dispatch of commands. */
  predicate LogsSuccess(cfg: Config, core: Core, e: Event) {
    && e.Log? && e.notice.Result() == Audit.Success
    && Audit.Inserts(cfg.sha, core.rows, NoticeCall(cfg, e.notice, e.stamp).entry, e.stamp.db)
  }

  function SuccessNotice(cfg: Config): (Core, Event) -> nat {
    (core: Core, e: Event) => if LogsSuccess(cfg, core, e) then 1 else 0
  }

  function SuccessNotices(cfg: Config, core: Core, events: seq<Event>, n: nat): nat
    requires n <= |events|
  {
    Tally(Machine(cfg), core, events, SuccessNotice(cfg), n)
  }

  function OkReplies(cfg: Config, core: Core, events: seq<Event>, n: nat): nat
    requires n <= |events|
  {
    Tally(Machine(cfg), core, events, OkReply(cfg), n)
  }

  function LostAcks(cfg: Config, core: Core, events: seq<Event>, n: nat): nat
    requires n <= |events|
  {
    Tally(Machine(cfg), core, events, LostAck(cfg), n)
  }

  lemma SuccessRowsSnoc(rows: seq<Audit.Row>, row: Audit.Row)
    ensures SuccessRows(rows + [row]) == SuccessRows(rows) + if row.result == Audit.AuditResult.Success.AsStr() then 1 else 0
  {
    assert (rows + [row])[..|rows|] == rows;
  }

  /** The four result texts are different. */
  lemma OnlySuccessReadsSuccess(r: Audit.AuditResult)
    ensures r.AsStr() == Audit.AuditResult.Success.AsStr() <==> r == Audit.Success
  {
    assert |Audit.AuditResult.Success.AsStr()| == 7 && |Audit.AuditResult.Rejected.AsStr()| == 8;
    assert |Audit.AuditResult.RejectedRateLimit.AsStr()| == 19 && |Audit.AuditResult.Failed.AsStr()| == 6;
  }

  lemma ProcessLeavesTheLog(cfg: Config, core: Core, signed: Auth.SignedCommand, env: Env)
    ensures Process(cfg, core, signed, env).core.rows == core.rows
  {
  }

  /** What is logged as a success is a dispatched command that succeeded. */
  lemma SuccessEntryIsOkReply(cfg: Config, core: Core, signed: Auth.SignedCommand, env: Env)
    ensures var p := Process(cfg, core, signed, env);
            p.entry.result == Audit.Success <==> p.reply.Ok?
    ensures Process(cfg, core, signed, env).reply.Ok? ==> Process(cfg, core, signed, env).mandatory
  {
  }

  lemma AppendCounts(sha: Audit.HashFn, rows: seq<Audit.Row>, c: Audit.AppendCall)
    ensures SuccessRows(Audit.AppendTo(sha, rows, c).0) == SuccessRows(rows)
              + (if c.entry.result == Audit.Success && Audit.Inserts(sha, rows, c.entry, c.db) then 1 else 0)
  {
    OnlySuccessReadsSuccess(c.entry.result);
    if Audit.Inserts(sha, rows, c.entry, c.db) {
      SuccessRowsSnoc(rows, Audit.NewRow(sha, Audit.Head(rows), c.id, c.entry, c.now));
    }
  }

  lemma CommandConserves(cfg: Config, core: Core, e: Event)
    requires Runs(cfg, core, e)
    ensures SuccessRows(RunVerified(cfg, core, e.signed, e.env).0.rows)
         == SuccessRows(core.rows) + (if RepliesOk(cfg, core, e) then 1 else 0) + (if LosesAck(cfg, core, e) then 1 else 0)
  {
    ProcessLeavesTheLog(cfg, core, e.signed, e.env);
    SuccessEntryIsOkReply(cfg, core, e.signed, e.env);
    AppendCounts(cfg.sha, core.rows, LogCall(Process(cfg, core, e.signed, e.env), e.env));
  }

  lemma StepConserves(cfg: Config, core: Core, e: Event)
    ensures SuccessRows(Step(cfg, core, e).rows)
         == SuccessRows(core.rows) + OkReply(cfg)(core, e) + LostAck(cfg)(core, e) + SuccessNotice(cfg)(core, e)
  {
    if Runs(cfg, core, e) {
      CommandConserves(cfg, core, e);
    } else if e.Log? {
      AppendCounts(cfg.sha, core.rows, NoticeCall(cfg, e.notice, e.stamp));
    }
  }

  /** In every run the success rows added are the Ok replies, the commands that succeeded but whose
      acknowledgement got lost between the database and the agent, and the successes that other tasks
      have logged; every Ok reply has its row. */
  lemma AuditConservation(cfg: Config, core: Core, events: seq<Event>, n: nat)
    requires n <= |events|
    ensures SuccessRows(StateAt(cfg, core, events, n).rows)
         == SuccessRows(core.rows) + OkReplies(cfg, core, events, n) + LostAcks(cfg, core, events, n)
            + SuccessNotices(cfg, core, events, n)
  {
    var successes := (x: Core) => SuccessRows(x.rows);
    forall x, e ensures GainsAt(Machine(cfg), successes, OkReply(cfg), LostAck(cfg), SuccessNotice(cfg), x, e) {
      StepConserves(cfg, x, e);
    }
    TallyInRuns(Machine(cfg), core, events, successes, OkReply(cfg), LostAck(cfg), SuccessNotice(cfg), n);
  }

  lemma HealthyNotice(cfg: Config, core: Core, notice: Notice, stamp: Stamp)
    requires Audit.Extendable(cfg.sha, core.rows) && stamp.db == Audit.Healthy
    ensures var after := Step(cfg, core, Log(notice, stamp));
            && Audit.Extendable(cfg.sha, after.rows) && |after.rows| == |core.rows| + 1 && after.lock == core.lock
            && SuccessRows(after.rows) == SuccessRows(core.rows) + if notice.ConflictDetected? then 0 else 1
  {
    AppendCounts(cfg.sha, core.rows, NoticeCall(cfg, notice, stamp));
  }

  /** A removal that fails is logged as a failure twice and then, with the lockdown, as a success. */
  lemma FailedRemovalLogsASuccess(cfg: Config, core: Core, s: Suspect)
    requires RemovalFails(s) && Audit.Extendable(cfg.sha, core.rows)
    requires s.detected.db == Audit.Healthy && s.notified.db == Audit.Healthy && s.recorded.db == Audit.Healthy
    ensures var after := Final(Machine(cfg), core, SuspectEvents(s));
            && SuccessRows(after.rows) == SuccessRows(core.rows) + 1 && |after.rows| == |core.rows| + 3
            && after.lock == Lockdown(true, Some(IncompatibleSoftware))
  {
    SuspectRun(cfg, core, s);
    var c1 := Step(cfg, core, Log(ConflictDetected(s.name, "detected"), s.detected));
    HealthyNotice(cfg, core, ConflictDetected(s.name, "detected"), s.detected);
    var c2 := Step(cfg, c1, Log(ConflictDetected(s.name, RemovalText(s)), s.notified));
    HealthyNotice(cfg, c1, ConflictDetected(s.name, RemovalText(s)), s.notified);
    HealthyNotice(cfg, c2, ConflictRemoved(s.name, RemovalText(s)), s.recorded);
  }

  /** Every event leaves the log alone or makes one append. */
  lemma StepAppendsAtMostOnce(cfg: Config, core: Core, e: Event) returns (c: Audit.AppendCall)
    ensures Step(cfg, core, e).rows == core.rows || Step(cfg, core, e).rows == Audit.AppendTo(cfg.sha, core.rows, c).0
    ensures RepliesOk(cfg, core, e) ==> Audit.AppendTo(cfg.sha, core.rows, c).1
  {
    if Runs(cfg, core, e) {
      ProcessLeavesTheLog(cfg, core, e.signed, e.env);
      SuccessEntryIsOkReply(cfg, core, e.signed, e.env);
      c := LogCall(Process(cfg, core, e.signed, e.env), e.env);
    } else if e.Log? {
      c := NoticeCall(cfg, e.notice, e.stamp);
    } else {
      c := Audit.AppendCall(NIL_UUID, RejectionEntry(cfg, Audit.Rejected, None), 0, Audit.FetchFails);
    }
  }

  function RowsAre(rows: seq<Audit.Row>): Core -> bool {
    (x: Core) => x.rows == rows
  }

  /** Once the last row fails its hash check, the log never changes again and no command succeeds. */
  lemma BrokenLogFreezesTheAgent(cfg: Config, core: Core, events: seq<Event>, n: nat)
    requires !Audit.Extendable(cfg.sha, core.rows) && n <= |events|
    ensures StateAt(cfg, core, events, n).rows == core.rows
    ensures OkReplies(cfg, core, events, n) == 0
  {
    forall x, e ensures QuietAt(Machine(cfg), RowsAre(core.rows), OkReply(cfg), x, e) {
      if x.rows == core.rows {
        BrokenLogFreezesTheStep(cfg, x, e);
      }
    }
    QuietInRuns(Machine(cfg), RowsAre(core.rows), OkReply(cfg), core, events, n);
  }

  lemma BrokenLogFreezesTheStep(cfg: Config, core: Core, e: Event)
    requires !Audit.Extendable(cfg.sha, core.rows)
    ensures Step(cfg, core, e).rows == core.rows && !RepliesOk(cfg, core, e)
  {
    var _ := StepAppendsAtMostOnce(cfg, core, e);
  }

  lemma StepKeepsVerified(cfg: Config, core: Core, e: Event)
    requires Audit.Verified(cfg.sha, core.rows)
    ensures Audit.Verified(cfg.sha, Step(cfg, core, e).rows) && core.rows <= Step(cfg, core, e).rows
  {
    var c := StepAppendsAtMostOnce(cfg, core, e);
    Audit.AppendKeepsVerified(cfg.sha, core.rows, c);
  }

  function ExtendsVerified(sha: Audit.HashFn, rows: seq<Audit.Row>): Core -> bool {
    (x: Core) => Audit.Verified(sha, x.rows) && rows <= x.rows
  }

  /** The log verifies at every moment of every run that starts with a verified one. */
  lemma LogStaysVerified(cfg: Config, core: Core, events: seq<Event>, n: nat)
    requires Audit.Verified(cfg.sha, core.rows) && n <= |events|
    ensures Audit.Verified(cfg.sha, StateAt(cfg, core, events, n).rows)
    ensures core.rows <= StateAt(cfg, core, events, n).rows
  {
    var inv := ExtendsVerified(cfg.sha, core.rows);
    forall x, e ensures KeepsAt(Machine(cfg), inv, x, e) {
      if inv(x) {
        StepKeepsVerified(cfg, x, e);
      }
    }
    InvariantFrom(Machine(cfg), inv, core, events, 0, n);
  }

  /** A command refused by the rate limiter leaves no trace in the log: the CHECK constraint of the
      table does not admit the result the agent tries to write. */
  lemma RateLimitedCommandsAreNotLogged(cfg: Config, core: Core, signed: Auth.SignedCommand, env: Env)
    requires !core.rate.Check(env.now).1
    ensures RunVerified(cfg, core, signed, env).0.rows == core.rows
  {
  }
}

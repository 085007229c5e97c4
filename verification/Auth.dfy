/**
 Command authentication (internal/auth/mod.rs): keyring, addressing, freshness window and nonces.

 Ed25519 verification (section 5.1.7 of RFC 8032), base64 and JSON decoding are function
 parameters. Clocks count microseconds; `timestamp()` is the whole seconds of the agent's clock.
 */
module Auth {
  import opened Basics

  // ---------------------------------------------------------------- payloads

  datatype Json =
    | Null
    | Bool(b: bool)
    | Number(n: int)
    | Fraction(text: string)
    | String(s: string)
    | Array(elements: seq<Json>)
    | Object(fields: map<string, Json>)
  {
    function Get(key: string): Option<Json> {
      if Object? && key in fields then Some(fields[key]) else None
    }

    function AsStr(): Option<string> {
      if String? then Some(s) else None
    }

    /** `value.get("type").and_then(as_str)` */
    function TypeField(): Option<string> {
      var t := Get("type");
      if t.Some? then t.value.AsStr() else None
    }
  }

  const HEARTBEAT_ACK := "agent.heartbeat_ack"

  datatype Permission = Read | Write | Destructive

  datatype CommandPayload = CommandPayload(
    nonce: string,
    timestamp: int,
    agentId: Uuid,
    userId: Uuid,
    organizationId: Option<Uuid>,
    permission: Permission,
    command: Json)
  {
    predicate IsHeartbeatAck() {
      command.TypeField() == Some(HEARTBEAT_ACK)
    }
  }

  datatype VerifiedCommand = VerifiedCommand(
    userId: Uuid,
    organizationId: Option<Uuid>,
    permission: Permission,
    command: Json)

  function ParseUuid(uuid: string -> Option<Uuid>, field: Option<Json>): Option<Uuid> {
    if field.Some? && field.value.String? then uuid(field.value.s) else None
  }

  /** A unit variant is written as its name, or as an object that maps its name to null. */
  function ParsePermission(field: Option<Json>): Option<Permission> {
    match field
    case Some(String("read")) => Some(Read)
    case Some(String("write")) => Some(Write)
    case Some(String("destructive")) => Some(Destructive)
    case Some(Object(fields)) =>
      if fields == map["read" := Null] then Some(Read)
      else if fields == map["write" := Null] then Some(Write)
      else if fields == map["destructive" := Null] then Some(Destructive)
      else None
    case _ => None
  }

  const PAYLOAD_FIELDS := 7

  /** A field of a derived struct, which is written as an object or as the array of all its fields. */
  function Field(doc: Json, key: string, position: nat): Option<Json>
    requires position < PAYLOAD_FIELDS
  {
    if doc.Array? then (if |doc.elements| == PAYLOAD_FIELDS then Some(doc.elements[position]) else None) else doc.Get(key)
  }

  /** Deserialization of the inner payload: every field is required but the organization. */
  function ParsePayload(uuid: string -> Option<Uuid>, doc: Json): (p: Option<CommandPayload>)
    ensures p.Some? ==> IsI64(p.value.timestamp) && Field(doc, "command", 6) == Some(p.value.command)
  {
    var nonce, timestamp, command := Field(doc, "nonce", 0), Field(doc, "timestamp", 1), Field(doc, "command", 6);
    var agentId, userId := ParseUuid(uuid, Field(doc, "agent_id", 2)), ParseUuid(uuid, Field(doc, "user_id", 3));
    var organizationId, permission := Field(doc, "organization_id", 4), ParsePermission(Field(doc, "permission", 5));
    var noOrganization := organizationId.None? || organizationId.value.Null?;
    if nonce.Some? && nonce.value.String? && timestamp.Some? && timestamp.value.Number? && IsI64(timestamp.value.n)
       && agentId.Some? && userId.Some? && permission.Some? && command.Some?
       && (noOrganization || ParseUuid(uuid, organizationId).Some?)
    then
      Some(CommandPayload(nonce.value.s, timestamp.value.n, agentId.value, userId.value,
                          if noOrganization then None else ParseUuid(uuid, organizationId),
                          permission.value, command.value))
    else None
  }

  predicate ReadsUuid(uuid: string -> Option<Uuid>, j: Json, id: Uuid) {
    j.String? && uuid(j.s) == Some(id)
  }

  predicate ReadsPermission(j: Json, p: Permission) {
    match p
    case Read => j == String("read") || j == Object(map["read" := Null])
    case Write => j == String("write") || j == Object(map["write" := Null])
    case Destructive => j == String("destructive") || j == Object(map["destructive" := Null])
  }

  /** The fields of an object that spell out a payload. */
  predicate Spells(uuid: string -> Option<Uuid>, fields: map<string, Json>, p: CommandPayload) {
    && {"nonce", "timestamp", "agent_id", "user_id", "permission", "command"} <= fields.Keys
    && fields["nonce"] == String(p.nonce)
    && fields["timestamp"] == Number(p.timestamp) && IsI64(p.timestamp)
    && ReadsUuid(uuid, fields["agent_id"], p.agentId)
    && ReadsUuid(uuid, fields["user_id"], p.userId)
    && (if "organization_id" !in fields || fields["organization_id"] == Null then p.organizationId == None
        else p.organizationId.Some? && ReadsUuid(uuid, fields["organization_id"], p.organizationId.value))
    && ReadsPermission(fields["permission"], p.permission)
    && fields["command"] == p.command
  }

  /** The names of the permissions differ, also inside of objects. */
  lemma PermissionsDiffer()
    ensures "read" != "write" && "read" != "destructive" && "write" != "destructive"
    ensures map["read" := Null] != map["write" := Null] && map["read" := Null] != map["destructive" := Null]
    ensures map["write" := Null] != map["destructive" := Null]
  {
    assert "read"[0] != "write"[0] && "read"[0] != "destructive"[0] && "write"[0] != "destructive"[0];
    assert "read" in map["read" := Null] && "write" in map["write" := Null];
  }

  lemma PermissionIff(j: Json, p: Permission)
    ensures ParsePermission(Some(j)) == Some(p) <==> ReadsPermission(j, p)
  {
    PermissionsDiffer();
  }

  /** An object decodes to a payload exactly when its fields spell it out; the organization may be
      missing or null, and other fields do not matter. */
  lemma PayloadDecodesIff(uuid: string -> Option<Uuid>, fields: map<string, Json>, p: CommandPayload)
    ensures ParsePayload(uuid, Object(fields)) == Some(p) <==> Spells(uuid, fields, p)
  {
    if "permission" in fields {
      PermissionIff(fields["permission"], p.permission);
    }
  }

  /** The type of a command is the text in its field `type`. */
  lemma TypeFieldIff(command: Json, t: string)
    ensures command.TypeField() == Some(t) <==>
              command.Object? && "type" in command.fields && command.fields["type"] == String(t)
  {
  }

  /** Both encodings of a payload decode to the same. */
  lemma ArrayFormDecodesAlike(uuid: string -> Option<Uuid>, e: seq<Json>)
    requires |e| == PAYLOAD_FIELDS
    ensures ParsePayload(uuid, Array(e)) == ParsePayload(uuid, Object(map[
              "nonce" := e[0], "timestamp" := e[1], "agent_id" := e[2], "user_id" := e[3],
              "organization_id" := e[4], "permission" := e[5], "command" := e[6]]))
  {
  }

  /** Both fields after base64url decoding; `None` where decoding fails. */
  datatype SignedCommand = SignedCommand(payload: Option<Bytes>, signature: Option<Bytes>)

  datatype AuthError =
    | EmptyKeyring
    | InvalidPayload
    | InvalidSignature
    | SignatureLength
    | MalformedSlot(slot: nat)
    | NoKeyVerified
    | InvalidJson
    | WrongAgent
    | Stale
    | Database
    | NonceReused

  // ---------------------------------------------------------------- keyring

  datatype Ed25519 = Ed25519(wellFormed: Bytes -> bool, verifies: (Bytes, Bytes, Bytes) -> bool)

  predicate SlotVerifies(s: Ed25519, key: Bytes, message: Bytes, sig: Bytes) {
    s.wellFormed(key) && s.verifies(key, message, sig)
  }

  predicate RingAccepts(s: Ed25519, ring: seq<Bytes>, message: Bytes, sig: Bytes) {
    exists key | key in ring :: SlotVerifies(s, key, message, sig)
  }

  /** `try_verify_keys`: no error exactly when some key verifies. */
  method TryVerifyKeys(s: Ed25519, keys: seq<Bytes>, message: Bytes, sig: Bytes) returns (err: Option<AuthError>)
    ensures err.None? <==> exists key | key in keys :: s.verifies(key, message, sig)
    ensures err.Some? ==> err.value == NoKeyVerified
  {
    var lastErr: Option<AuthError> := None;
    for i := 0 to |keys|
      invariant forall key | key in keys[..i] :: !s.verifies(key, message, sig)
      invariant lastErr.Some? ==> lastErr.value == NoKeyVerified
    {
      if s.verifies(keys[i], message, sig) {
        return None;
      }
      lastErr := Some(NoKeyVerified);
    }
    err := if lastErr.Some? then lastErr else Some(NoKeyVerified);
  }

  /** What the keyring loop surfaces when nothing verifies: the last malformed slot, if there is one. */
  function RingError(s: Ed25519, ring: seq<Bytes>): AuthError {
    if ring == [] then NoKeyVerified
    else if !s.wellFormed(ring[|ring| - 1]) then MalformedSlot(|ring| - 1)
    else RingError(s, ring[..|ring| - 1])
  }

  /** It names the last malformed slot; without one it says that no key has verified. */
  lemma {:induction false} RingErrorNamesTheLastMalformedSlot(s: Ed25519, ring: seq<Bytes>, k: nat)
    ensures RingError(s, ring) == MalformedSlot(k) <==>
              k < |ring| && !s.wellFormed(ring[k]) && forall i | k < i < |ring| :: s.wellFormed(ring[i])
    ensures RingError(s, ring) == NoKeyVerified <==> forall i | 0 <= i < |ring| :: s.wellFormed(ring[i])
    ensures RingError(s, ring) == NoKeyVerified || RingError(s, ring).MalformedSlot?
  {
    if ring != [] && s.wellFormed(ring[|ring| - 1]) {
      RingErrorNamesTheLastMalformedSlot(s, ring[..|ring| - 1], k);
    }
  }

  /** The keyring loop of `verify_command`. */
  method VerifyRing(s: Ed25519, ring: seq<Bytes>, message: Bytes, sig: Bytes) returns (r: Result<(), AuthError>)
    ensures r == if RingAccepts(s, ring, message, sig) then Ok(()) else Err(RingError(s, ring))
  {
    var lastErr: Option<AuthError> := None;
    var matched := false;
    var i := 0;
    while i < |ring| && !matched
      invariant 0 <= i <= |ring|
      invariant matched ==> RingAccepts(s, ring, message, sig)
      invariant !matched ==> forall key | key in ring[..i] :: !SlotVerifies(s, key, message, sig)
      invariant !matched ==> RingError(s, ring[..i]) == if lastErr.Some? then lastErr.value else NoKeyVerified
      decreases |ring| - i, !matched
    {
      assert ring[..i + 1] == ring[..i] + [ring[i]];
      if !s.wellFormed(ring[i]) {
        lastErr := Some(MalformedSlot(i));
      } else {
        var e := TryVerifyKeys(s, [ring[i]], message, sig);
        assert ring[i] in [ring[i]];
        if e.None? {
          assert SlotVerifies(s, ring[i], message, sig);
          matched := true;
        }
      }
      i := i + 1;
    }
    if matched {
      return Ok(());
    }
    assert ring[..i] == ring;
    r := Err(if lastErr.Some? then lastErr.value else NoKeyVerified);
  }

  /** The verdict does not depend on the order of the slots. */
  lemma RingOrderIsIrrelevant(s: Ed25519, a: seq<Bytes>, b: seq<Bytes>, message: Bytes, sig: Bytes)
    requires multiset(a) == multiset(b)
    ensures RingAccepts(s, a, message, sig) <==> RingAccepts(s, b, message, sig)
  {
    forall k: Bytes ensures k in a <==> k in b {
      assert k in a <==> k in multiset(a);
      assert k in b <==> k in multiset(b);
    }
  }

  // ---------------------------------------------------------------- freshness

  const SECOND := 1_000_000
  const MAX_SKEW := 30
  const RETENTION := 300 * SECOND
  const I63 := 0x8000_0000_0000_0000

  predicate IsI64(x: int) {
    -I63 <= x < I63
  }

  /** Two's complement wrap-around of a release build. */
  function Wrap64(x: int): int {
    (x + I63) % (2 * I63) - I63
  }

  function Abs64(x: int): int {
    if x == -I63 then x else if x < 0 then -x else x
  }

  predicate Fresh(now: int, timestamp: int) {
    Abs64(Wrap64(now - timestamp)) <= MAX_SKEW
  }

  /** The clocks the model talks about: from 1970 for as long as half the range of an i64 lasts. */
  predicate ClockInRange(now: int) {
    0 <= now < I63 / 2
  }

  /** The wrapping comparison is the intended one except at a distance of exactly 2^63 seconds. */
  lemma FreshIsTheWindow(now: int, timestamp: int)
    requires ClockInRange(now) && IsI64(timestamp)
    ensures Fresh(now, timestamp) <==> (-30 <= now - timestamp <= 30 || now - timestamp == 0x8000_0000_0000_0000)
  {
    var d := now - timestamp;
    assert -I63 < d < 2 * I63;
    if d < I63 {
      assert Wrap64(d) == d;
    } else {
      assert Wrap64(d) == d - 2 * I63;
    }
  }

  lemma TwoFreshReadingsAreClose(a: int, b: int, timestamp: int)
    requires ClockInRange(a) && ClockInRange(b) && IsI64(timestamp)
    requires Fresh(a, timestamp) && Fresh(b, timestamp)
    ensures b - a <= 60
  {
    FreshIsTheWindow(a, timestamp);
    FreshIsTheWindow(b, timestamp);
  }

  // ---------------------------------------------------------------- one verification

  function Purged(rows: map<string, int>, now: int): map<string, int> {
    map n | n in rows && rows[n] >= now - RETENTION :: rows[n]
  }

  /** Table `used_nonces`: nonce to `created_at`. */
  class NonceTable {
    var rows: map<string, int>

    constructor ()
      ensures rows == map[]
    {
      rows := map[];
    }

    method Purge(now: int)
      modifies this
      ensures rows == Purged(old(rows), now)
    {
      rows := map n | n in rows && !(rows[n] < now - RETENTION) :: rows[n];
    }

    /** `INSERT ... ON CONFLICT DO NOTHING RETURNING nonce` */
    method Insert(nonce: string, now: int) returns (inserted: bool)
      modifies this
      ensures inserted <==> nonce !in old(rows)
      ensures rows == if inserted then old(rows)[nonce := now] else old(rows)
    {
      inserted := nonce !in rows;
      if inserted {
        rows := rows[nonce := now];
      }
    }
  }

  /** When the two statements of one nonce check run, and whether they reach the database. */
  datatype NonceQueries = NonceQueries(purgeAt: int, purgeOk: bool, insertAt: int, insertOk: bool)

  function ConsumeNonce(rows: map<string, int>, nonce: string, q: NonceQueries): (map<string, int>, Result<(), AuthError>) {
    var purged := Purged(rows, q.purgeAt);
    if !q.purgeOk then (rows, Err(Database))
    else if !q.insertOk then (purged, Err(Database))
    else if nonce in purged then (purged, Err(NonceReused))
    else (purged[nonce := q.insertAt], Ok(()))
  }

  method CheckAndConsumeNonce(table: NonceTable, nonce: string, q: NonceQueries) returns (r: Result<(), AuthError>)
    modifies table
    ensures (table.rows, r) == ConsumeNonce(old(table.rows), nonce, q)
  {
    if !q.purgeOk {
      return Err(Database);
    }
    table.Purge(q.purgeAt);
    if !q.insertOk {
      return Err(Database);
    }
    var inserted := table.Insert(nonce, q.insertAt);
    r := if inserted then Ok(()) else Err(NonceReused);
  }

  datatype Context = Context(
    scheme: Ed25519,
    document: Bytes -> Option<Json>,
    uuid: string -> Option<Uuid>,
    ring: seq<Bytes>,
    ownAgentId: Uuid)
  {
    function Parse(payload: Bytes): Option<CommandPayload> {
      var doc := document(payload);
      if doc.Some? then ParsePayload(uuid, doc.value) else None
    }
  }

  /** The outcome of every check before the nonce. */
  function Authenticate(c: Context, signed: SignedCommand, agentClock: int): Result<CommandPayload, AuthError> {
    if c.ring == [] then Err(EmptyKeyring)
    else if signed.payload.None? then Err(InvalidPayload)
    else if signed.signature.None? then Err(InvalidSignature)
    else if |signed.signature.value| != 64 then Err(SignatureLength)
    else if !RingAccepts(c.scheme, c.ring, signed.payload.value, signed.signature.value) then
      Err(RingError(c.scheme, c.ring))
    else
      match c.Parse(signed.payload.value)
      case None => Err(InvalidJson)
      case Some(p) =>
        if p.agentId != c.ownAgentId then Err(WrongAgent)
        else if !p.IsHeartbeatAck() && !Fresh(agentClock / SECOND, p.timestamp) then Err(Stale)
        else Ok(p)
  }

  function Verification(c: Context, signed: SignedCommand, agentClock: int, rows: map<string, int>, q: NonceQueries)
    : (map<string, int>, Result<VerifiedCommand, AuthError>)
  {
    match Authenticate(c, signed, agentClock)
    case Err(e) => (rows, Err(e))
    case Ok(p) =>
      match ConsumeNonce(rows, p.nonce, q)
      case (rows', Err(e)) => (rows', Err(e))
      case (rows', Ok(_)) => (rows', Ok(VerifiedCommand(p.userId, p.organizationId, p.permission, p.command)))
  }

  method VerifyCommand(c: Context, signed: SignedCommand, agentClock: int, table: NonceTable, q: NonceQueries)
    returns (r: Result<VerifiedCommand, AuthError>)
    modifies table
    ensures (table.rows, r) == Verification(c, signed, agentClock, old(table.rows), q)
  {
    if c.ring == [] {
      return Err(EmptyKeyring);
    }
    if signed.payload.None? {
      return Err(InvalidPayload);
    }
    if signed.signature.None? {
      return Err(InvalidSignature);
    }
    if |signed.signature.value| != 64 {
      return Err(SignatureLength);
    }
    var ringResult := VerifyRing(c.scheme, c.ring, signed.payload.value, signed.signature.value);
    if ringResult.Err? {
      return Err(ringResult.error);
    }
    var parsed := c.Parse(signed.payload.value);
    if parsed.None? {
      return Err(InvalidJson);
    }
    var payload := parsed.value;
    if payload.agentId != c.ownAgentId {
      return Err(WrongAgent);
    }
    if !payload.IsHeartbeatAck() {
      var skew := Abs64(Wrap64(agentClock / SECOND - payload.timestamp));
      if skew > MAX_SKEW {
        return Err(Stale);
      }
    }
    var nonceResult := CheckAndConsumeNonce(table, payload.nonce, q);
    if nonceResult.Err? {
      return Err(nonceResult.error);
    }
    r := Ok(VerifiedCommand(payload.userId, payload.organizationId, payload.permission, payload.command));
  }

  /** What it means for a payload to be signed, addressed to this agent and recent enough. */
  predicate Genuine(c: Context, signed: SignedCommand, agentClock: int, p: CommandPayload) {
    && signed.payload.Some? && signed.signature.Some? && |signed.signature.value| == 64
    && (exists key | key in c.ring :: c.scheme.wellFormed(key) && c.scheme.verifies(key, signed.payload.value, signed.signature.value))
    && c.Parse(signed.payload.value) == Some(p)
    && p.agentId == c.ownAgentId
    && (p.command.TypeField() == Some("agent.heartbeat_ack")
        || -30 <= agentClock / 1_000_000 - p.timestamp <= 30
        || agentClock / 1_000_000 - p.timestamp == 0x8000_0000_0000_0000)
  }

  predicate Admissible(c: Context, signed: SignedCommand, agentClock: int, p: CommandPayload,
                       rows: map<string, int>, q: NonceQueries) {
    && Genuine(c, signed, agentClock, p) && q.purgeOk && q.insertOk
    && !(p.nonce in rows && rows[p.nonce] >= q.purgeAt - 300_000_000)
  }

  predicate AcceptsAs(c: Context, signed: SignedCommand, agentClock: int, p: CommandPayload,
                      rows: map<string, int>, q: NonceQueries) {
    Verification(c, signed, agentClock, rows, q)
      == (Purged(rows, q.purgeAt)[p.nonce := q.insertAt],
          Ok(VerifiedCommand(p.userId, p.organizationId, p.permission, p.command)))
  }

  lemma RingAcceptsIff(s: Ed25519, ring: seq<Bytes>, signed: SignedCommand)
    requires signed.payload.Some? && signed.signature.Some?
    ensures RingAccepts(s, ring, signed.payload.value, signed.signature.value) <==>
              exists key | key in ring :: s.wellFormed(key) && s.verifies(key, signed.payload.value, signed.signature.value)
  {
    if key :| key in ring && s.wellFormed(key) && s.verifies(key, signed.payload.value, signed.signature.value) {
      assert SlotVerifies(s, key, signed.payload.value, signed.signature.value);
    }
  }

  /** A command is accepted exactly when its payload is genuine, the database answers and the nonce
      is not on record; it then is on record, and the command is handed on as it was signed. */
  lemma AcceptedIffAdmissible(c: Context, signed: SignedCommand, agentClock: int, rows: map<string, int>, q: NonceQueries)
    requires ClockInRange(agentClock / SECOND)
    ensures Verification(c, signed, agentClock, rows, q).1.Ok? <==> exists p :: Admissible(c, signed, agentClock, p, rows, q)
    ensures forall p | Admissible(c, signed, agentClock, p, rows, q) :: AcceptsAs(c, signed, agentClock, p, rows, q)
  {
    AuthenticatedIffGenuine(c, signed, agentClock);
    if signed.payload.Some? && c.Parse(signed.payload.value).Some? {
      var p := c.Parse(signed.payload.value).value;
      assert Verification(c, signed, agentClock, rows, q).1.Ok? <==> Admissible(c, signed, agentClock, p, rows, q);
    }
  }

  predicate NoKeyVerifies(c: Context, payload: Bytes, sig: Bytes) {
    forall key | key in c.ring :: !(c.scheme.wellFormed(key) && c.scheme.verifies(key, payload, sig))
  }

  /** What an error says about the command, besides that it is refused. */
  predicate Why(e: AuthError, c: Context, signed: SignedCommand, agentClock: int, rows: map<string, int>, q: NonceQueries) {
    match e
    case EmptyKeyring => |c.ring| == 0
    case InvalidPayload => signed.payload == None
    case InvalidSignature => signed.signature == None
    case SignatureLength => signed.signature.Some? && |signed.signature.value| != 64
    case MalformedSlot(k) =>
      && k < |c.ring| && !c.scheme.wellFormed(c.ring[k])
      && signed.payload.Some? && signed.signature.Some? && NoKeyVerifies(c, signed.payload.value, signed.signature.value)
    case NoKeyVerified =>
      && (forall k | 0 <= k < |c.ring| :: c.scheme.wellFormed(c.ring[k]))
      && signed.payload.Some? && signed.signature.Some? && NoKeyVerifies(c, signed.payload.value, signed.signature.value)
    case InvalidJson => signed.payload.Some? && c.Parse(signed.payload.value) == None
    case WrongAgent =>
      && signed.payload.Some? && c.Parse(signed.payload.value).Some?
      && c.Parse(signed.payload.value).value.agentId != c.ownAgentId
    case Stale =>
      && signed.payload.Some? && c.Parse(signed.payload.value).Some?
      && var p := c.Parse(signed.payload.value).value;
         p.command.TypeField() != Some("agent.heartbeat_ack") && !(-30 <= agentClock / 1_000_000 - p.timestamp <= 30)
    case Database => !q.purgeOk || !q.insertOk
    case NonceReused =>
      && signed.payload.Some? && c.Parse(signed.payload.value).Some?
      && var nonce := c.Parse(signed.payload.value).value.nonce;
         nonce in rows && rows[nonce] >= q.purgeAt - 300_000_000
  }

  /** A refusal names a fault that the command has. Only a command that is genuine gets as far as the
      nonces, so any other leaves them as they are. */
  lemma RefusalTellsWhy(c: Context, signed: SignedCommand, agentClock: int, rows: map<string, int>, q: NonceQueries)
    requires ClockInRange(agentClock / SECOND)
    ensures var (rows', r) := Verification(c, signed, agentClock, rows, q);
            r.Err? ==>
              && Why(r.error, c, signed, agentClock, rows, q)
              && ((exists p :: Genuine(c, signed, agentClock, p)) ==> r.error == Database || r.error == NonceReused)
              && ((forall p :: !Genuine(c, signed, agentClock, p)) ==> rows' == rows)
  {
    RefusedBeforeTheNonce(c, signed, agentClock);
    AuthenticatedIffGenuine(c, signed, agentClock);
  }

  lemma RefusedBeforeTheNonce(c: Context, signed: SignedCommand, agentClock: int)
    requires ClockInRange(agentClock / SECOND)
    ensures var r := Authenticate(c, signed, agentClock);
            r.Err? ==>
              && r.error != Database && r.error != NonceReused
              && forall rows, q :: Why(r.error, c, signed, agentClock, rows, q)
  {
    if |c.ring| > 0 && signed.payload.Some? && signed.signature.Some? && |signed.signature.value| == 64 {
      RingAcceptsIff(c.scheme, c.ring, signed);
      var e := RingError(c.scheme, c.ring);
      RingErrorNamesTheLastMalformedSlot(c.scheme, c.ring, if e.MalformedSlot? then e.slot else 0);
      if c.Parse(signed.payload.value).Some? {
        FreshIsTheWindow(agentClock / SECOND, c.Parse(signed.payload.value).value.timestamp);
      }
    }
  }

  lemma AuthenticatedIffGenuine(c: Context, signed: SignedCommand, agentClock: int)
    requires ClockInRange(agentClock / SECOND)
    ensures Authenticate(c, signed, agentClock).Ok? <==> exists p :: Genuine(c, signed, agentClock, p)
    ensures forall p | Genuine(c, signed, agentClock, p) :: Authenticate(c, signed, agentClock) == Ok(p)
  {
    if signed.payload.Some? && signed.signature.Some? && c.Parse(signed.payload.value).Some? {
      var p := c.Parse(signed.payload.value).value;
      FreshIsTheWindow(agentClock / SECOND, p.timestamp);
      RingAcceptsIff(c.scheme, c.ring, signed);
      assert Authenticate(c, signed, agentClock).Ok? <==> Genuine(c, signed, agentClock, p);
    }
  }
}

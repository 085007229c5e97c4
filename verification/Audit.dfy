/**
 The audit log (internal/audit/mod.rs): an append-only table whose rows are chained by SHA-256.

 SHA-256 followed by hex encoding (section 6.2 of FIPS 180-4) is a function parameter `sha`. All
 that is ever assumed of it is that its values are 64 lowercase hex digits and, where a lemma says
 so, that it does not collide on the preimages of the rows at hand. Rows are kept in `created_at`
 order, so that `ORDER BY created_at DESC LIMIT 1` is the last element.
 */
module Audit {
  import opened Basics

  type HashFn = Bytes -> Bytes

  const GENESIS: Bytes := Ascii("genesis")

  datatype AuditResult = Success | Rejected | RejectedRateLimit | Failed {
    function AsStr(): Bytes {
      match this
      case Success => Ascii("success")
      case Rejected => Ascii("rejected")
      case RejectedRateLimit => Ascii("rejected_rate_limit")
      case Failed => Ascii("failed")
    }
  }

  datatype Entry = Entry(
    agentId: Uuid,
    organizationId: Option<Uuid>,
    userId: Option<Uuid>,
    commandType: Bytes,
    result: AuditResult,
    error: Option<Bytes>)

  datatype Row = Row(
    id: Uuid,
    agentId: Uuid,
    organizationId: Option<Uuid>,
    userId: Option<Uuid>,
    commandType: Bytes,
    result: Bytes,
    error: Option<Bytes>,
    previousHash: Bytes,
    entryHash: Bytes,
    createdAt: int)

  // ---------------------------------------------------------------- the hash of one row

  function OrNil(u: Option<Uuid>): Uuid {
    if u.Some? then u.value else NIL_UUID
  }

  function OrEmpty(e: Option<Bytes>): Bytes {
    if e.Some? then e.value else []
  }

  function Preimage(prev: Bytes, id: Uuid, agentId: Uuid, org: Option<Uuid>, user: Option<Uuid>,
                    commandType: Bytes, result: Bytes, error: Option<Bytes>): Bytes {
    prev + (id + (agentId + (OrNil(org) + (OrNil(user) + (commandType + result + OrEmpty(error))))))
  }

  function RowPreimage(r: Row): Bytes {
    Preimage(r.previousHash, r.id, r.agentId, r.organizationId, r.userId, r.commandType, r.result, r.error)
  }

  lemma Reassociate(p: seq<Bytes>)
    requires |p| == 8
    ensures [] + p[0] + p[1] + p[2] + p[3] + p[4] + p[5] + p[6] + p[7]
         == p[0] + (p[1] + (p[2] + (p[3] + (p[4] + (p[5] + p[6] + p[7])))))
  {
    assert p[5] + p[6] + p[7] == p[5] + (p[6] + p[7]);
  }

  /** The mutable hasher that `compute_entry_hash` feeds field by field. */
  class Sha256 {
    const sha: HashFn
    var fed: Bytes

    constructor (sha: HashFn)
      ensures this.sha == sha && fed == []
    {
      this.sha := sha;
      fed := [];
    }

    method Update(data: Bytes)
      modifies this
      ensures fed == old(fed) + data
    {
      fed := fed + data;
    }

    method Finalize() returns (digest: Bytes)
      ensures digest == sha(fed)
    {
      digest := sha(fed);
    }
  }

  method ComputeEntryHash(sha: HashFn, prev: Bytes, id: Uuid, agentId: Uuid, org: Option<Uuid>,
                          user: Option<Uuid>, commandType: Bytes, result: Bytes, error: Option<Bytes>)
    returns (digest: Bytes)
    ensures digest == sha(Preimage(prev, id, agentId, org, user, commandType, result, error))
  {
    var h := new Sha256(sha);
    h.Update(prev);
    h.Update(id);
    h.Update(agentId);
    h.Update(OrNil(org));
    h.Update(OrNil(user));
    h.Update(commandType);
    h.Update(result);
    h.Update(OrEmpty(error));
    Reassociate([prev, id, agentId, OrNil(org), OrNil(user), commandType, result, OrEmpty(error)]);
    digest := h.Finalize();
  }

  // ---------------------------------------------------------------- what a chain is

  predicate IsHexDigit(b: byte) {
    48 <= b <= 57 || 97 <= b <= 102
  }

  predicate IsDigest(d: Bytes) {
    |d| == 64 && forall i | 0 <= i < |d| :: IsHexDigit(d[i])
  }

  ghost predicate Digests(sha: HashFn) {
    forall x :: IsDigest(sha(x))
  }

  /** The stored hash of the row is the hash of its data. */
  predicate Sealed(sha: HashFn, r: Row) {
    sha(RowPreimage(r)) == r.entryHash
  }

  /** What the row at position `n` has to link to. */
  function Link(rows: seq<Row>, n: nat): Bytes
    requires n <= |rows|
  {
    if n == 0 then GENESIS else rows[n - 1].entryHash
  }

  function Head(rows: seq<Row>): Bytes {
    Link(rows, |rows|)
  }

  /** Row-by-row verification from the genesis sentinel. */
  predicate Verified(sha: HashFn, rows: seq<Row>) {
    forall i {:trigger RowVerifies(sha, rows, i)} | 0 <= i < |rows| :: RowVerifies(sha, rows, i)
  }

  predicate RowVerifies(sha: HashFn, rows: seq<Row>, i: nat)
    requires i < |rows|
  {
    Sealed(sha, rows[i]) && rows[i].previousHash == Link(rows, i)
  }

  /** Exactly what the hash of a row commits to. */
  predicate Agree(r: Row, s: Row) {
    && r.previousHash == s.previousHash
    && r.id == s.id
    && r.agentId == s.agentId
    && OrNil(r.organizationId) == OrNil(s.organizationId)
    && OrNil(r.userId) == OrNil(s.userId)
    && r.commandType + r.result + OrEmpty(r.error) == s.commandType + s.result + OrEmpty(s.error)
  }

  predicate IsLink(h: Bytes) {
    h == GENESIS || IsDigest(h)
  }

  /** Genesis is no digest: its first letter is not a hex digit. */
  lemma GenesisIsNoDigest(h: Bytes)
    requires h != [] && h[0] == GENESIS[0]
    ensures !IsDigest(h)
  {
    assert GENESIS[0] as int == 'g' as int;
  }

  /** A field of known length can be cut off the front of two equal byte strings. */
  lemma CutFront(a: Bytes, b: Bytes, x: Bytes, y: Bytes)
    requires a + x == b + y && |a| == |b|
    ensures a == b && x == y
  {
    assert a == (a + x)[..|a|] && b == (b + y)[..|b|];
    assert x == (a + x)[|a|..] && y == (b + y)[|b|..];
  }

  /** Equal preimages begin with links of the same kind. */
  lemma SameLinkLength(r: Row, s: Row)
    requires IsLink(r.previousHash) && IsLink(s.previousHash) && RowPreimage(r) == RowPreimage(s)
    ensures |r.previousHash| == |s.previousHash|
  {
    assert r.previousHash[0] == RowPreimage(r)[0] && s.previousHash[0] == RowPreimage(s)[0];
    if r.previousHash == GENESIS {
      GenesisIsNoDigest(s.previousHash);
    } else if s.previousHash == GENESIS {
      GenesisIsNoDigest(r.previousHash);
    }
  }

  /** Agreement is equality of the preimages, provided they are cut at the same place. */
  lemma AgreementIsEqualPreimages(r: Row, s: Row)
    ensures Agree(r, s) <==> RowPreimage(r) == RowPreimage(s) && |r.previousHash| == |s.previousHash|
  {
    if RowPreimage(r) == RowPreimage(s) && |r.previousHash| == |s.previousHash| {
      var x4 := r.commandType + r.result + OrEmpty(r.error);
      var y4 := s.commandType + s.result + OrEmpty(s.error);
      var x3, y3 := OrNil(r.userId) + x4, OrNil(s.userId) + y4;
      var x2, y2 := OrNil(r.organizationId) + x3, OrNil(s.organizationId) + y3;
      var x1, y1 := r.agentId + x2, s.agentId + y2;
      CutFront(r.previousHash, s.previousHash, r.id + x1, s.id + y1);
      CutFront(r.id, s.id, x1, y1);
      CutFront(r.agentId, s.agentId, x2, y2);
      CutFront(OrNil(r.organizationId), OrNil(s.organizationId), x3, y3);
      CutFront(OrNil(r.userId), OrNil(s.userId), x4, y4);
    }
  }

  /** What can be decoded back from the unseparated concatenation. */
  lemma PreimageDecodes(r: Row, s: Row)
    requires IsLink(r.previousHash) && IsLink(s.previousHash)
    ensures RowPreimage(r) == RowPreimage(s) <==> Agree(r, s)
  {
    AgreementIsEqualPreimages(r, s);
    if RowPreimage(r) == RowPreimage(s) {
      SameLinkLength(r, s);
    }
  }

  predicate Distinguishes(sha: HashFn, r: Row, s: Row) {
    sha(RowPreimage(r)) == sha(RowPreimage(s)) ==> RowPreimage(r) == RowPreimage(s)
  }

  predicate CollisionFree(sha: HashFn, a: seq<Row>, b: seq<Row>) {
    forall i, j {:trigger Distinguishes(sha, a[i], b[j])} | 0 <= i < |a| && 0 <= j < |b| ::
      Distinguishes(sha, a[i], b[j])
  }

  lemma LinksAreWellFormed(sha: HashFn, rows: seq<Row>, n: nat)
    requires Digests(sha) && Verified(sha, rows) && n <= |rows|
    ensures if n == 0 then Link(rows, n) == GENESIS else IsDigest(Link(rows, n)) && Link(rows, n) != GENESIS
  {
    if n > 0 {
      assert RowVerifies(sha, rows, n - 1);
      assert IsDigest(sha(RowPreimage(rows[n - 1])));
    }
  }

  predicate AgreeEverywhere(a: seq<Row>, b: seq<Row>) {
    |a| == |b| && forall i | 0 <= i < |a| :: Agree(a[i], b[i])
  }

  /** Two rows of verified logs have the same hash exactly when they agree. */
  lemma SameHashAgrees(sha: HashFn, a: seq<Row>, m: nat, b: seq<Row>, n: nat)
    requires Digests(sha) && Verified(sha, a) && Verified(sha, b) && CollisionFree(sha, a, b)
    requires m < |a| && n < |b|
    ensures a[m].entryHash == b[n].entryHash <==> Agree(a[m], b[n])
    ensures Agree(a[m], b[n]) ==> Link(a, m) == Link(b, n)
  {
    LinksAreWellFormed(sha, a, m);
    LinksAreWellFormed(sha, b, n);
    assert RowVerifies(sha, a, m) && RowVerifies(sha, b, n);
    assert Distinguishes(sha, a[m], b[n]);
    PreimageDecodes(a[m], b[n]);
  }

  lemma {:induction false} LinkDeterminesPrefix(sha: HashFn, a: seq<Row>, m: nat, b: seq<Row>, n: nat)
    requires Digests(sha) && Verified(sha, a) && Verified(sha, b) && CollisionFree(sha, a, b)
    requires m <= |a| && n <= |b| && Link(a, m) == Link(b, n)
    ensures m == n && forall i | 0 <= i < m :: Agree(a[i], b[i])
  {
    LinksAreWellFormed(sha, a, m);
    LinksAreWellFormed(sha, b, n);
    if m > 0 && n > 0 {
      SameHashAgrees(sha, a, m - 1, b, n - 1);
      LinkDeterminesPrefix(sha, a, m - 1, b, n - 1);
    }
  }

  /** The head hash commits to the whole log, and to nothing more than `Agree` says. */
  lemma HeadCommitsToLog(sha: HashFn, a: seq<Row>, b: seq<Row>)
    requires Digests(sha) && Verified(sha, a) && Verified(sha, b) && CollisionFree(sha, a, b)
    ensures Head(a) == Head(b) <==> AgreeEverywhere(a, b)
  {
    if Head(a) == Head(b) {
      LinkDeterminesPrefix(sha, a, |a|, b, |b|);
    } else if |a| == |b| > 0 {
      SameHashAgrees(sha, a, |a| - 1, b, |b| - 1);
    }
  }

  /**
   The result column on its own is not committed to: a row that reports `failed` and one that
   reports `success` can carry the same hash, whatever the hash function.
   */
  lemma ResultColumnIsNotCommitted(sha: HashFn, base: Row) returns (failed: Row, success: Row)
    requires base.previousHash == GENESIS
    ensures failed.result == Failed.AsStr() && success.result == Success.AsStr()
    ensures Verified(sha, [failed]) && Verified(sha, [success])
    ensures Head([failed]) == Head([success])
    ensures Agree(failed, success)
  {
    var cmd := base.commandType;
    failed := base.(result := Failed.AsStr(), error := Some(Success.AsStr()));
    success := base.(commandType := cmd + Failed.AsStr(), result := Success.AsStr(), error := None);
    assert failed.commandType + failed.result + OrEmpty(failed.error)
        == success.commandType + success.result + OrEmpty(success.error);
    assert RowPreimage(failed) == RowPreimage(success);
    var h := sha(RowPreimage(failed));
    failed := failed.(entryHash := h);
    success := success.(entryHash := h);
  }

  // ---------------------------------------------------------------- append

  /** What the database does with one append: any of its two statements can fail, and an insert can
      commit without its acknowledgement reaching the agent. */
  datatype Db = Healthy | FetchFails | InsertFails | AckLost

  /** The CHECK constraint on `audit_log.result` (migrations/001_init.sql). */
  predicate CheckConstraint(result: AuditResult) {
    result == Success || result == Rejected || result == Failed
  }

  function NewRow(sha: HashFn, prev: Bytes, id: Uuid, e: Entry, now: int): Row {
    Row(id, e.agentId, e.organizationId, e.userId, e.commandType, e.result.AsStr(), e.error, prev,
        sha(Preimage(prev, id, e.agentId, e.organizationId, e.userId, e.commandType, e.result.AsStr(), e.error)),
        now)
  }

  predicate Extendable(sha: HashFn, rows: seq<Row>) {
    rows == [] || Sealed(sha, rows[|rows| - 1])
  }

  predicate Inserts(sha: HashFn, rows: seq<Row>, e: Entry, db: Db) {
    (db == Healthy || db == AckLost) && Extendable(sha, rows) && CheckConstraint(e.result)
  }

  datatype AppendCall = AppendCall(id: Uuid, entry: Entry, now: int, db: Db)

  function AppendTo(sha: HashFn, rows: seq<Row>, c: AppendCall): (seq<Row>, bool) {
    if Inserts(sha, rows, c.entry, c.db)
    then (rows + [NewRow(sha, Head(rows), c.id, c.entry, c.now)], c.db == Healthy)
    else (rows, false)
  }

  class AuditLog {
    const sha: HashFn
    var rows: seq<Row>

    constructor (sha: HashFn)
      ensures this.sha == sha && rows == []
    {
      this.sha := sha;
      rows := [];
    }

    method Append(c: AppendCall) returns (ok: bool)
      modifies this
      ensures (rows, ok) == AppendTo(sha, old(rows), c)
    {
      if c.db == FetchFails {
        return false;
      }
      var prevHash := GENESIS;
      if rows != [] {
        var last := rows[|rows| - 1];
        var expected := ComputeEntryHash(sha, last.previousHash, last.id, last.agentId, last.organizationId,
                                         last.userId, last.commandType, last.result, last.error);
        if expected != last.entryHash {
          return false;
        }
        prevHash := last.entryHash;
      }
      var resultStr := c.entry.result.AsStr();
      var hash := ComputeEntryHash(sha, prevHash, c.id, c.entry.agentId, c.entry.organizationId,
                                   c.entry.userId, c.entry.commandType, resultStr, c.entry.error);
      if c.db == InsertFails || !CheckConstraint(c.entry.result) {
        return false;
      }
      rows := rows + [Row(c.id, c.entry.agentId, c.entry.organizationId, c.entry.userId, c.entry.commandType,
                          resultStr, c.entry.error, prevHash, hash, c.now)];
      ok := c.db == Healthy;
    }
  }

  // ---------------------------------------------------------------- what an append writes

  function Zeros(): Bytes {
    [0, 0, 0, 0, 0, 0, 0, 0, 0, 0, 0, 0, 0, 0, 0, 0]
  }

  /** The columns of a row one after the other; zeros stand for an absent id. */
  function Joined(r: Row): Bytes {
    r.previousHash + r.id + r.agentId
    + (match r.organizationId case Some(org) => org case None => Zeros())
    + (match r.userId case Some(user) => user case None => Zeros())
    + r.commandType + r.result + (match r.error case Some(e) => e case None => [])
  }

  lemma PreimageIsJoined(r: Row)
    ensures RowPreimage(r) == Joined(r)
  {
    var p := [r.previousHash, r.id, r.agentId, OrNil(r.organizationId), OrNil(r.userId), r.commandType, r.result, OrEmpty(r.error)];
    Reassociate(p);
    assert [] + p[0] == p[0];
  }

  function ResultText(r: AuditResult): string {
    match r
    case Success => "success"
    case Rejected => "rejected"
    case Failed => "failed"
    case RejectedRateLimit => "rejected_rate_limit"
  }

  /** The log can take another row: it is empty, or the hash of its last row is that of its columns. */
  predicate EndsSealed(sha: HashFn, rows: seq<Row>) {
    |rows| > 0 ==> var last := rows[|rows| - 1]; last.entryHash == sha(Joined(last))
  }

  /** The row holds the columns of the entry, the link and its hash. */
  predicate HoldsEntry(sha: HashFn, row: Row, c: AppendCall, link: Bytes) {
    && row.id == c.id && row.createdAt == c.now
    && row.agentId == c.entry.agentId && row.organizationId == c.entry.organizationId && row.userId == c.entry.userId
    && row.commandType == c.entry.commandType && row.result == Ascii(ResultText(c.entry.result)) && row.error == c.entry.error
    && row.previousHash == link && row.entryHash == sha(Joined(row))
  }

  /** One append, said with the columns: it adds a row unless the last one is unsealed, the result is
      `rejected_rate_limit` or the database fails, and reports success unless the answer gets lost. */
  lemma AppendWritesTheEntry(sha: HashFn, rows: seq<Row>, c: AppendCall)
    ensures var (after, ok) := AppendTo(sha, rows, c);
            var writes := EndsSealed(sha, rows) && c.entry.result != RejectedRateLimit && c.db != FetchFails && c.db != InsertFails;
            && (ok <==> writes && c.db != AckLost)
            && (if writes
                then |after| == |rows| + 1 && rows <= after
                     && HoldsEntry(sha, after[|rows|], c, if |rows| == 0 then Ascii("genesis") else rows[|rows| - 1].entryHash)
                else after == rows)
  {
    if rows != [] {
      PreimageIsJoined(rows[|rows| - 1]);
    }
    PreimageIsJoined(NewRow(sha, Head(rows), c.id, c.entry, c.now));
  }

  function Appender(sha: HashFn): (seq<Row>, AppendCall) -> seq<Row> {
    (rows: seq<Row>, c: AppendCall) => AppendTo(sha, rows, c).0
  }

  function LogAfter(sha: HashFn, rows: seq<Row>, calls: seq<AppendCall>, n: nat): seq<Row>
    requires n <= |calls|
  {
    StateAfter(Appender(sha), rows, calls, n)
  }

  lemma AppendKeepsVerified(sha: HashFn, rows: seq<Row>, c: AppendCall)
    requires Verified(sha, rows)
    ensures Verified(sha, AppendTo(sha, rows, c).0) && rows <= AppendTo(sha, rows, c).0
  {
    var out := AppendTo(sha, rows, c).0;
    forall i | 0 <= i < |out| ensures RowVerifies(sha, out, i) {
      if i < |rows| {
        assert RowVerifies(sha, rows, i);
      }
    }
  }

  /** Every run of appends, whatever the database does, extends a verified log to a verified log. */
  lemma {:induction false} AppendsKeepTheChain(sha: HashFn, rows: seq<Row>, calls: seq<AppendCall>, n: nat)
    requires Verified(sha, rows) && n <= |calls|
    ensures Verified(sha, LogAfter(sha, rows, calls, n)) && rows <= LogAfter(sha, rows, calls, n)
  {
    if n > 0 {
      AppendsKeepTheChain(sha, rows, calls, n - 1);
      AppendKeepsVerified(sha, LogAfter(sha, rows, calls, n - 1), calls[n - 1]);
    }
  }

  // ---------------------------------------------------------------- tampering

  /** A healthy append to an edited log fails exactly when the edit hits the last row and leaves it
      with a stored hash that is not the hash of its data. */
  lemma AppendNoticesIff(sha: HashFn, rows: seq<Row>, k: nat, tampered: Row, c: AppendCall)
    requires Verified(sha, rows) && k < |rows|
    requires c.db == Healthy && CheckConstraint(c.entry.result)
    ensures !AppendTo(sha, rows[k := tampered], c).1 <==> k == |rows| - 1 && !Sealed(sha, tampered)
  {
    assert RowVerifies(sha, rows, |rows| - 1);
    if k + 1 < |rows| {
      EarlierTamperingIsNotNoticed(sha, rows, k, tampered, c);
    } else {
      assert rows[k := tampered][|rows| - 1] == tampered;
    }
  }

  /** A walk over the whole chain is content with an edit exactly when the edited row is sealed, keeps
      its link, and keeps its stored hash if another row links to it. */
  lemma FullWalkNoticesIff(sha: HashFn, rows: seq<Row>, k: nat, tampered: Row)
    requires Verified(sha, rows) && k < |rows|
    ensures Verified(sha, rows[k := tampered]) <==>
              && Sealed(sha, tampered) && tampered.previousHash == rows[k].previousHash
              && (k + 1 < |rows| ==> tampered.entryHash == rows[k].entryHash)
  {
    var edited := rows[k := tampered];
    assert RowVerifies(sha, rows, k);
    if Verified(sha, edited) {
      assert RowVerifies(sha, edited, k);
      if k + 1 < |rows| {
        assert RowVerifies(sha, edited, k + 1) && RowVerifies(sha, rows, k + 1);
      }
    } else if Sealed(sha, tampered) && tampered.previousHash == rows[k].previousHash
              && (k + 1 < |rows| ==> tampered.entryHash == rows[k].entryHash) {
      forall i | 0 <= i < |edited| ensures RowVerifies(sha, edited, i) {
        assert RowVerifies(sha, rows, i);
      }
    }
  }

  /** Where the stored hash is kept and does not collide, being sealed is being hashed over the same
      bytes, and with the link kept as well it is agreeing on every committed field. */
  lemma KeptHashCommits(sha: HashFn, row: Row, tampered: Row)
    requires Sealed(sha, row) && tampered.entryHash == row.entryHash && Distinguishes(sha, tampered, row)
    ensures Sealed(sha, tampered) <==> RowPreimage(tampered) == RowPreimage(row)
    ensures Sealed(sha, tampered) && tampered.previousHash == row.previousHash <==> Agree(tampered, row)
  {
    AgreementIsEqualPreimages(tampered, row);
  }

  /** The row with the hash that belongs to it, which anyone can compute. */
  function Resealed(sha: HashFn, r: Row): Row {
    r.(entryHash := sha(RowPreimage(r)))
  }

  /** So the last row can be replaced by any that is resealed: no append notices, and the walk over
      the whole chain does not either when the link is kept. An earlier row can not, unless the hash
      collides. */
  lemma ResealedRowIsNotNoticed(sha: HashFn, rows: seq<Row>, edited: Row, k: nat, c: AppendCall)
    requires Verified(sha, rows) && k < |rows|
    requires c.db == Healthy && CheckConstraint(c.entry.result)
    ensures AppendTo(sha, rows[k := Resealed(sha, edited)], c).1
    ensures Verified(sha, rows[k := Resealed(sha, edited)]) <==>
              && edited.previousHash == rows[k].previousHash
              && (k + 1 < |rows| ==> sha(RowPreimage(edited)) == sha(RowPreimage(rows[k])))
  {
    assert RowPreimage(Resealed(sha, edited)) == RowPreimage(edited);
    AppendNoticesIff(sha, rows, k, Resealed(sha, edited), c);
    FullWalkNoticesIff(sha, rows, k, Resealed(sha, edited));
    assert RowVerifies(sha, rows, k);
  }

  /** Nor does either notice that rows are missing at the end. */
  lemma TruncationIsNotNoticed(sha: HashFn, rows: seq<Row>, n: nat, c: AppendCall)
    requires Verified(sha, rows) && n <= |rows|
    requires c.db == Healthy && CheckConstraint(c.entry.result)
    ensures Verified(sha, rows[..n]) && AppendTo(sha, rows[..n], c).1
  {
    forall i | 0 <= i < n ensures RowVerifies(sha, rows[..n], i) {
      assert RowVerifies(sha, rows, i);
    }
    assert n > 0 ==> RowVerifies(sha, rows[..n], n - 1);
  }

  function ShiftIn(u: Uuid, b: byte): Uuid {
    u[1..] + [b]
  }

  /** The fields of the row taken apart one byte later: the link swallows the first byte of the id,
      and so on down to the command type, which loses its first. */
  function Shifted(r: Row): Row
    requires r.commandType != []
  {
    var org, user := OrNil(r.organizationId), OrNil(r.userId);
    r.(previousHash := r.previousHash + [r.id[0]],
       id := ShiftIn(r.id, r.agentId[0]),
       agentId := ShiftIn(r.agentId, org[0]),
       organizationId := Some(ShiftIn(org, user[0])),
       userId := Some(ShiftIn(user, r.commandType[0])),
       commandType := r.commandType[1..])
  }

  /** An append never notices such a shift, whatever the hash function: the bytes to hash are the same. */
  lemma ShiftIsNotNoticed(sha: HashFn, rows: seq<Row>, c: AppendCall)
    requires rows != [] && Sealed(sha, rows[|rows| - 1]) && rows[|rows| - 1].commandType != []
    requires c.db == Healthy && CheckConstraint(c.entry.result)
    ensures var last := rows[|rows| - 1];
            && Shifted(last).entryHash == last.entryHash && !Agree(Shifted(last), last)
            && AppendTo(sha, rows[|rows| - 1 := Shifted(last)], c).1
  {
    var last := rows[|rows| - 1];
    ShiftKeepsThePreimage(last);
    assert rows[|rows| - 1 := Shifted(last)][|rows| - 1] == Shifted(last);
  }

  /** Moving the end of a field by one byte, over a text that has itself lost its first byte. */
  lemma ShiftOne(field: Uuid, rest: Bytes)
    requires rest != []
    ensures ShiftIn(field, rest[0]) + rest[1..] == (field + rest)[1..] && (field + rest)[0] == field[0]
  {
  }

  lemma ShiftKeepsThePreimage(r: Row)
    requires r.commandType != []
    ensures RowPreimage(Shifted(r)) == RowPreimage(r)
  {
    var org, user := OrNil(r.organizationId), OrNil(r.userId);
    var x5 := r.commandType + r.result + OrEmpty(r.error);
    var x4 := user + x5;
    var x3 := org + x4;
    var x2 := r.agentId + x3;
    var x1 := r.id + x2;
    assert r.commandType[1..] + r.result + OrEmpty(r.error) == x5[1..];
    ShiftOne(user, x5);
    ShiftOne(org, x4);
    ShiftOne(r.agentId, x3);
    ShiftOne(r.id, x2);
    assert (r.previousHash + [r.id[0]]) + x1[1..] == r.previousHash + x1;
  }

  /** An append neither fails nor writes anything different after an edit of any row before the last. */
  lemma EarlierTamperingIsNotNoticed(sha: HashFn, rows: seq<Row>, k: nat, tampered: Row, c: AppendCall)
    requires k + 1 < |rows|
    ensures AppendTo(sha, rows[k := tampered], c).1 == AppendTo(sha, rows, c).1
    ensures AppendTo(sha, rows[k := tampered], c).0 == AppendTo(sha, rows, c).0[k := tampered]
  {
    assert rows[k := tampered][|rows| - 1] == rows[|rows| - 1];
  }

  /** Once the last row fails its check the log is frozen: no append ever succeeds or changes it. */
  lemma {:induction false} BrokenHeadFreezesTheLog(sha: HashFn, rows: seq<Row>, calls: seq<AppendCall>, n: nat)
    requires !Extendable(sha, rows) && n <= |calls|
    ensures LogAfter(sha, rows, calls, n) == rows
    ensures n < |calls| ==> !AppendTo(sha, LogAfter(sha, rows, calls, n), calls[n]).1
  {
    if n > 0 {
      BrokenHeadFreezesTheLog(sha, rows, calls, n - 1);
    }
  }
}

/**
 Allocation of subordinate id ranges (internal/podman/mod.rs): read both files, take the highest end,
 let `usermod` write the next 65536 ids. Files are texts; sums of `u64` wrap as in a release build.
 */
module Subid {
  import opened Basics
  import opened Text

  const MIN_START: nat := 100_000
  const RANGE_SIZE: nat := 65_536

  datatype Range = Range(start: nat, count: nat) {
    /** `start + count` on `u64`. */
    function WrappedEnd(): nat {
      (start + count) % U64_LIMIT
    }
  }

  /** `user:start:count`, split at the first two colons. */
  function ParseLine(line: string): Option<Range> {
    var i := IndexOf(line, ':');
    if i == |line| then None
    else
      var rest := line[i + 1..];
      var j := IndexOf(rest, ':');
      if j == |rest| then None
      else
        match (ParseU64(rest[..j]), ParseU64(rest[j + 1..]))
        case (Some(start), Some(count)) => Some(Range(start, count))
        case _ => None
  }

  function RangesIn(text: string): seq<Range> {
    FilterMap(ParseLine, Lines(text))
  }

  function MaxEnd(ranges: seq<Range>): (m: Option<nat>)
    ensures m.None? <==> ranges == []
    ensures forall i | 0 <= i < |ranges| :: ranges[i].WrappedEnd() <= m.value
    ensures m.Some? ==> exists i | 0 <= i < |ranges| :: ranges[i].WrappedEnd() == m.value
  {
    if ranges == [] then None
    else
      var rest := MaxEnd(ranges[1..]);
      assert forall i | 0 < i < |ranges| :: ranges[i] == ranges[1..][i - 1];
      if rest.Some? && rest.value > ranges[0].WrappedEnd() then rest else Some(ranges[0].WrappedEnd())
  }

  datatype Files = Files(subuid: string, subgid: string)

  datatype Env = Env(readSubuid: bool, readSubgid: bool, addSubuid: bool, addSubgid: bool)

  /** The ranges on file. */
  datatype Ledger = Ledger(uids: seq<Range>, gids: seq<Range>) {

    /** A file that cannot be read contributes nothing. */
    function Readable(env: Env): seq<Range> {
      (if env.readSubuid then uids else []) + (if env.readSubgid then gids else [])
    }

    /** The maximum over both files. */
    function NextStart(env: Env): nat {
      var max := MaxEnd(Readable(env));
      Max(if max.Some? then max.value else MIN_START, MIN_START)
    }

    function Record(env: Env): Ledger {
      var range := [Range(NextStart(env), RANGE_SIZE)];
      if !env.addSubuid then this
      else Ledger(uids + range, if env.addSubgid then gids + range else gids)
    }
  }

  function LedgerOf(f: Files): Ledger {
    Ledger(RangesIn(f.subuid), RangesIn(f.subgid))
  }

  /** `next_subid_start` */
  function NextSubidStart(f: Files, env: Env): nat {
    LedgerOf(f).NextStart(env)
  }

  /** What a successful `usermod --add-subuids` or `--add-subgids` adds to its file. */
  function Entry(user: string, start: nat): string {
    user + ":" + (Decimal(start) + ":" + Decimal(RANGE_SIZE))
  }

  function Usermod(text: string, user: string, start: nat, ok: bool): string {
    if ok then text + (Entry(user, start) + "\n") else text
  }

  /** `add_subid_range`: the second file is only touched when the first one succeeded. */
  function AddSubidRange(f: Files, user: string, env: Env): (Files, bool) {
    var start := NextSubidStart(f, env);
    var f1 := f.(subuid := Usermod(f.subuid, user, start, env.addSubuid));
    if !env.addSubuid then (f1, false)
    else (f1.(subgid := Usermod(f1.subgid, user, start, env.addSubgid)), env.addSubgid)
  }

  class SubidFiles {
    var subuid: string
    var subgid: string

    constructor (f: Files)
      ensures View() == f
    {
      subuid, subgid := f.subuid, f.subgid;
    }

    function View(): Files
      reads this
    {
      Files(subuid, subgid)
    }

    method Add(user: string, env: Env) returns (ok: bool)
      modifies this
      ensures (View(), ok) == AddSubidRange(old(View()), user, env)
    {
      var start := NextSubidStart(View(), env);
      var flags := ["--add-subuids", "--add-subgids"];
      var i := 0;
      while i < |flags|
        invariant 0 <= i <= 2
        invariant i == 0 ==> View() == old(View())
        invariant i > 0 ==> env.addSubuid
        invariant i == 1 ==> View() == old(View()).(subuid := Usermod(old(subuid), user, start, true))
        invariant i == 2 ==> env.addSubgid && View() == Files(Usermod(old(subuid), user, start, true), Usermod(old(subgid), user, start, true))
      {
        var succeeds := if flags[i] == "--add-subuids" then env.addSubuid else env.addSubgid;
        if !succeeds {
          return false;
        }
        if flags[i] == "--add-subuids" {
          subuid := Usermod(subuid, user, start, true);
        } else {
          subgid := Usermod(subgid, user, start, true);
        }
        i := i + 1;
      }
      ok := true;
    }
  }

  // ---------------------------------------------------------------- writing and reading an entry

  predicate PlainUser(user: string) {
    ':' !in user && '\n' !in user
  }

  lemma DigitsAvoid(n: nat, c: char)
    requires !IsDigit(c)
    ensures c !in Decimal(n)
  {
    var s := Decimal(n);
    forall i | 0 <= i < |s| ensures s[i] != c {
      assert IsDigit(s[i]);
    }
  }

  lemma EntryParses(user: string, start: nat)
    requires PlainUser(user) && start < U64_LIMIT
    ensures ParseLine(Entry(user, start)) == Some(Range(start, RANGE_SIZE))
  {
    var line, rest := Entry(user, start), Decimal(start) + ":" + Decimal(RANGE_SIZE);
    IndexOfFirst(user, ':', rest);
    assert line == user + [':'] + rest && line[|user| + 1..] == rest;
    DigitsAvoid(start, ':');
    IndexOfFirst(Decimal(start), ':', Decimal(RANGE_SIZE));
    var j := |Decimal(start)|;
    assert rest == Decimal(start) + [':'] + Decimal(RANGE_SIZE);
    assert rest[..j] == Decimal(start) && rest[j + 1..] == Decimal(RANGE_SIZE);
    ParseDecimal(start);
    ParseDecimal(RANGE_SIZE);
  }

  predicate IsField(s: string) {
    ':' !in s
  }

  /** A line that is cut at its first two colons. */
  predicate CutsInto(line: string, user: string, start: string, count: string) {
    line == user + ":" + start + ":" + count && IsField(user) && IsField(start)
  }

  /** Whoever has written it, a line with two colons is read as the numbers in its second field and
      behind the second colon, and as no range if one of them is no `u64`. */
  lemma LineParses(line: string, user: string, start: string, count: string)
    requires CutsInto(line, user, start, count)
    ensures ParseLine(line) == match (ParseU64(start), ParseU64(count))
                               case (Some(first), Some(n)) => Some(Range(first, n))
                               case _ => None
  {
    var rest := start + ":" + count;
    assert line == user + [':'] + rest;
    IndexOfFirst(user, ':', rest);
    assert line[|user| + 1..] == rest;
    assert rest == start + [':'] + count;
    IndexOfFirst(start, ':', count);
    assert rest[..|start|] == start && rest[|start| + 1..] == count;
  }

  lemma EveryCountIsRead(user: string, start: nat, count: nat)
    requires IsField(user) && start < U64_LIMIT && count < U64_LIMIT
    ensures ParseLine(user + ":" + Decimal(start) + ":" + Decimal(count)) == Some(Range(start, count))
  {
    DigitsAvoid(start, ':');
    LineParses(user + ":" + Decimal(start) + ":" + Decimal(count), user, Decimal(start), Decimal(count));
    ParseDecimal(start);
    ParseDecimal(count);
  }

  lemma CutAround(s: string, i: nat)
    requires i < |s|
    ensures s == s[..i] + [s[i]] + s[i + 1..]
  {
  }

  lemma FirstCut(s: string)
    requires IndexOf(s, ':') < |s|
    ensures var i := IndexOf(s, ':'); s == s[..i] + ":" + s[i + 1..] && IsField(s[..i])
  {
    var i := IndexOf(s, ':');
    CutAround(s, i);
    assert [s[i]] == ":";
  }

  lemma TwoCuts(line: string, user: string, start: string, count: string, rest: string)
    requires line == user + ":" + rest && rest == start + ":" + count && IsField(user) && IsField(start)
    ensures CutsInto(line, user, start, count)
  {
    assert user + ":" + (start + ":" + count) == user + ":" + start + ":" + count;
  }

  predicate HasTwoColons(line: string) {
    var i := IndexOf(line, ':');
    i < |line| && IndexOf(line[i + 1..], ':') < |line[i + 1..]|
  }

  lemma CutAtTwoColons(line: string) returns (user: string, start: string, count: string)
    requires HasTwoColons(line)
    ensures CutsInto(line, user, start, count)
  {
    FirstCut(line);
    var rest := line[IndexOf(line, ':') + 1..];
    user := line[..IndexOf(line, ':')];
    FirstCut(rest);
    start, count := rest[..IndexOf(rest, ':')], rest[IndexOf(rest, ':') + 1..];
    TwoCuts(line, user, start, count, rest);
  }

  /** A line with fewer colons holds no range. */
  lemma FewColonsParseToNothing(line: string)
    ensures ParseLine(line).Some? ==> exists user, start, count :: CutsInto(line, user, start, count)
  {
    if HasTwoColons(line) {
      var user, start, count := CutAtTwoColons(line);
    }
  }

  /** A line of the file gives its ids to somebody: `count` of them from `start` on. */
  ghost predicate Holds64(line: string, start: nat, count: nat) {
    exists user, first, n :: CutsInto(line, user, first, n) && ParseU64(first) == Some(start) && ParseU64(n) == Some(count)
  }

  lemma LineHoldsIff(line: string, start: nat, count: nat)
    ensures ParseLine(line) == Some(Range(start, count)) <==> Holds64(line, start, count)
  {
    if ParseLine(line) == Some(Range(start, count)) {
      FewColonsParseToNothing(line);
      var user, first, n :| CutsInto(line, user, first, n);
      LineParses(line, user, first, n);
    }
    if user, first, n :| CutsInto(line, user, first, n) && ParseU64(first) == Some(start) && ParseU64(n) == Some(count) {
      LineParses(line, user, first, n);
    }
  }

  ghost predicate SomeLineHolds(lines: seq<string>, start: nat, count: nat) {
    exists i | 0 <= i < |lines| :: Holds64(lines[i], start, count)
  }

  lemma SomeLineHoldsCons(lines: seq<string>, start: nat, count: nat)
    requires lines != []
    ensures SomeLineHolds(lines, start, count) <==> Holds64(lines[0], start, count) || SomeLineHolds(lines[1..], start, count)
  {
    assert forall i | 0 < i < |lines| :: lines[i] == lines[1..][i - 1];
    if SomeLineHolds(lines[1..], start, count) {
      var i :| 0 <= i < |lines[1..]| && Holds64(lines[1..][i], start, count);
      assert Holds64(lines[i + 1], start, count);
    }
  }

  lemma {:induction false} FilteredIff(lines: seq<string>, r: Range)
    ensures r in FilterMap(ParseLine, lines) <==> SomeLineHolds(lines, r.start, r.count)
  {
    if lines != [] {
      FilteredIff(lines[1..], r);
      LineHoldsIff(lines[0], r.start, r.count);
      SomeLineHoldsCons(lines, r.start, r.count);
    }
  }

  /** The ranges of a file are exactly those that its lines hold. */
  lemma RangesInIff(text: string, r: Range)
    ensures r in RangesIn(text) <==> SomeLineHolds(Lines(text), r.start, r.count)
  {
    FilteredIff(Lines(text), r);
  }

  lemma EntryIsOneLine(user: string, start: nat)
    requires PlainUser(user)
    ensures Lines(Entry(user, start) + "\n") == [Entry(user, start)]
  {
    var line, digits := Entry(user, start), Decimal(RANGE_SIZE);
    DigitsAvoid(start, '\n');
    DigitsAvoid(RANGE_SIZE, '\n');
    assert line[|line| - 1] == digits[|digits| - 1] && IsDigit(digits[|digits| - 1]);
    LinesCons(line, "");
    assert line + "\n" + "" == line + "\n";
  }

  /** What `usermod` writes is read back as exactly one more range. */
  lemma UsermodAddsOneRange(text: string, user: string, start: nat, ok: bool)
    requires Terminated(text) && PlainUser(user) && start < U64_LIMIT
    ensures Terminated(Usermod(text, user, start, ok))
    ensures RangesIn(Usermod(text, user, start, ok)) == RangesIn(text) + if ok then [Range(start, RANGE_SIZE)] else []
  {
    if ok {
      var entry := Entry(user, start) + "\n";
      LinesAppend(text, entry);
      EntryIsOneLine(user, start);
      FilterMapAppend(ParseLine, Lines(text), [Entry(user, start)]);
      FilterMapOne(ParseLine, Entry(user, start));
      EntryParses(user, start);
    }
  }

  /** On texts an allocation does what it does on the ranges they hold. */
  lemma AddRefinesRecord(f: Files, user: string, env: Env)
    requires Terminated(f.subuid) && Terminated(f.subgid) && PlainUser(user) && NextSubidStart(f, env) < U64_LIMIT
    ensures var (t, ok) := AddSubidRange(f, user, env);
            Terminated(t.subuid) && Terminated(t.subgid) && LedgerOf(t) == LedgerOf(f).Record(env)
  {
    var start := NextSubidStart(f, env);
    UsermodAddsOneRange(f.subuid, user, start, env.addSubuid);
    UsermodAddsOneRange(f.subgid, user, start, env.addSubuid && env.addSubgid);
  }

  // ---------------------------------------------------------------- runs

  predicate Disjoint(a: Range, b: Range) {
    a.start + a.count <= b.start || b.start + b.count <= a.start
  }

  /** No end of a range wraps. */
  predicate NoWrap(ranges: seq<Range>) {
    forall i | 0 <= i < |ranges| :: ranges[i].start + ranges[i].count < U64_LIMIT
  }

  predicate EndsBelow(ranges: seq<Range>, start: nat) {
    forall i | 0 <= i < |ranges| :: ranges[i].start + ranges[i].count <= start
  }

  /** The new range lies above the minimum and above everything in the files that could be read. */
  lemma StartClearsReadableFiles(l: Ledger, env: Env)
    requires NoWrap(l.uids) && NoWrap(l.gids)
    ensures l.NextStart(env) >= MIN_START
    ensures env.readSubuid ==> EndsBelow(l.uids, l.NextStart(env))
    ensures env.readSubgid ==> EndsBelow(l.gids, l.NextStart(env))
  {
    var u, g := if env.readSubuid then l.uids else [], if env.readSubgid then l.gids else [];
    forall i | 0 <= i < |u| ensures u[i].start + u[i].count <= l.NextStart(env) {
      assert (u + g)[i] == u[i] && u[i].WrappedEnd() == u[i].start + u[i].count;
    }
    forall i | 0 <= i < |g| ensures g[i].start + g[i].count <= l.NextStart(env) {
      assert (u + g)[|u| + i] == g[i] && g[i].WrappedEnd() == g[i].start + g[i].count;
    }
  }

  datatype Call = Call(user: string, env: Env)

  function FilesStep(f: Files, c: Call): Files {
    AddSubidRange(f, c.user, c.env).0
  }

  function LedgerStep(l: Ledger, c: Call): Ledger {
    l.Record(c.env)
  }

  function LedgerAt(l: Ledger, calls: seq<Call>, n: nat): Ledger
    requires n <= |calls|
  {
    StateAfter(LedgerStep, l, calls, n)
  }

  /** The range that call `k` of a run asks `usermod` for. */
  function Allocation(l: Ledger, calls: seq<Call>, k: nat): Range
    requires k < |calls|
  {
    Range(LedgerAt(l, calls, k).NextStart(calls[k].env), RANGE_SIZE)
  }

  /** Every call reads both files and stays clear of the end of the id space. */
  predicate Serviceable(l: Ledger, calls: seq<Call>) {
    forall k {:trigger ServiceableAt(l, calls, k)} | 0 <= k < |calls| :: ServiceableAt(l, calls, k)
  }

  predicate ServiceableAt(l: Ledger, calls: seq<Call>, k: nat)
    requires k < |calls|
  {
    && calls[k].env.readSubuid && calls[k].env.readSubgid
    && PlainUser(calls[k].user)
    && Allocation(l, calls, k).start + RANGE_SIZE < U64_LIMIT
  }

  predicate NoneWraps(l: Ledger) {
    NoWrap(l.uids) && NoWrap(l.gids)
  }

  /** An allocated range stays on record, in the user id file, which is written first. */
  lemma {:induction false} AllocationsStayOnRecord(l: Ledger, calls: seq<Call>, n: nat)
    requires NoneWraps(l) && Serviceable(l, calls) && n <= |calls|
    ensures NoneWraps(LedgerAt(l, calls, n))
    ensures l.uids <= LedgerAt(l, calls, n).uids && l.gids <= LedgerAt(l, calls, n).gids
    ensures forall k | 0 <= k < n && calls[k].env.addSubuid :: Allocation(l, calls, k) in LedgerAt(l, calls, n).uids
  {
    if n > 0 {
      AllocationsStayOnRecord(l, calls, n - 1);
      var before, after := LedgerAt(l, calls, n - 1), LedgerAt(l, calls, n);
      var range := Allocation(l, calls, n - 1);
      assert ServiceableAt(l, calls, n - 1);
      assert after.uids == (if calls[n - 1].env.addSubuid then before.uids + [range] else before.uids);
      assert calls[n - 1].env.addSubuid ==> after.uids[|before.uids|] == range;
    }
  }

  /** Above everything on file, hence disjoint from all of it. */
  lemma NewRangeIsDisjoint(l: Ledger, calls: seq<Call>, k: nat, r: Range)
    requires NoneWraps(l) && Serviceable(l, calls) && k < |calls|
    requires r in LedgerAt(l, calls, k).uids || r in LedgerAt(l, calls, k).gids
    ensures Disjoint(r, Allocation(l, calls, k))
  {
    AllocationsStayOnRecord(l, calls, k);
    StartClearsReadableFiles(LedgerAt(l, calls, k), calls[k].env);
    assert ServiceableAt(l, calls, k);
  }

  /**
   Over any run of serial allocations, including ones where a `usermod` fails after the other has
   succeeded: every new range starts at or above 100000 and is disjoint from every range on file,
   then or at the start, and from every range that an earlier call has put on file.
   */
  lemma AllocationsAreDisjoint(l: Ledger, calls: seq<Call>, k: nat)
    requires NoneWraps(l) && Serviceable(l, calls) && k < |calls|
    ensures Allocation(l, calls, k).start >= MIN_START
    ensures forall r | r in LedgerAt(l, calls, k).uids || r in LedgerAt(l, calls, k).gids :: Disjoint(r, Allocation(l, calls, k))
    ensures forall r | r in l.uids || r in l.gids :: Disjoint(r, Allocation(l, calls, k))
    ensures forall j | 0 <= j < k && calls[j].env.addSubuid :: Disjoint(Allocation(l, calls, j), Allocation(l, calls, k))
  {
    AllocationsStayOnRecord(l, calls, k);
    forall r | r in LedgerAt(l, calls, k).uids || r in LedgerAt(l, calls, k).gids
      ensures Disjoint(r, Allocation(l, calls, k))
    {
      NewRangeIsDisjoint(l, calls, k, r);
    }
  }

  /** The texts end their last line and hold exactly the ranges of the ledger. */
  predicate Holds(f: Files, l: Ledger) {
    Terminated(f.subuid) && Terminated(f.subgid) && LedgerOf(f) == l
  }

  /** The same holds of the texts: a run on the files is a run on the ranges parsed from them. */
  lemma {:induction false} FilesFollowTheLedger(f: Files, calls: seq<Call>, l: Ledger, n: nat)
    requires Holds(f, l) && n <= |calls| && Serviceable(l, calls)
    ensures Holds(StateAfter(FilesStep, f, calls, n), LedgerAt(l, calls, n))
  {
    forall k, x | 0 <= k < n && Holds(x, StateAfter(LedgerStep, l, calls, k))
      ensures Holds(FilesStep(x, calls[k]), StateAfter(LedgerStep, l, calls, k + 1))
    {
      assert ServiceableAt(l, calls, k);
      AddRefinesRecord(x, calls[k].user, calls[k].env);
    }
    Simulation(FilesStep, LedgerStep, Holds, f, l, calls, n);
  }

  // ---------------------------------------------------------------- in the text of the files

  /** No line of either file holds ids whose end is at or past 2^64. */
  predicate NoEndWraps(f: Files) {
    NoneWraps(LedgerOf(f))
  }

  /** The next allocation of 65536 ids keeps clear of every line of both files, whoever has written it
      and whatever its count. */
  lemma StartClearsEveryLine(f: Files, env: Env, line: string, start: nat, count: nat)
    requires NoEndWraps(f) && env.readSubuid && env.readSubgid
    requires line in Lines(f.subuid) || line in Lines(f.subgid)
    requires Holds64(line, start, count)
    ensures start + count <= NextSubidStart(f, env) && 100_000 <= NextSubidStart(f, env)
  {
    var l, r := LedgerOf(f), Range(start, count);
    StartClearsReadableFiles(l, env);
    RangesInIff(f.subuid, r);
    RangesInIff(f.subgid, r);
    assert r in l.uids || r in l.gids;
  }

  lemma MaxEndIsAnEnd(ranges: seq<Range>) returns (r: Range)
    requires ranges != []
    ensures r in ranges && r.WrappedEnd() == MaxEnd(ranges).value
  {
    var i :| 0 <= i < |ranges| && ranges[i].WrappedEnd() == MaxEnd(ranges).value;
    r := ranges[i];
  }

  lemma NextStartIsAnEnd(l: Ledger, env: Env) returns (r: Range)
    requires l.NextStart(env) != 100_000
    ensures r in l.Readable(env) && r.WrappedEnd() == l.NextStart(env)
  {
    r := MaxEndIsAnEnd(l.Readable(env));
  }

  lemma ReadableIff(l: Ledger, env: Env, r: Range)
    ensures r in l.Readable(env) <==> (env.readSubuid && r in l.uids) || (env.readSubgid && r in l.gids)
  {
  }

  /** It wastes nothing: the start is 100000 or the end of some range on file. */
  lemma StartIsTheLeast(l: Ledger, env: Env) returns (r: Range)
    requires NoneWraps(l) && l.NextStart(env) != 100_000
    ensures (env.readSubuid && r in l.uids) || (env.readSubgid && r in l.gids)
    ensures r.start + r.count == l.NextStart(env)
  {
    r := NextStartIsAnEnd(l, env);
    ReadableIff(l, env, r);
  }

  /** An allocation writes one line of 65536 ids into the first file and, if that worked, the same line
      into the second; it succeeds when both worked. */
  lemma AllocationWritesBothFiles(f: Files, user: string, env: Env)
    ensures var (t, ok) := AddSubidRange(f, user, env);
            var line := user + ":" + Decimal(NextSubidStart(f, env)) + ":" + Decimal(65536) + "\n";
            && (ok <==> env.addSubuid && env.addSubgid)
            && t.subuid == (if env.addSubuid then f.subuid + line else f.subuid)
            && t.subgid == (if ok then f.subgid + line else f.subgid)
  {
    EntryText(user, Decimal(NextSubidStart(f, env)), Decimal(65536));
  }

  lemma EntryText(user: string, start: string, count: string)
    ensures user + ":" + (start + ":" + count) + "\n" == user + ":" + start + ":" + count + "\n"
  {
  }

  // ---------------------------------------------------------------- unreadable files

  ghost predicate ClearsBothFiles(env: Env) {
    forall l: Ledger {:trigger l.NextStart(env)} | NoneWraps(l) ::
      EndsBelow(l.uids, l.NextStart(env)) && EndsBelow(l.gids, l.NextStart(env))
  }

  /** A file that cannot be read is treated as empty: a new range is clear of everything on record,
      whatever that is, exactly when both files can be read. */
  lemma StartClearsBothFilesIff(env: Env)
    ensures ClearsBothFiles(env) <==> env.readSubuid && env.readSubgid
  {
    if env.readSubuid && env.readSubgid {
      forall l: Ledger | NoneWraps(l) ensures EndsBelow(l.uids, l.NextStart(env)) && EndsBelow(l.gids, l.NextStart(env)) {
        StartClearsReadableFiles(l, env);
      }
    } else {
      var taken := [Range(MIN_START, RANGE_SIZE)];
      var l := if env.readSubuid then Ledger([], taken) else Ledger(taken, []);
      assert NoneWraps(l) && l.NextStart(env) == MIN_START;
      assert taken[0].start + taken[0].count > MIN_START;
    }
  }

  /** The same in the text of the file. */
  lemma UnreadableFileIsIgnored(user: string, env: Env) returns (f: Files)
    requires PlainUser(user) && !env.readSubuid && env.readSubgid
    ensures RangesIn(f.subuid) == [Range(MIN_START, RANGE_SIZE)]
    ensures NextSubidStart(f, env) == MIN_START
  {
    f := Files(Usermod("", user, MIN_START, true), "");
    UsermodAddsOneRange("", user, MIN_START, true);
  }
}

/**
 Rules for a sequence of lines in which some lines open a block: what a line may be on its own and
 what it may be under the line that opened a block last. Nothing here depends on what the lines are.
 */
module LineRules {

  datatype Rules<!L> = Rules(opens: L -> bool, alone: L -> bool, under: (L, L) -> bool)

  predicate OpensAt<L>(r: Rules<L>, lines: seq<L>, i: nat) {
    i < |lines| && r.opens(lines[i])
  }

  /** Line `j` is the last one before line `i` that opens a block. */
  ghost predicate LastOpener<L>(r: Rules<L>, lines: seq<L>, j: nat, i: nat) {
    j < i && OpensAt(r, lines, j) && forall k: nat {:trigger OpensAt(r, lines, k)} | j < k < i :: !OpensAt(r, lines, k)
  }

  ghost predicate LineOk<L>(r: Rules<L>, lines: seq<L>, i: nat) {
    i < |lines| ==>
      && r.alone(lines[i])
      && forall j: nat {:trigger LastOpener(r, lines, j, i)} | LastOpener(r, lines, j, i) :: r.under(lines[i], lines[j])
  }

  ghost predicate AllLinesOk<L>(r: Rules<L>, lines: seq<L>) {
    forall i: nat {:trigger LineOk(r, lines, i)} :: LineOk(r, lines, i)
  }

  /** A line that no opener constrains. */
  ghost predicate Free<L(!new)>(r: Rules<L>, line: L) {
    forall o: L {:trigger r.under(line, o)} :: r.under(line, o)
  }

  lemma OneLastOpener<L>(r: Rules<L>, lines: seq<L>, i: nat, j: nat, k: nat)
    requires LastOpener(r, lines, j, i) && LastOpener(r, lines, k, i)
    ensures j == k
  {
  }

  lemma StillLast<L>(r: Rules<L>, lines: seq<L>, j: nat, i: nat)
    requires LastOpener(r, lines, j, i) && !OpensAt(r, lines, i)
    ensures LastOpener(r, lines, j, i + 1)
  {
  }

  lemma {:induction false} SomeLastOpener<L>(r: Rules<L>, lines: seq<L>, i: nat) returns (j: nat)
    requires exists k: nat :: k < i && OpensAt(r, lines, k)
    ensures LastOpener(r, lines, j, i)
  {
    if OpensAt(r, lines, i - 1) {
      j := i - 1;
    } else {
      j := SomeLastOpener(r, lines, i - 1);
    }
  }

  // ---------------------------------------------------------------- concatenation

  /** The first line of `lines` that is not free is line `first`, and it opens a block. */
  ghost predicate BlockFirst<L(!new)>(r: Rules<L>, lines: seq<L>, first: nat) {
    OpensAt(r, lines, first) && forall i | 0 <= i <= first :: Free(r, lines[i])
  }

  lemma OpensInConcat<L>(r: Rules<L>, a: seq<L>, b: seq<L>, i: nat)
    ensures OpensAt(r, a + b, i) <==> if i < |a| then OpensAt(r, a, i) else OpensAt(r, b, i - |a|)
  {
  }

  lemma LastOpenerLeft<L>(r: Rules<L>, a: seq<L>, b: seq<L>, j: nat, i: nat)
    requires i <= |a|
    ensures LastOpener(r, a + b, j, i) <==> LastOpener(r, a, j, i)
  {
    forall k: nat ensures k < i ==> (OpensAt(r, a + b, k) <==> OpensAt(r, a, k)) {
      OpensInConcat(r, a, b, k);
    }
  }

  lemma LastOpenerRight<L>(r: Rules<L>, a: seq<L>, b: seq<L>, first: nat, j: nat, i: nat)
    requires OpensAt(r, b, first) && first < i
    ensures LastOpener(r, a + b, j, |a| + i) <==> j >= |a| && LastOpener(r, b, j - |a|, i)
  {
    OpensInConcat(r, a, b, j);
    OpensInConcat(r, a, b, |a| + first);
    forall k: nat ensures OpensAt(r, a + b, |a| + k) <==> OpensAt(r, b, k) {
      OpensInConcat(r, a, b, |a| + k);
    }
    if LastOpener(r, a + b, j, |a| + i) {
      assert OpensAt(r, a + b, |a| + first);
    } else if j >= |a| && LastOpener(r, b, j - |a|, i) {
      forall k: nat | j < k < |a| + i ensures !OpensAt(r, a + b, k) {
        assert OpensAt(r, a + b, |a| + (k - |a|)) <==> OpensAt(r, b, k - |a|);
      }
    }
  }

  lemma LineOkLeft<L>(r: Rules<L>, a: seq<L>, b: seq<L>, i: nat)
    requires i < |a|
    ensures LineOk(r, a + b, i) <==> LineOk(r, a, i)
  {
    forall j: nat ensures LastOpener(r, a + b, j, i) <==> LastOpener(r, a, j, i) {
      LastOpenerLeft(r, a, b, j, i);
    }
  }

  lemma LineOkRight<L(!new)>(r: Rules<L>, a: seq<L>, b: seq<L>, first: nat, i: nat)
    requires BlockFirst(r, b, first) && i < |b|
    ensures LineOk(r, a + b, |a| + i) <==> LineOk(r, b, i)
  {
    if i > first {
      forall j: nat ensures LastOpener(r, a + b, |a| + j, |a| + i) <==> LastOpener(r, b, j, i) {
        LastOpenerRight(r, a, b, first, |a| + j, i);
      }
      forall j: nat {:trigger LastOpener(r, a + b, j, |a| + i)} | LastOpener(r, a + b, j, |a| + i)
        ensures j >= |a| && LastOpener(r, b, j - |a|, i) {
        LastOpenerRight(r, a, b, first, j, i);
      }
      assert forall j: nat | j < |b| :: (a + b)[|a| + j] == b[j];
    } else {
      assert Free(r, b[i]);
    }
  }

  /** The rules compose when the second part starts with a block of its own. */
  lemma LinesCompose<L(!new)>(r: Rules<L>, a: seq<L>, b: seq<L>, first: nat)
    requires BlockFirst(r, b, first)
    ensures AllLinesOk(r, a + b) <==> AllLinesOk(r, a) && AllLinesOk(r, b)
  {
    forall i: nat | i < |a| ensures LineOk(r, a + b, i) <==> LineOk(r, a, i) {
      LineOkLeft(r, a, b, i);
    }
    forall i: nat | i < |b| ensures LineOk(r, a + b, |a| + i) <==> LineOk(r, b, i) {
      LineOkRight(r, a, b, first, i);
    }
    if AllLinesOk(r, a) && AllLinesOk(r, b) {
      forall i: nat ensures LineOk(r, a + b, i) {
        if |a| <= i < |a + b| {
          assert LineOk(r, a + b, |a| + (i - |a|)) <==> LineOk(r, b, i - |a|);
        }
      }
    }
  }

  lemma OneLineOk<L(!new)>(r: Rules<L>, line: L)
    requires r.alone(line) && Free(r, line)
    ensures AllLinesOk(r, [line])
  {
    assert [line][0] == line;
  }

  /** An opener, a line under it and a line that nothing constrains. */
  lemma ThreeLinesOk<L(!new)>(r: Rules<L>, opener: L, line: L, last: L)
    requires r.opens(opener) && r.alone(opener) && Free(r, opener)
    requires !r.opens(line) && r.alone(line) && r.under(line, opener)
    requires !r.opens(last) && r.alone(last) && Free(r, last)
    ensures AllLinesOk(r, [opener, line, last])
  {
    var lines := [opener, line, last];
    assert lines[0] == opener && lines[1] == line && lines[2] == last;
  }

  // ---------------------------------------------------------------- totals

  function Total<L>(weight: L -> nat, lines: seq<L>, n: nat): nat
    requires n <= |lines|
  {
    if n == 0 then 0 else Total(weight, lines, n - 1) + weight(lines[n - 1])
  }

  lemma {:induction false} TotalInPrefix<L>(weight: L -> nat, a: seq<L>, b: seq<L>, n: nat)
    requires n <= |a|
    ensures Total(weight, a + b, n) == Total(weight, a, n)
  {
    if n > 0 {
      TotalInPrefix(weight, a, b, n - 1);
    }
  }

  lemma {:induction false} TotalInConcat<L>(weight: L -> nat, a: seq<L>, b: seq<L>, n: nat)
    requires n <= |b|
    ensures Total(weight, a + b, |a| + n) == Total(weight, a, |a|) + Total(weight, b, n)
  {
    if n == 0 {
      TotalInPrefix(weight, a, b, |a|);
    } else {
      TotalInConcat(weight, a, b, n - 1);
    }
  }

  lemma TotalOfOne<L>(weight: L -> nat, a: L)
    ensures Total(weight, [a], 1) == weight(a)
  {
    assert Total(weight, [a], 1) == Total(weight, [a], 0) + weight([a][0]);
  }

  lemma TotalOfThree<L>(weight: L -> nat, a: L, b: L, c: L)
    ensures Total(weight, [a, b, c], 3) == weight(a) + weight(b) + weight(c)
  {
    var lines := [a, b, c];
    assert Total(weight, lines, 1) == weight(a);
    assert Total(weight, lines, 2) == Total(weight, lines, 1) + weight(lines[1]);
    assert Total(weight, lines, 3) == Total(weight, lines, 2) + weight(lines[2]);
  }

  lemma TotalOfConcat<L>(weight: L -> nat, a: seq<L>, b: seq<L>)
    ensures Total(weight, a + b, |a + b|) == Total(weight, a, |a|) + Total(weight, b, |b|)
  {
    TotalInConcat(weight, a, b, |b|);
  }

  lemma TotalAround<L>(weight: L -> nat, a: seq<L>, c: L, b: seq<L>)
    ensures Total(weight, a + [c] + b, |a + [c] + b|) == Total(weight, a + b, |a + b|) + weight(c)
  {
    TotalOfConcat(weight, a, [c]);
    TotalOfConcat(weight, a + [c], b);
    TotalOfConcat(weight, a, b);
  }

  // ---------------------------------------------------------------- lines without effect

  /** The position in `a + [c] + b` of line `i` of `a + b`. */
  function Past(n: nat, i: nat): nat {
    if i < n then i else i + 1
  }

  lemma LastOpenerAround<L>(r: Rules<L>, a: seq<L>, c: L, b: seq<L>, j: nat, i: nat)
    requires !r.opens(c) && i <= |a + b|
    ensures LastOpener(r, a + [c] + b, Past(|a|, j), Past(|a|, i)) <==> LastOpener(r, a + b, j, i)
  {
    var less, more, n := a + b, a + [c] + b, |a|;
    assert !OpensAt(r, more, n);
    forall k: nat ensures OpensAt(r, more, Past(n, k)) <==> OpensAt(r, less, k) {
    }
    if LastOpener(r, less, j, i) {
      forall k: nat | Past(n, j) < k < Past(n, i) ensures !OpensAt(r, more, k) {
        if k != n {
          var k' := if k < n then k else k - 1;
          assert k == Past(n, k') && !OpensAt(r, less, k');
        }
      }
    }
  }

  lemma LineOkAround<L>(r: Rules<L>, a: seq<L>, c: L, b: seq<L>, i: nat)
    requires !r.opens(c) && i < |a + b|
    ensures LineOk(r, a + [c] + b, Past(|a|, i)) <==> LineOk(r, a + b, i)
  {
    var less, more, n := a + b, a + [c] + b, |a|;
    forall j: nat ensures LastOpener(r, more, Past(n, j), Past(n, i)) <==> LastOpener(r, less, j, i) {
      LastOpenerAround(r, a, c, b, j, i);
    }
    forall j: nat | LastOpener(r, more, j, Past(n, i)) ensures j == Past(n, if j < n then j else j - 1) {
      assert more[n] == c;
    }
    assert forall j: nat | j < |less| :: more[Past(n, j)] == less[j];
  }

  /** A line that opens no block, is fine alone and free can be put in or taken out anywhere. */
  lemma InertLine<L(!new)>(r: Rules<L>, a: seq<L>, c: L, b: seq<L>)
    requires !r.opens(c) && r.alone(c) && Free(r, c)
    ensures AllLinesOk(r, a + [c] + b) <==> AllLinesOk(r, a + b)
  {
    var less, more, n := a + b, a + [c] + b, |a|;
    forall i: nat | i < |less| ensures LineOk(r, more, Past(n, i)) <==> LineOk(r, less, i) {
      LineOkAround(r, a, c, b, i);
    }
    if AllLinesOk(r, less) {
      forall i: nat ensures LineOk(r, more, i) {
        if i == n {
          assert more[n] == c;
        } else if i < |more| {
          assert i == Past(n, if i < n then i else i - 1);
        }
      }
    }
  }
}

/**
 The allow-list for nginx configurations (internal/handlers/validate.rs): a scanner that reads the
 text line by line, remembers the block opened last and counts braces, against a specification that
 speaks of lines only.
 */
module Nginx {
  import opened Basics
  import opened LineRules
  import opened Text

  const BLOCKS := ["events", "http", "server", "location", "upstream", "map"]

  const EVENTS_LEAVES := ["worker_connections"]

  const HTTP_LEAVES := [
    "include", "default_type", "sendfile", "tcp_nodelay", "keepalive_timeout", "gzip", "gzip_types", "server_tokens",
    "client_max_body_size", "log_format", "access_log", "error_log"
  ]

  const SERVER_LEAVES := [
    "listen", "server_name", "ssl_certificate", "ssl_certificate_key", "ssl_protocols", "ssl_ciphers",
    "ssl_prefer_server_ciphers", "ssl_session_cache", "ssl_session_timeout", "return", "root"
  ]

  const LOCATION_LEAVES := [
    "proxy_pass", "proxy_set_header", "proxy_ssl_server_name", "proxy_http_version", "proxy_read_timeout",
    "proxy_connect_timeout", "proxy_send_timeout", "proxy_buffering", "try_files", "rewrite", "expires", "add_header"
  ]

  const UPSTREAM_LEAVES := ["server", "keepalive", "ip_hash", "least_conn"]

  const LEAVES := EVENTS_LEAVES + HTTP_LEAVES + SERVER_LEAVES + LOCATION_LEAVES + UPSTREAM_LEAVES

  const DENIED := [
    "dgram_access", "perl_modules", "perl_require", "load_module", "secure_link_secret", "ssl_engine", "aio",
    "thread_pool", "js_import", "js_content", "client_body_temp_path", "fastcgi_param", "uwsgi_param", "scgi_param"
  ]

  const DENIED_UPSTREAMS := ["unix:/var/run/docker.sock", "unix:/var/run/podman/"]

  // ---------------------------------------------------------------- one line

  /** The line without its comment and surrounding space. */
  function Clean(raw: string): string {
    Trim(raw[..IndexOf(raw, '#')])
  }

  function OpenerText(line: string): string {
    Trim(TrimEndMatches(line, '{'))
  }

  predicate OpensBlock(line: string) {
    OpenerText(line) != "" && Count(line, '{') > 0
  }

  function BlockName(line: string): string {
    FirstWord(OpenerText(line))
  }

  function LeafName(line: string): string {
    FirstWord(Trim(TrimEndMatches(TrimEndMatches(line, ';'), '{')))
  }

  predicate IsLeaf(line: string) {
    LeafName(line) != "" && Count(line, '{') == 0 && Count(line, '}') == 0
  }

  function ProxyTarget(line: string): string {
    Trim(TrimStartMatches(TrimEndMatches(line, ';'), "proxy_pass"))
  }

  function AllowedIn(block: string): seq<string> {
    if block == "events" then EVENTS_LEAVES else LEAVES
  }

  predicate BlockAllowed(line: string) {
    BlockName(line) in BLOCKS && BlockName(line) !in DENIED
  }

  predicate NotADeniedUpstream(target: string) {
    forall p | p in DENIED_UPSTREAMS :: !Contains(target, p)
  }

  predicate LeafAllowed(line: string, block: string) {
    && (LeafName(line) in AllowedIn(block) || LeafName(line) in BLOCKS)
    && LeafName(line) !in DENIED
    && (LeafName(line) == "proxy_pass" ==> NotADeniedUpstream(ProxyTarget(line)))
  }

  // ---------------------------------------------------------------- the specification

  predicate Opens(raw: string) {
    OpensBlock(Clean(raw))
  }

  predicate BlockOk(raw: string) {
    Opens(raw) ==> BlockAllowed(Clean(raw))
  }

  predicate LeafOk(raw: string, opener: string) {
    IsLeaf(Clean(raw)) ==> LeafAllowed(Clean(raw), BlockName(Clean(opener)))
  }

  /** Every opener is an allowed block; every leaf is allowed under the block opened last before it. */
  const RULES := Rules(Opens, BlockOk, LeafOk)

  function BracesOpened(raw: string): nat {
    Count(Clean(raw), '{')
  }

  function BracesClosed(raw: string): nat {
    Count(Clean(raw), '}')
  }

  predicate Balanced(lines: seq<string>) {
    Total(BracesOpened, lines, |lines|) == Total(BracesClosed, lines, |lines|)
  }

  ghost predicate Accepted(lines: seq<string>) {
    AllLinesOk(RULES, lines) && Balanced(lines)
  }

  // ---------------------------------------------------------------- the scanner

  datatype Fault =
    | BlockNotAllowed(name: string)
    | BlockDenied(name: string)
    | LeafNotAllowed(name: string, block: string)
    | LeafDenied(name: string)
    | ProxyDenied(target: string, pattern: string)

  datatype Rejection = AtLine(number: nat, fault: Fault) | UnbalancedBraces(depth: int)

  /** What the fault says is true of a line under the given block. */
  predicate Describes(fault: Fault, line: string, block: Option<string>) {
    match fault
    case BlockNotAllowed(name) => OpensBlock(line) && name == BlockName(line) && name !in BLOCKS
    case BlockDenied(name) => OpensBlock(line) && name == BlockName(line) && name in BLOCKS && name in DENIED
    case LeafNotAllowed(name, b) =>
      block == Some(b) && IsLeaf(line) && name == LeafName(line) && name !in AllowedIn(b) && name !in BLOCKS
    case LeafDenied(name) =>
      block.Some? && IsLeaf(line) && name == LeafName(line) && name in DENIED
    case ProxyDenied(target, pattern) =>
      && block.Some? && IsLeaf(line) && LeafName(line) == "proxy_pass"
      && target == ProxyTarget(line) && pattern in DENIED_UPSTREAMS && Contains(target, pattern)
  }

  /** The name of the block opened last before line `i`. */
  ghost predicate IsOpen(lines: seq<string>, i: nat, block: Option<string>) {
    if block.None? then forall k: nat {:trigger OpensAt(RULES, lines, k)} | k < i :: !OpensAt(RULES, lines, k)
    else exists j: nat :: OpenedBy(lines, j, i, block.value)
  }

  ghost predicate OpenedBy(lines: seq<string>, j: nat, i: nat, name: string) {
    LastOpener(RULES, lines, j, i) && name == BlockName(Clean(lines[j]))
  }

  method CheckProxyTarget(target: string) returns (pattern: Option<string>)
    ensures pattern.None? <==> NotADeniedUpstream(target)
    ensures pattern.Some? ==> pattern.value in DENIED_UPSTREAMS && Contains(target, pattern.value)
  {
    for k := 0 to |DENIED_UPSTREAMS|
      invariant forall i | 0 <= i < k :: !Contains(target, DENIED_UPSTREAMS[i])
    {
      if Contains(target, DENIED_UPSTREAMS[k]) {
        return Some(DENIED_UPSTREAMS[k]);
      }
    }
    return None;
  }

  method CheckLeaf(line: string, block: string) returns (fault: Option<Fault>)
    requires IsLeaf(line)
    ensures fault.None? <==> LeafAllowed(line, block)
    ensures fault.Some? ==> Describes(fault.value, line, Some(block))
  {
    var name := LeafName(line);
    if name !in AllowedIn(block) && name !in BLOCKS {
      return Some(LeafNotAllowed(name, block));
    }
    if name in DENIED {
      return Some(LeafDenied(name));
    }
    if name == "proxy_pass" {
      var pattern := CheckProxyTarget(ProxyTarget(line));
      if pattern.Some? {
        return Some(ProxyDenied(ProxyTarget(line), pattern.value));
      }
    }
    return None;
  }

  predicate LineAllowed(line: string, block: Option<string>) {
    && (OpensBlock(line) ==> BlockAllowed(line))
    && (IsLeaf(line) && block.Some? ==> LeafAllowed(line, block.value))
  }

  function BlockAfter(line: string, block: Option<string>): Option<string> {
    if OpensBlock(line) then Some(BlockName(line)) else block
  }

  /** The body of the scanner's loop apart from the count of braces. */
  method CheckLine(line: string, block: Option<string>) returns (fault: Option<Fault>, lastBlock: Option<string>)
    ensures fault.None? <==> LineAllowed(line, block)
    ensures fault.Some? ==> Describes(fault.value, line, block)
    ensures fault.None? ==> lastBlock == BlockAfter(line, block)
  {
    fault, lastBlock := None, block;
    if OpenerText(line) != "" && Count(line, '{') > 0 {
      var name := BlockName(line);
      if name !in BLOCKS {
        return Some(BlockNotAllowed(name)), lastBlock;
      }
      if name in DENIED {
        return Some(BlockDenied(name)), lastBlock;
      }
      lastBlock := Some(name);
    }
    if LeafName(line) != "" && Count(line, '{') == 0 && Count(line, '}') == 0 {
      if lastBlock.Some? {
        fault := CheckLeaf(line, lastBlock.value);
      }
    }
  }

  ghost predicate FirstFault(lines: seq<string>, i: int, fault: Fault) {
    && 0 <= i < |lines| && !LineOk(RULES, lines, i)
    && (forall k: nat {:trigger LineOk(RULES, lines, k)} | k < i :: LineOk(RULES, lines, k))
    && exists block :: IsOpen(lines, i, block) && Describes(fault, Clean(lines[i]), block)
  }

  /** What a result says about the lines. */
  ghost predicate Verdict(lines: seq<string>, r: Result<(), Rejection>) {
    match r
    case Ok(_) => Accepted(lines)
    case Err(AtLine(number, fault)) => FirstFault(lines, number - 1, fault)
    case Err(UnbalancedBraces(depth)) => AllLinesOk(RULES, lines) && depth == Total(BracesOpened, lines, |lines|) - Total(BracesClosed, lines, |lines|) != 0
  }

  /** What the scanner knows when it has passed the first `i` lines. */
  ghost predicate Scanned(lines: seq<string>, i: nat, depth: int, block: Option<string>) {
    && i <= |lines| && IsOpen(lines, i, block)
    && depth == Total(BracesOpened, lines, i) - Total(BracesClosed, lines, i)
    && forall k: nat {:trigger LineOk(RULES, lines, k)} | k < i :: LineOk(RULES, lines, k)
  }

  /** One turn of the scanner's loop. */
  method ScanLine(lines: seq<string>, idx: nat, depth: int, block: Option<string>)
    returns (fault: Option<Fault>, newDepth: int, newBlock: Option<string>)
    requires idx < |lines| && Scanned(lines, idx, depth, block)
    ensures fault.None? ==> Scanned(lines, idx + 1, newDepth, newBlock)
    ensures fault.Some? ==> Verdict(lines, Err(AtLine(idx + 1, fault.value)))
  {
    var line := Clean(lines[idx]);
    if line == "" {
      BlankLine(block);
      ScanStep(lines, idx, depth, block);
      return None, depth, block;
    }
    fault, newBlock := CheckLine(line, block);
    newDepth := depth + Count(line, '{') - Count(line, '}');
    if fault.Some? {
      ScanFault(lines, idx, depth, block, fault.value);
    } else {
      ScanStep(lines, idx, depth, block);
    }
  }

  /** The scanner accepts exactly what the specification accepts and blames the first bad line. */
  method ValidateNginx(config: string) returns (r: Result<(), Rejection>)
    ensures r.Ok? <==> Accepted(Lines(config))
    ensures Verdict(Lines(config), r)
  {
    var lines := Lines(config);
    var depth: int := 0;
    var lastBlock: Option<string> := None;
    for idx := 0 to |lines|
      invariant Scanned(lines, idx, depth, lastBlock)
    {
      var fault;
      fault, depth, lastBlock := ScanLine(lines, idx, depth, lastBlock);
      if fault.Some? {
        r := Err(AtLine(idx + 1, fault.value));
        VerdictDecides(lines, r);
        return;
      }
    }
    ScanEnd(lines, depth, lastBlock);
    r := if depth != 0 then Err(UnbalancedBraces(depth)) else Ok(());
    VerdictDecides(lines, r);
  }

  lemma VerdictDecides(lines: seq<string>, r: Result<(), Rejection>)
    requires Verdict(lines, r)
    ensures r.Ok? <==> Accepted(lines)
  {
  }

  lemma ScanStep(lines: seq<string>, i: nat, depth: int, block: Option<string>)
    requires i < |lines| && Scanned(lines, i, depth, block) && LineAllowed(Clean(lines[i]), block)
    ensures var line := Clean(lines[i]);
            Scanned(lines, i + 1, depth + Count(line, '{') - Count(line, '}'), BlockAfter(line, block))
  {
    LineOkUnder(lines, i, block);
  }

  lemma ScanFault(lines: seq<string>, i: nat, depth: int, block: Option<string>, fault: Fault)
    requires i < |lines| && Scanned(lines, i, depth, block)
    requires !LineAllowed(Clean(lines[i]), block) && Describes(fault, Clean(lines[i]), block)
    ensures Verdict(lines, Err(AtLine(i + 1, fault)))
  {
    LineOkUnder(lines, i, block);
  }

  lemma ScanEnd(lines: seq<string>, depth: int, block: Option<string>)
    requires Scanned(lines, |lines|, depth, block)
    ensures Verdict(lines, if depth != 0 then Err(UnbalancedBraces(depth)) else Ok(()))
  {
  }

  /** An empty line or a comment constrains nothing and changes nothing. */
  lemma BlankLine(block: Option<string>)
    ensures LineAllowed("", block) && BlockAfter("", block) == block
    ensures !OpensBlock("") && !IsLeaf("") && Count("", '{') == 0 && Count("", '}') == 0
  {
    assert Words("") == [];
  }

  lemma OpenAfter(lines: seq<string>, i: nat, block: Option<string>)
    requires i < |lines| && IsOpen(lines, i, block)
    ensures IsOpen(lines, i + 1, BlockAfter(Clean(lines[i]), block))
  {
    if OpensAt(RULES, lines, i) {
      assert OpenedBy(lines, i, i + 1, BlockName(Clean(lines[i])));
    } else if block.Some? {
      var j: nat :| OpenedBy(lines, j, i, block.value);
      StillLast(RULES, lines, j, i);
      assert OpenedBy(lines, j, i + 1, block.value);
    }
  }

  /** The specification of a line, by the name of the block that is open there. */
  lemma LineOkUnder(lines: seq<string>, i: nat, block: Option<string>)
    requires i < |lines| && IsOpen(lines, i, block)
    ensures LineOk(RULES, lines, i) <==> LineAllowed(Clean(lines[i]), block)
    ensures IsOpen(lines, i + 1, BlockAfter(Clean(lines[i]), block))
  {
    OpenAfter(lines, i, block);
    if block.Some? {
      var j: nat :| OpenedBy(lines, j, i, block.value);
      forall k: nat | LastOpener(RULES, lines, k, i) ensures k == j {
        OneLastOpener(RULES, lines, i, j, k);
      }
    }
  }

  // ---------------------------------------------------------------- properties

  lemma BlankIsInert(raw: string)
    requires Clean(raw) == ""
    ensures !RULES.opens(raw) && RULES.alone(raw) && Free(RULES, raw)
  {
    BlankLine(None);
  }

  lemma OpenerIsFree(raw: string)
    requires Opens(raw)
    ensures Free(RULES, raw)
  {
  }

  /** The first line that is not blank opens a block. */
  ghost predicate StartsWithBlock(lines: seq<string>, first: nat) {
    first < |lines| && Opens(lines[first]) && forall i | 0 <= i < first :: Clean(lines[i]) == ""
  }

  /** Two balanced configurations, the second starting with a block: accepted together iff accepted apart. */
  lemma ConfigsCompose(x: string, y: string, first: nat)
    requires Terminated(x) && StartsWithBlock(Lines(y), first)
    requires Balanced(Lines(x)) && Balanced(Lines(y))
    ensures Accepted(Lines(x + y)) <==> Accepted(Lines(x)) && Accepted(Lines(y))
  {
    LinesAppend(x, y);
    LinesOfConfigsCompose(Lines(x), Lines(y), first);
  }

  lemma LinesOfConfigsCompose(a: seq<string>, b: seq<string>, first: nat)
    requires StartsWithBlock(b, first) && Balanced(a) && Balanced(b)
    ensures Accepted(a + b) <==> Accepted(a) && Accepted(b)
  {
    BlockComesFirst(b, first);
    LinesCompose(RULES, a, b, first);
    TotalOfConcat(BracesOpened, a, b);
    TotalOfConcat(BracesClosed, a, b);
  }

  lemma BlockComesFirst(lines: seq<string>, first: nat)
    requires StartsWithBlock(lines, first)
    ensures BlockFirst(RULES, lines, first)
  {
    forall i | 0 <= i <= first ensures Free(RULES, lines[i]) {
      if i < first { BlankIsInert(lines[i]); } else { OpenerIsFree(lines[i]); }
    }
  }

  /**
   A closing line only counts: wherever it stands, the same configurations are accepted.  So a closing
   brace neither has to follow its opening one nor brings back the rules of the enclosing block.
   */
  lemma ClosersOnlyCount(a: seq<string>, b: seq<string>, a': seq<string>, b': seq<string>, closer: string)
    requires a + b == a' + b'
    requires !Opens(closer) && !IsLeaf(Clean(closer))
    ensures Accepted(a + [closer] + b) <==> Accepted(a' + [closer] + b')
  {
    assert Free(RULES, closer);
    InertLine(RULES, a, closer, b);
    InertLine(RULES, a', closer, b');
    BracesAround(a, b, closer);
    BracesAround(a', b', closer);
  }

  lemma BracesAround(a: seq<string>, b: seq<string>, c: string)
    ensures Balanced(a + [c] + b) <==>
              Total(BracesOpened, a + b, |a + b|) + BracesOpened(c) == Total(BracesClosed, a + b, |a + b|) + BracesClosed(c)
  {
    TotalAround(BracesOpened, a, c, b);
    TotalAround(BracesClosed, a, c, b);
  }

  // ---------------------------------------------------------------- directives inside a line

  predicate IsBreak(c: char) {
    c == ';' || c == '{' || c == '}'
  }

  /** Where the first directive of a line ends. */
  function BreakAt(s: string): (n: nat)
    ensures n <= |s| && (n < |s| ==> IsBreak(s[n])) && forall i | 0 <= i < n :: !IsBreak(s[i])
  {
    if s == "" || IsBreak(s[0]) then 0 else 1 + BreakAt(s[1..])
  }

  /** The stretches of a line that nginx reads as one directive each. */
  function Pieces(s: string): (p: seq<string>)
    ensures p != []
    decreases |s|
  {
    var n := BreakAt(s);
    if n == |s| then [s] else [s[..n]] + Pieces(s[n + 1..])
  }

  function FirstPiece(s: string): string {
    s[..BreakAt(s)]
  }

  function Directive(line: string, k: nat): string
    requires k < |Pieces(line)|
  {
    FirstWord(Pieces(line)[k])
  }

  predicate HasBreak(s: string) {
    exists i | 0 <= i < |s| :: IsBreak(s[i])
  }

  lemma BreakIsFirst(s: string, n: nat)
    requires n <= |s| && (n < |s| ==> IsBreak(s[n])) && forall i | 0 <= i < n :: !IsBreak(s[i])
    ensures BreakAt(s) == n
  {
  }

  /** Breaks trimmed off the end leave the first piece alone. */
  lemma {:induction false} TrimmedFirstPiece(s: string, c: char)
    requires IsBreak(c)
    ensures FirstPiece(TrimEndMatches(s, c)) == FirstPiece(s)
  {
    if s != "" && s[|s| - 1] == c {
      var front := s[..|s| - 1];
      TrimmedFirstPiece(front, c);
      BreakIsFirst(s, BreakAt(front));
    }
  }

  /** The first word of a text is the first directive, unless it runs into a break. */
  lemma {:induction false} FirstWordOfFirstPiece(s: string)
    ensures FirstWord(s) == FirstWord(FirstPiece(s)) || HasBreak(FirstWord(s))
  {
    if s != "" && IsWhitespace(s[0]) {
      FirstWordOfFirstPiece(s[1..]);
      assert FirstPiece(s)[1..] == FirstPiece(s[1..]);
    } else if s != "" {
      var n, w := BreakAt(s), WordLength(s);
      if n < w {
        assert s[..w][n] == s[n];
      } else {
        WordLengthOfPrefix(s, n);
        assert s[..n][..w] == s[..w];
      }
    }
  }

  lemma {:induction false} WordLengthOfPrefix(s: string, n: nat)
    requires WordLength(s) <= n <= |s|
    ensures WordLength(s[..n]) == WordLength(s)
  {
    if n > 0 && !IsWhitespace(s[0]) {
      WordLengthOfPrefix(s[1..], n - 1);
      assert s[..n][1..] == s[1..][..n - 1];
    }
  }

  lemma LeafNameIsFirstDirective(line: string)
    ensures LeafName(line) == Directive(line, 0) || HasBreak(LeafName(line))
  {
    var t := TrimEndMatches(line, ';');
    var u := TrimEndMatches(t, '{');
    TrimmedFirstPiece(line, ';');
    TrimmedFirstPiece(t, '{');
    WordsOfTrim(u);
    FirstWordOfFirstPiece(u);
    PiecesBeginWithFirst(line);
  }

  lemma BlockNameIsFirstDirective(line: string)
    ensures BlockName(line) == Directive(line, 0) || HasBreak(BlockName(line))
  {
    var t := TrimEndMatches(line, '{');
    TrimmedFirstPiece(line, '{');
    WordsOfTrim(t);
    FirstWordOfFirstPiece(t);
    PiecesBeginWithFirst(line);
  }

  lemma PiecesBeginWithFirst(line: string)
    ensures Pieces(line)[0] == FirstPiece(line)
  {
    assert BreakAt(line) == |line| ==> line[..|line|] == line;
  }

  ghost predicate NoneBreaks(names: seq<string>) {
    forall k | 0 <= k < |names| :: !HasBreak(names[k])
  }

  lemma BlocksHaveNoBreak()
    ensures NoneBreaks(BLOCKS)
  {
    var l := BLOCKS;
    assert !HasBreak(l[0]) && !HasBreak(l[1]) && !HasBreak(l[2]) && !HasBreak(l[3]);
    assert !HasBreak(l[4]) && !HasBreak(l[5]);
  }

  lemma HttpLeavesHaveNoBreak()
    ensures NoneBreaks(HTTP_LEAVES)
  {
    var l := HTTP_LEAVES;
    assert !HasBreak(l[0]) && !HasBreak(l[1]) && !HasBreak(l[2]) && !HasBreak(l[3]);
    assert !HasBreak(l[4]) && !HasBreak(l[5]) && !HasBreak(l[6]) && !HasBreak(l[7]);
    assert !HasBreak(l[8]) && !HasBreak(l[9]) && !HasBreak(l[10]) && !HasBreak(l[11]);
  }

  lemma ServerLeavesHaveNoBreak()
    ensures NoneBreaks(SERVER_LEAVES)
  {
    var l := SERVER_LEAVES;
    assert !HasBreak(l[0]) && !HasBreak(l[1]) && !HasBreak(l[2]) && !HasBreak(l[3]);
    assert !HasBreak(l[4]) && !HasBreak(l[5]) && !HasBreak(l[6]) && !HasBreak(l[7]);
    assert !HasBreak(l[8]) && !HasBreak(l[9]) && !HasBreak(l[10]);
  }

  lemma LocationLeavesHaveNoBreak()
    ensures NoneBreaks(LOCATION_LEAVES)
  {
    ProxyLeavesHaveNoBreak();
    var l := LOCATION_LEAVES;
    assert !HasBreak(l[8]) && !HasBreak(l[9]) && !HasBreak(l[10]) && !HasBreak(l[11]);
  }

  lemma ProxyLeavesHaveNoBreak()
    ensures forall k | 0 <= k < 8 :: !HasBreak(LOCATION_LEAVES[k])
  {
    var l := LOCATION_LEAVES;
    assert !HasBreak(l[0]) && !HasBreak(l[1]) && !HasBreak(l[2]) && !HasBreak(l[3]);
    assert !HasBreak(l[4]) && !HasBreak(l[5]) && !HasBreak(l[6]) && !HasBreak(l[7]);
  }

  lemma UpstreamLeavesHaveNoBreak()
    ensures NoneBreaks(EVENTS_LEAVES) && NoneBreaks(UPSTREAM_LEAVES)
  {
  }

  lemma AllowedNamesHaveNoBreak(name: string)
    requires name in LEAVES || name in EVENTS_LEAVES || name in BLOCKS
    ensures !HasBreak(name)
  {
    BlocksHaveNoBreak();
    HttpLeavesHaveNoBreak();
    ServerLeavesHaveNoBreak();
    LocationLeavesHaveNoBreak();
    UpstreamLeavesHaveNoBreak();
    InOneOfFive(EVENTS_LEAVES, HTTP_LEAVES, SERVER_LEAVES, LOCATION_LEAVES, UPSTREAM_LEAVES, name);
  }

  lemma InOneOfFive(a: seq<string>, b: seq<string>, c: seq<string>, d: seq<string>, e: seq<string>, name: string)
    ensures name in a + b + c + d + e <==> name in a || name in b || name in c || name in d || name in e
  {
  }

  // ---------------------------------------------------------------- what a denied directive meets

  /** The first directive of the line is what the rules ask of a block or of a leaf. It is the first
      word the scanner reads unless it runs into the next one, as in `a;b`. */
  predicate FirstDirectivePasses(line: string, block: Option<string>) {
    var d := Directive(line, 0);
    && (OpensBlock(line) ==> d == BlockName(line) && d in BLOCKS && d !in DENIED)
    && (IsLeaf(line) && block.Some? ==>
          && d == LeafName(line) && (d in AllowedIn(block.value) || d in BLOCKS) && d !in DENIED
          && (d == "proxy_pass" ==> NotADeniedUpstream(ProxyTarget(line))))
  }

  lemma LineAllowedByFirstDirective(line: string, block: Option<string>)
    ensures LineAllowed(line, block) <==> FirstDirectivePasses(line, block)
  {
    if OpensBlock(line) && BlockAllowed(line) {
      AllowedNamesHaveNoBreak(BlockName(line));
    }
    BlockNameIsFirstDirective(line);
    if IsLeaf(line) && block.Some? && LeafAllowed(line, block.value) {
      AllowedNamesHaveNoBreak(LeafName(line));
    }
    LeafNameIsFirstDirective(line);
  }

  /** The verdict on a line rests on its first directive alone, save for the target of a `proxy_pass`. */
  lemma OnlyTheFirstDirectiveCounts(lines: seq<string>, i: nat, block: Option<string>)
    requires i < |lines| && IsOpen(lines, i, block)
    ensures LineOk(RULES, lines, i) <==> FirstDirectivePasses(Clean(lines[i]), block)
  {
    LineOkUnder(lines, i, block);
    LineAllowedByFirstDirective(Clean(lines[i]), block);
  }

  /**
   A denied directive in first position is refused exactly when its line opens a block or, without
   any brace, follows a line that does. Anywhere later on the line it is not read: the line is
   refused exactly when its first directive is.
   */
  lemma DeniedDirectiveRefusedIff(lines: seq<string>, i: nat, block: Option<string>, k: nat)
    requires i < |lines| && IsOpen(lines, i, block)
    requires k < |Pieces(Clean(lines[i]))| && Directive(Clean(lines[i]), k) in DENIED
    ensures !LineOk(RULES, lines, i) <==>
              if k == 0 then OpensBlock(Clean(lines[i])) || (IsLeaf(Clean(lines[i])) && block.Some?)
              else !FirstDirectivePasses(Clean(lines[i]), block)
  {
    OnlyTheFirstDirectiveCounts(lines, i, block);
  }

  predicate WithoutBraces(s: string) {
    '{' !in s && '}' !in s
  }

  lemma {:induction false} TrimmedRest(w: string, rest: string, c: char)
    requires IsWord(w) && w[|w| - 1] != c && (rest == "" || IsWhitespace(rest[0])) && !IsWhitespace(c)
    ensures TrimEndMatches(w + rest, c) == w + TrimEndMatches(rest, c)
    ensures var r := TrimEndMatches(rest, c); r == "" || IsWhitespace(r[0])
  {
    if rest == "" {
      assert w + rest == w;
    } else if rest[|rest| - 1] == c {
      var front := rest[..|rest| - 1];
      assert (w + rest)[..|w + rest| - 1] == w + front;
      TrimmedRest(w, front, c);
    }
  }

  /** A word in front of a rest without braces makes a leaf of that name. */
  lemma LeafOf(w: string, rest: string)
    requires IsWord(w) && !HasBreak(w) && (rest == "" || IsWhitespace(rest[0])) && WithoutBraces(rest)
    ensures IsLeaf(w + rest) && LeafName(w + rest) == w
  {
    assert !IsBreak(w[|w| - 1]);
    TrimmedRest(w, rest, ';');
    var t := TrimEndMatches(rest, ';');
    TrimmedRest(w, t, '{');
    var u := TrimEndMatches(t, '{');
    WordsOfTrim(w + u);
    FirstWordIs(w, u);
    assert forall i | 0 <= i < |w| :: !IsBreak(w[i]);
    CountZero(w + rest, '{');
    CountZero(w + rest, '}');
  }

  /** So what follows the first word of a leaf, other directives included, changes nothing. */
  lemma LaterDirectivesAreNotRead(w: string, rest: string, rest': string, block: string)
    requires IsWord(w) && !HasBreak(w) && w != "proxy_pass"
    requires (rest == "" || IsWhitespace(rest[0])) && WithoutBraces(rest)
    requires (rest' == "" || IsWhitespace(rest'[0])) && WithoutBraces(rest')
    ensures IsLeaf(w + rest) && IsLeaf(w + rest')
    ensures LeafAllowed(w + rest, block) <==> LeafAllowed(w + rest', block)
  {
    LeafOf(w, rest);
    LeafOf(w, rest');
  }

  // ---------------------------------------------------------------- denied directives that are accepted

  /** Text of one directive: no break and no comment. */
  predicate Inside(s: string) {
    !HasBreak(s) && '#' !in s
  }

  predicate PlainWord(w: string) {
    IsWord(w) && Inside(w)
  }

  /** Arguments: nothing, or space and then more text. */
  predicate Arguments(s: string) {
    Inside(s) && (s == "" || IsWhitespace(s[0]))
  }

  function Opener(name: string): string {
    name + " {"
  }

  function TwoDirectives(first: string, args: string, second: string, args': string): string {
    first + (args + ";" + (" " + second + args' + ";"))
  }

  lemma CleanLine(raw: string)
    requires raw != "" && '#' !in raw && !IsWhitespace(raw[0]) && !IsWhitespace(raw[|raw| - 1])
    ensures Clean(raw) == raw
  {
    assert raw[..|raw|] == raw;
  }

  lemma NoBreakNoBrace(s: string)
    requires !HasBreak(s)
    ensures WithoutBraces(s) && ';' !in s
  {
    assert forall i | 0 <= i < |s| :: !IsBreak(s[i]);
  }

  lemma OpenerLine(name: string)
    requires PlainWord(name)
    ensures var line := Opener(name);
            && Clean(line) == line && OpensBlock(line) && BlockName(line) == name
            && Count(line, '{') == 1 && Count(line, '}') == 0
  {
    var line := Opener(name);
    NoBreakNoBrace(name);
    CleanLine(line);
    assert line == (name + " ") + "{";
    CountAppend(name + " ", "{", '{');
    CountZero(name + " ", '{');
    CountZero(line, '}');
    assert "{"[1..] == "" && Count("{", '{') == 1;
    TrimmedOpener(name);
    WordsOfTrim(name + " ");
    FirstWordIs(name, " ");
  }

  lemma TrimmedOpener(name: string)
    ensures TrimEndMatches(Opener(name), '{') == name + " "
  {
    var line := Opener(name);
    assert line[..|line| - 1] == name + " ";
  }

  lemma CloserLine()
    ensures Clean("}") == "}" && !OpensBlock("}") && !IsLeaf("}")
    ensures Count("}", '{') == 0 && Count("}", '}') == 1
  {
    CleanLine("}");
    assert "}"[1..] == "" && Count("}", '}') == 1;
    CountZero("}", '{');
  }

  lemma TwoDirectivesAreALeaf(first: string, args: string, second: string, args': string)
    requires PlainWord(first) && PlainWord(second) && Arguments(args) && args != "" && Arguments(args')
    ensures var line := TwoDirectives(first, args, second, args');
            && Clean(line) == line && IsLeaf(line) && LeafName(line) == first
            && Count(line, '{') == 0 && Count(line, '}') == 0
  {
    var line, rest := TwoDirectives(first, args, second, args'), args + ";" + (" " + second + args' + ";");
    NoBreakNoBrace(first);
    NoBreakNoBrace(args);
    NoBreakNoBrace(second);
    NoBreakNoBrace(args');
    CleanLine(line);
    LeafOf(first, rest);
  }

  lemma PiecesCons(a: string, c: char, b: string)
    requires !HasBreak(a) && IsBreak(c)
    ensures Pieces(a + [c] + b) == [a] + Pieces(b)
  {
    var s := a + [c] + b;
    assert forall i | 0 <= i < |a| :: !IsBreak(a[i]);
    BreakIsFirst(s, |a|);
    assert s[..|a|] == a && s[|a| + 1..] == b;
  }

  lemma NoBreakInConcat(a: string, b: string)
    requires !HasBreak(a) && !HasBreak(b)
    ensures !HasBreak(a + b)
  {
    assert forall i | 0 <= i < |a| :: !IsBreak(a[i]);
    assert forall i | 0 <= i < |b| :: !IsBreak(b[i]);
  }

  lemma TwoDirectivesPieces(first: string, args: string, second: string, args': string)
    requires PlainWord(first) && PlainWord(second) && Arguments(args) && args != "" && Arguments(args')
    ensures var line := TwoDirectives(first, args, second, args');
            |Pieces(line)| > 1 && Directive(line, 1) == second
  {
    var piece := " " + (second + args');
    NoBreakInConcat(first, args);
    NoBreakInConcat(second, args');
    NoBreakInConcat(" ", second + args');
    PiecesCons(piece, ';', "");
    PiecesCons(first + args, ';', piece + [';'] + "");
    TwoDirectivesText(first, args, second, args');
    assert piece[1..] == second + args';
    FirstWordIs(second, args');
  }

  lemma TwoDirectivesText(first: string, args: string, second: string, args': string)
    ensures TwoDirectives(first, args, second, args')
         == (first + args) + [';'] + ((" " + (second + args')) + [';'] + "")
  {
  }

  predicate AllowedDirective(name: string) {
    PlainWord(name) && name in LEAVES && name !in DENIED && name != "proxy_pass"
  }

  /** Whatever is denied, a block with it behind an allowed directive on one line is accepted. */
  lemma DeniedDirectiveAccepted(block: string, first: string, args: string, denied: string, args': string)
    requires PlainWord(block) && block in BLOCKS && block !in DENIED && block != "events"
    requires AllowedDirective(first) && Arguments(args) && args != ""
    requires denied in DENIED && PlainWord(denied) && Arguments(args')
    ensures var line := TwoDirectives(first, args, denied, args');
            && |Pieces(Clean(line))| > 1 && Directive(Clean(line), 1) in DENIED
            && Accepted([Opener(block), line, "}"])
  {
    OpenerLine(block);
    TwoDirectivesAreALeaf(first, args, denied, args');
    TwoDirectivesPieces(first, args, denied, args');
    CloserLine();
    BlockOfOneLeaf(Opener(block), TwoDirectives(first, args, denied, args'), "}");
  }

  lemma BlockOfOneLeaf(opener: string, leaf: string, closer: string)
    requires Opens(opener) && BlockAllowed(Clean(opener)) && BracesOpened(opener) == 1 && BracesClosed(opener) == 0
    requires !Opens(leaf) && IsLeaf(Clean(leaf)) && LeafAllowed(Clean(leaf), BlockName(Clean(opener)))
    requires BracesOpened(leaf) == 0 && BracesClosed(leaf) == 0
    requires !Opens(closer) && !IsLeaf(Clean(closer)) && BracesOpened(closer) == 0 && BracesClosed(closer) == 1
    ensures Accepted([opener, leaf, closer])
  {
    OpenerIsFree(opener);
    assert Free(RULES, closer);
    ThreeLinesOk(RULES, opener, leaf, closer);
    TotalOfThree(BracesOpened, opener, leaf, closer);
    TotalOfThree(BracesClosed, opener, leaf, closer);
  }

  lemma PlainExamples()
    ensures PlainWord("http") && PlainWord("gzip") && PlainWord("load_module")
    ensures Arguments(" on") && Arguments(" evil.so")
  {
  }

  lemma GzipIsAllowed()
    ensures "gzip" in LEAVES && "gzip" !in DENIED
  {
    assert HTTP_LEAVES[5] == "gzip";
    InOneOfFive(EVENTS_LEAVES, HTTP_LEAVES, SERVER_LEAVES, LOCATION_LEAVES, UPSTREAM_LEAVES, "gzip");
  }

  lemma HttpIsABlock()
    ensures PlainWord("http") && "http" in BLOCKS && "http" !in DENIED && "http" != "events"
  {
    assert BLOCKS[1] == "http";
  }

  lemma LoadModuleIsDenied()
    ensures PlainWord("load_module") && "load_module" in DENIED
  {
    assert DENIED[3] == "load_module";
  }

  /** There are such configurations. */
  lemma LoadModuleAccepted()
    ensures Accepted([Opener("http"), TwoDirectives("gzip", " on", "load_module", " evil.so"), "}"])
  {
    HttpIsABlock();
    LoadModuleIsDenied();
    PlainExamples();
    GzipIsAllowed();
    DeniedDirectiveAccepted("http", "gzip", " on", "load_module", " evil.so");
  }

  // ---------------------------------------------------------------- denied sockets

  /** The first directive is one the line may have, whatever its arguments. */
  predicate FirstNamePasses(line: string, block: Option<string>) {
    && (OpensBlock(line) ==> BlockAllowed(line))
    && (IsLeaf(line) && block.Some? ==>
          (LeafName(line) in AllowedIn(block.value) || LeafName(line) in BLOCKS) && LeafName(line) !in DENIED)
  }

  /** A denied socket is the reason to refuse a line exactly where it stands in the target of a
      `proxy_pass` that comes first on a line without braces below some opener. */
  lemma SocketRefusedIff(lines: seq<string>, i: nat, block: Option<string>)
    requires i < |lines| && IsOpen(lines, i, block)
    ensures var line := Clean(lines[i]);
            !LineOk(RULES, lines, i) <==>
              || !FirstNamePasses(line, block)
              || (IsLeaf(line) && block.Some? && LeafName(line) == "proxy_pass" && !NotADeniedUpstream(ProxyTarget(line)))
  {
    LineOkUnder(lines, i, block);
  }

  /** So one in the `server` of an upstream passes, whatever proxies to that upstream. */
  lemma UpstreamServerIsAllowed(rest: string, block: string)
    requires (rest == "" || IsWhitespace(rest[0])) && WithoutBraces(rest) && block != "events"
    ensures IsLeaf("server" + rest) && LeafAllowed("server" + rest, block)
  {
    ServerIsAWord();
    LeafOf("server", rest);
    ServerIsAllowed();
  }

  lemma ServerIsAWord()
    ensures IsWord("server") && !HasBreak("server")
  {
  }

  lemma ServerIsAllowed()
    ensures "server" in LEAVES && "server" !in DENIED
  {
    assert UPSTREAM_LEAVES[0] == "server";
    InOneOfFive(EVENTS_LEAVES, HTTP_LEAVES, SERVER_LEAVES, LOCATION_LEAVES, UPSTREAM_LEAVES, "server");
  }

  function InlineBlock(name: string, args: string, body: string): string {
    name + (args + "{" + body + "}")
  }

  /** And so does one in a block that is written on one line, as does anything else there. */
  lemma InlineBlockIsAccepted(name: string, args: string, body: string)
    requires PlainWord(name) && name in BLOCKS && name !in DENIED
    requires Arguments(args) && args != "" && WithoutBraces(body) && '#' !in body
    ensures Accepted([InlineBlock(name, args, body)])
  {
    var line := InlineBlock(name, args, body);
    NoBreakNoBrace(name);
    NoBreakNoBrace(args);
    InlineText(name, args, body);
    CleanLine(line);
    InlineOpens(name, args + "{" + body + "}");
    InlineCounts(name + args, body);
    OneLineAccepted(line);
  }

  lemma InlineText(name: string, args: string, body: string)
    requires PlainWord(name) && Arguments(args) && args != "" && '#' !in body
    ensures var line := InlineBlock(name, args, body);
            && line == (name + args) + "{" + body + "}" && '#' !in line && line[0] == name[0] && line[|line| - 1] == '}'
    ensures var rest := args + "{" + body + "}";
            rest != "" && IsWhitespace(rest[0]) && rest[|args|] == '{'
  {
    var line := InlineBlock(name, args, body);
    assert line == (name + args) + "{" + body + "}";
  }

  lemma OneLineAccepted(line: string)
    requires Opens(line) && BlockAllowed(Clean(line)) && BracesOpened(line) == BracesClosed(line)
    ensures Accepted([line])
  {
    OpenerIsFree(line);
    OneLineOk(RULES, line);
    TotalOfOne(BracesOpened, line);
    TotalOfOne(BracesClosed, line);
  }

  lemma InlineOpens(name: string, rest: string)
    requires PlainWord(name) && rest != "" && IsWhitespace(rest[0]) && '{' in rest
    ensures OpensBlock(name + rest) && BlockName(name + rest) == name
  {
    NoBreakNoBrace(name);
    TrimmedRest(name, rest, '{');
    var t := TrimEndMatches(rest, '{');
    WordsOfTrim(name + t);
    FirstWordIs(name, t);
    CountZero(name + rest, '{');
  }

  lemma InlineCounts(front: string, body: string)
    requires WithoutBraces(front) && WithoutBraces(body)
    ensures Count(front + "{" + body + "}", '{') == 1 && Count(front + "{" + body + "}", '}') == 1
  {
    var line := front + ("{" + (body + "}"));
    assert front + "{" + body + "}" == line;
    CountParts(front, body, '{');
    CountParts(front, body, '}');
    assert "{"[1..] == "" && "}"[1..] == "";
  }

  lemma CountParts(front: string, body: string, c: char)
    requires c !in front && c !in body
    ensures Count(front + ("{" + (body + "}")), c) == Count("{", c) + Count("}", c)
  {
    CountAppend(front, "{" + (body + "}"), c);
    CountAppend("{", body + "}", c);
    CountAppend(body, "}", c);
    CountZero(front, c);
    CountZero(body, c);
  }
}

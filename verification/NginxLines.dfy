/**
 What the nginx scanner reads of the text of a line, stated without its own functions: what counts as
 comment and as name, and where a container socket is looked for.
*/
module NginxLines {
  import opened Basics
  import opened LineRules
  import opened Nginx
  import opened Text

  // ---------------------------------------------------------------- what is left of a line

  /** Indentation, trailing space and comment are none of the line. */
  lemma CleanIs(indent: string, s: string, trail: string, comment: string)
    requires AllSpace(indent) && AllSpace(trail) && Tight(s) && '#' !in indent + s + trail
    ensures Clean(indent + s + trail) == s
    ensures Clean(indent + s + trail + "#" + comment) == s
  {
    var kept := indent + s + trail;
    TrimOf(indent, s, trail);
    NoHash(kept);
    IndexOfFirst(kept, '#', comment);
    assert kept + "#" + comment == kept + ['#'] + comment;
    assert (kept + "#" + comment)[..|kept|] == kept;
  }

  lemma NoHash(s: string)
    requires '#' !in s
    ensures IndexOf(s, '#') == |s| && s[..|s|] == s
  {
  }

  /** A directive without arguments is read up to its semicolon. */
  lemma BareLeaf(w: string)
    requires IsWord(w) && !HasBreak(w)
    ensures IsLeaf(w + ";") && LeafName(w + ";") == w
  {
    var n := |w| - 1;
    assert !IsBreak(w[n]) && forall i | 0 <= i < |w| :: !IsBreak(w[i]);
    TrimEndMatchesOf(w, ';', ";");
    assert w + "" == w && TrimEndMatches(w, '{') == w;
    WordsOfTrim(w);
    FirstWordIs(w, "");
    CountZero(w + ";", '{');
    CountZero(w + ";", '}');
  }

  // ---------------------------------------------------------------- looking for a text

  /** A text whose ends are no space, semicolon or brace. */
  predicate Solid(p: string) {
    p != "" && SolidChar(p[0]) && SolidChar(p[|p| - 1])
  }

  predicate SolidChar(c: char) {
    !IsWhitespace(c) && !IsBreak(c)
  }

  lemma ContainsWithoutLast(s: string, p: string)
    requires Solid(p) && s != "" && !SolidChar(s[|s| - 1])
    ensures Contains(s, p) <==> Contains(s[..|s| - 1], p)
  {
    var front := s[..|s| - 1];
    if i :| 0 <= i <= |s| && OccursAt(s, i, p) {
      assert s[i..i + |p|][|p| - 1] == p[|p| - 1];
      assert front[i..i + |p|] == s[i..i + |p|];
      assert OccursAt(front, i, p);
    }
    if i :| 0 <= i <= |front| && OccursAt(front, i, p) {
      assert front[i..i + |p|] == s[i..i + |p|];
      assert OccursAt(s, i, p);
    }
  }

  lemma ContainsWithoutFirst(s: string, p: string)
    requires Solid(p) && s != "" && !SolidChar(s[0])
    ensures Contains(s, p) <==> Contains(s[1..], p)
  {
    var back := s[1..];
    if i :| 0 <= i <= |s| && OccursAt(s, i, p) {
      assert s[i..i + |p|][0] == p[0];
      assert back[i - 1..i - 1 + |p|] == s[i..i + |p|];
      assert OccursAt(back, i - 1, p);
    }
    if i :| 0 <= i <= |back| && OccursAt(back, i, p) {
      assert back[i..i + |p|] == s[i + 1..i + 1 + |p|];
      assert OccursAt(s, i + 1, p);
    }
  }

  lemma {:induction false} TrimmedSemicolonsContain(s: string, p: string)
    requires Solid(p)
    ensures Contains(TrimEndMatches(s, ';'), p) <==> Contains(s, p)
  {
    if s != "" && s[|s| - 1] == ';' {
      ContainsWithoutLast(s, p);
      TrimmedSemicolonsContain(s[..|s| - 1], p);
    }
  }

  lemma {:induction false} TrimmedStartContains(s: string, p: string)
    requires Solid(p)
    ensures Contains(TrimStart(s), p) <==> Contains(s, p)
  {
    if s != "" && IsWhitespace(s[0]) {
      ContainsWithoutFirst(s, p);
      TrimmedStartContains(s[1..], p);
    }
  }

  lemma {:induction false} TrimmedEndContains(s: string, p: string)
    requires Solid(p)
    ensures Contains(TrimEnd(s), p) <==> Contains(s, p)
  {
    if s != "" && IsWhitespace(s[|s| - 1]) {
      ContainsWithoutLast(s, p);
      TrimmedEndContains(s[..|s| - 1], p);
    }
  }

  // ---------------------------------------------------------------- sockets

  /** What follows a `proxy_pass` without braces. */
  predicate ProxyRest(rest: string) {
    rest != "" && IsWhitespace(rest[0]) && '{' !in rest && '}' !in rest
  }

  lemma ProxyPassIsAWord()
    ensures IsWord("proxy_pass") && !HasBreak("proxy_pass")
  {
  }

  lemma ProxyTargetOf(rest: string)
    requires ProxyRest(rest)
    ensures ProxyTarget("proxy_pass" + rest) == Trim(TrimEndMatches(rest, ';'))
  {
    ProxyPassIsAWord();
    TrimmedRest("proxy_pass", rest, ';');
    StartTrimmedOnce("proxy_pass", TrimEndMatches(rest, ';'));
  }

  lemma StartTrimmedOnce(w: string, m: string)
    requires w != "" && !IsWhitespace(w[0]) && (m == "" || IsWhitespace(m[0]))
    ensures TrimStartMatches(w + m, w) == m
  {
    assert (w + m)[..|w|] == w && (w + m)[|w|..] == m;
    assert |w| <= |m| ==> m[..|w|][0] == m[0];
  }

  lemma TargetContains(rest: string, p: string)
    requires ProxyRest(rest) && Solid(p)
    ensures Contains(ProxyTarget("proxy_pass" + rest), p) <==> Contains(rest, p)
  {
    ProxyTargetOf(rest);
    var m := TrimEndMatches(rest, ';');
    TrimmedSemicolonsContain(rest, p);
    TrimmedStartContains(m, p);
    TrimmedEndContains(TrimStart(m), p);
  }

  ghost predicate NamesASocket(rest: string) {
    || (exists a, b :: Surrounds(rest, a, "unix:/var/run/docker.sock", b))
    || (exists a, b :: Surrounds(rest, a, "unix:/var/run/podman/", b))
  }

  lemma SocketsAreSolid()
    ensures Solid("unix:/var/run/docker.sock") && Solid("unix:/var/run/podman/")
  {
  }

  lemma DeniedUpstreamIff(rest: string)
    requires ProxyRest(rest)
    ensures NotADeniedUpstream(ProxyTarget("proxy_pass" + rest)) <==> !NamesASocket(rest)
  {
    SocketsAreSolid();
    TargetContains(rest, "unix:/var/run/docker.sock");
    TargetContains(rest, "unix:/var/run/podman/");
    ContainsIff(rest, "unix:/var/run/docker.sock");
    ContainsIff(rest, "unix:/var/run/podman/");
    assert DENIED_UPSTREAMS[0] == "unix:/var/run/docker.sock" && DENIED_UPSTREAMS[1] == "unix:/var/run/podman/";
  }

  lemma ProxyPassIsAllowed()
    ensures "proxy_pass" in LEAVES && "proxy_pass" !in DENIED
  {
    assert LOCATION_LEAVES[0] == "proxy_pass";
    InOneOfFive(EVENTS_LEAVES, HTTP_LEAVES, SERVER_LEAVES, LOCATION_LEAVES, UPSTREAM_LEAVES, "proxy_pass");
  }

  /** A `proxy_pass` is a leaf, and outside of an events block it is refused exactly when what follows
      the word names one of the two sockets. */
  lemma ProxyPassRefusedIff(rest: string, block: string)
    requires ProxyRest(rest) && block != "events"
    ensures IsLeaf("proxy_pass" + rest)
    ensures !LeafAllowed("proxy_pass" + rest, block) <==> NamesASocket(rest)
  {
    ProxyPassIsAWord();
    LeafOf("proxy_pass", rest);
    DeniedUpstreamIff(rest);
    ProxyPassIsAllowed();
  }

  // ---------------------------------------------------------------- the lists

  predicate BlockDirective(d: string) {
    d == "events" || d == "http" || d == "server" || d == "location" || d == "upstream" || d == "map"
  }

  predicate HttpDirective(d: string) {
    || d == "include" || d == "default_type" || d == "sendfile" || d == "tcp_nodelay" || d == "keepalive_timeout"
    || d == "gzip" || d == "gzip_types" || d == "server_tokens" || d == "client_max_body_size" || d == "log_format"
    || d == "access_log" || d == "error_log"
  }

  predicate ServerDirective(d: string) {
    || d == "listen" || d == "server_name" || d == "ssl_certificate" || d == "ssl_certificate_key"
    || d == "ssl_protocols" || d == "ssl_ciphers" || d == "ssl_prefer_server_ciphers" || d == "ssl_session_cache"
    || d == "ssl_session_timeout" || d == "return" || d == "root"
  }

  predicate LocationDirective(d: string) {
    || d == "proxy_pass" || d == "proxy_set_header" || d == "proxy_ssl_server_name" || d == "proxy_http_version"
    || d == "proxy_read_timeout" || d == "proxy_connect_timeout" || d == "proxy_send_timeout" || d == "proxy_buffering"
    || d == "try_files" || d == "rewrite" || d == "expires" || d == "add_header"
  }

  predicate UpstreamDirective(d: string) {
    d == "server" || d == "keepalive" || d == "ip_hash" || d == "least_conn"
  }

  predicate DeniedDirective(d: string) {
    || d == "dgram_access" || d == "perl_modules" || d == "perl_require" || d == "load_module"
    || d == "secure_link_secret" || d == "ssl_engine" || d == "aio" || d == "thread_pool" || d == "js_import"
    || d == "js_content" || d == "client_body_temp_path" || d == "fastcgi_param" || d == "uwsgi_param" || d == "scgi_param"
  }

  lemma ListOfBlocks(d: string)
    ensures d in BLOCKS <==> BlockDirective(d)
  {
  }

  lemma ListOfDenied(d: string)
    ensures d in DENIED <==> DeniedDirective(d)
  {
  }

  lemma ListOfHttpLeaves(d: string)
    ensures d in HTTP_LEAVES <==> HttpDirective(d)
  {
  }

  lemma ListOfServerLeaves(d: string)
    ensures d in SERVER_LEAVES <==> ServerDirective(d)
  {
  }

  lemma ListOfLocationLeaves(d: string)
    ensures d in LOCATION_LEAVES <==> LocationDirective(d)
  {
  }

  lemma ListsOfOtherLeaves(d: string)
    ensures d in UPSTREAM_LEAVES <==> UpstreamDirective(d)
    ensures d in EVENTS_LEAVES <==> d == "worker_connections"
  {
  }

  predicate LeafDirective(d: string, block: string) {
    || d == "worker_connections" || BlockDirective(d)
    || (block != "events" && (HttpDirective(d) || ServerDirective(d) || LocationDirective(d) || UpstreamDirective(d)))
  }

  lemma LeafDirectiveIff(d: string, block: string)
    ensures d in AllowedIn(block) || d in BLOCKS <==> LeafDirective(d, block)
  {
    ListOfBlocks(d);
    ListOfHttpLeaves(d);
    ListOfServerLeaves(d);
    ListOfLocationLeaves(d);
    ListsOfOtherLeaves(d);
    InOneOfFive(EVENTS_LEAVES, HTTP_LEAVES, SERVER_LEAVES, LOCATION_LEAVES, UPSTREAM_LEAVES, d);
  }

  /** A word and its arguments on a line without braces are allowed exactly when the word is a leaf or a
      block name for that block and is not denied, and a `proxy_pass` names no socket. */
  lemma LeafAllowedIff(w: string, rest: string, block: string)
    requires IsWord(w) && !HasBreak(w) && rest != "" && IsWhitespace(rest[0]) && WithoutBraces(rest)
    ensures IsLeaf(w + rest)
    ensures LeafAllowed(w + rest, block) <==>
              LeafDirective(w, block) && !DeniedDirective(w) && (w == "proxy_pass" ==> !NamesASocket(rest))
  {
    LeafOf(w, rest);
    LeafDirectiveIff(w, block);
    ListOfDenied(w);
    if w == "proxy_pass" {
      DeniedUpstreamIff(rest);
    }
  }

  // ---------------------------------------------------------------- one directive in a block

  /** A configuration of one block around one leaf is accepted exactly when the leaf is allowed there. */
  lemma OneLeafAcceptedIff(block: string, line: string)
    requires PlainWord(block) && block in BLOCKS && block !in DENIED
    requires Clean(line) == line && IsLeaf(line)
    ensures Accepted([Opener(block), line, "}"]) <==> LeafAllowed(line, block)
  {
    OpenerLine(block);
    CloserLine();
    if LeafAllowed(line, block) {
      BlockOfOneLeaf(Opener(block), line, "}");
    } else {
      var lines := [Opener(block), line, "}"];
      assert lines[0] == Opener(block) && lines[1] == line;
      assert OpensAt(RULES, lines, 0);
      assert LastOpener(RULES, lines, 0, 1);
      assert !LineOk(RULES, lines, 1);
    }
  }

  /** So it is with a `proxy_pass`, whatever is proxied to. */
  lemma ProxyBlockAcceptedIff(block: string, rest: string)
    requires PlainWord(block) && block in BLOCKS && block !in DENIED && block != "events"
    requires ProxyRest(rest) && '#' !in rest && !IsWhitespace(rest[|rest| - 1])
    ensures Accepted([Opener(block), "proxy_pass" + rest, "}"]) <==> !NamesASocket(rest)
  {
    ProxyPassRefusedIff(rest, block);
    CleanLine("proxy_pass" + rest);
    OneLeafAcceptedIff(block, "proxy_pass" + rest);
  }

  /** Text without braces and comments. */
  predicate Quiet(s: string) {
    '{' !in s && '}' !in s && '#' !in s
  }

  function ProxyPass(before: string, socket: string, after: string): string {
    "proxy_pass" + (" " + before + socket + (after + ";"))
  }

  lemma SocketLine(before: string, socket: string, after: string)
    requires Quiet(before) && Quiet(socket) && Quiet(after)
    ensures var rest := " " + before + socket + (after + ";");
            Quiet(rest) && rest[0] == ' ' && rest[|rest| - 1] == ';' && Surrounds(rest, " " + before, socket, after + ";")
  {
    var rest := " " + before + socket + (after + ";");
    forall c | c == '{' || c == '}' || c == '#' ensures c !in rest {
      assert c !in " " && c !in ";";
    }
  }

  lemma SocketsAreQuiet()
    ensures Quiet("unix:/var/run/docker.sock") && Quiet("unix:/var/run/podman/")
  {
  }

  lemma ProxyBlockRefused(before: string, socket: string, after: string)
    requires Quiet(before) && Quiet(after) && (socket == "unix:/var/run/docker.sock" || socket == "unix:/var/run/podman/")
    ensures !Accepted([Opener("http"), ProxyPass(before, socket, after), "}"])
  {
    HttpIsABlock();
    SocketsAreQuiet();
    SocketLine(before, socket, after);
    ProxyBlockAcceptedIff("http", " " + before + socket + (after + ";"));
  }

  lemma HttpOpener()
    ensures Opener("http") == "http {"
  {
  }

  /** In particular these configurations are refused, whatever stands around the socket. */
  lemma SocketBlocksRefused(before: string, after: string)
    requires Quiet(before) && Quiet(after)
    ensures !Accepted(["http {", "proxy_pass" + (" " + before + "unix:/var/run/docker.sock" + (after + ";")), "}"])
    ensures !Accepted(["http {", "proxy_pass" + (" " + before + "unix:/var/run/podman/" + (after + ";")), "}"])
  {
    HttpOpener();
    ProxyBlockRefused(before, "unix:/var/run/docker.sock", after);
    ProxyBlockRefused(before, "unix:/var/run/podman/", after);
  }

  /** In first position a denied directive does not get through, whatever its arguments. */
  lemma DeniedLeafRefused(denied: string, rest: string, line: string)
    requires denied in DENIED && PlainWord(denied) && line == denied + rest
    requires rest != "" && IsWhitespace(rest[0]) && WithoutBraces(rest) && '#' !in rest && !IsWhitespace(rest[|rest| - 1])
    ensures !Accepted(["http {", line, "}"])
  {
    HttpIsABlock();
    LeafOf(denied, rest);
    CleanLine(line);
    assert Opener("http") == "http {";
    OneLeafAcceptedIff("http", line);
  }

  lemma LoadModuleRefused()
    ensures !Accepted(["http {", "load_module evil.so;", "}"])
  {
    LoadModuleIsDenied();
    DeniedLeafRefused("load_module", " evil.so;", "load_module evil.so;");
  }
}

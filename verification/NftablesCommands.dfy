/**
 What the dashboard's nftables commands do to memory, table and rows, and which chain a tick reports,
 spelt out field by field.
*/
module NftablesCommands {
  import opened AgentState
  import opened Basics
  import opened Nftables

  predicate KnownChain(chain: string) {
    chain == "helmly-global" || chain == "helmly-local" || chain == "helmly-global-output" || chain == "helmly-local-output"
  }

  lemma KnownIff(chain: string, rules: string)
    ensures Known(ChainUpdate(chain, rules)) <==> KnownChain(chain)
  {
    assert chain in CHAINS <==> chain == CHAINS[0] || chain == CHAINS[1] || chain == CHAINS[2] || chain == CHAINS[3];
  }

  /** A chain update sets the rules of that chain and of no other, whether the load works or not; for an
      unknown chain nothing happens. */
  lemma UpdateSetsOneChain(sums: Sums, s: State, chain: string, rules: string, env: Env)
    ensures var (t, ok) := HandleApply(sums, s, ChainUpdate(chain, rules), env);
            && (!KnownChain(chain) ==> t == s && !ok)
            && t.mem.bodies.global == (if chain == "helmly-global" then rules else s.mem.bodies.global)
            && t.mem.bodies.local == (if chain == "helmly-local" then rules else s.mem.bodies.local)
            && t.mem.bodies.globalOutput == (if chain == "helmly-global-output" then rules else s.mem.bodies.globalOutput)
            && t.mem.bodies.localOutput == (if chain == "helmly-local-output" then rules else s.mem.bodies.localOutput)
            && t.mem.port == s.mem.port && t.mem.lock == s.mem.lock
  {
    KnownIff(chain, rules);
    ChainNamesDiffer();
  }

  lemma ChainNamesDiffer()
    ensures |"helmly-global"| == 13 && |"helmly-local"| == 12 && |"helmly-global-output"| == 20 && |"helmly-local-output"| == 19
  {
  }

  /** A full apply takes the port modulo 2^16, 51820 by default, and leaves the rules of the chains. */
  lemma FullApplySetsThePort(sums: Sums, s: State, port: Option<nat>, env: Env)
    ensures var (t, _) := HandleApply(sums, s, FullApply(port), env);
            && t.mem.port == (match port case None => 51820 case Some(p) => p % 65536)
            && t.mem.bodies == s.mem.bodies && t.mem.lock == s.mem.lock
  {
  }

  /** The memory holds the checksums of this table, each under its own name. */
  predicate BaselineIs(sums: Sums, m: Memory, t: Table) {
    && m.checksum == Some(sums.table(t))
    && m.chains.base == sums.chain(t, "helmly-base")
    && m.chains.global == sums.chain(t, "helmly-global")
    && m.chains.local == sums.chain(t, "helmly-local")
  }

  predicate Complete(cmd: ApplyCommand, env: Env) {
    (cmd.ChainUpdate? ==> KnownChain(cmd.chain)) && env.load.Works? && env.listAfter
  }

  /** An apply succeeds when the command is known and load and listing work. Then the table holds just
      the ruleset of the new port and rules, which is remembered as the last one and its checksums as
      the baseline; otherwise what was remembered of that stays. */
  lemma ApplyLoadsTheRuleset(sums: Sums, s: State, cmd: ApplyCommand, env: Env)
    ensures var (t, ok) := HandleApply(sums, s, cmd, env);
            && (ok <==> Complete(cmd, env))
            && (if ok
                then var script := Rendered(Ruleset(t.mem.port, t.mem.bodies));
                     t.live.content == Some([Ours(script)]) && t.mem.last == Some(script) && BaselineIs(sums, t.mem, t.live)
                else t.mem.last == s.mem.last && t.mem.checksum == s.mem.checksum && t.mem.chains == s.mem.chains)
  {
    if cmd.ChainUpdate? {
      KnownIff(cmd.chain, cmd.rules);
    }
  }

  /** What row `r` of the table becomes. */
  function RowAfter(r: NftRow, cmd: ApplyCommand, port: int): NftRow {
    match cmd
    case ChainUpdate(chain, rules) => if r.chain == chain then NftRow(chain, rules, port) else r
    case FullApply(_) => NftRow(r.chain, r.body, port)
  }

  /** The rows follow a successful apply unless the database fails: the one of the chain, or the port of
      all of them. */
  lemma RowsFollowTheApply(sums: Sums, s: State, cmd: ApplyCommand, env: Env)
    ensures var (t, ok) := HandleApply(sums, s, cmd, env);
            if ok && env.db then |t.rows| == |s.rows| && forall i | 0 <= i < |s.rows| :: t.rows[i] == RowAfter(s.rows[i], cmd, t.mem.port)
            else t.rows == s.rows
  {
  }

  /** A restore loads the last ruleset again and takes its checksums; without one it does nothing. */
  lemma RestoreLoadsTheLast(sums: Sums, s: State, env: Env)
    ensures var (t, ok) := Restore(sums, s, env);
            && (ok <==> s.mem.last.Some? && env.load.Works? && env.listAfter)
            && (s.mem.last == None ==> t == s)
            && (ok ==> BaselineIs(sums, t.mem, t.live) && (s.mem.last.value != Blank ==> t.live.content == Some([Ours(s.mem.last.value)])))
            && (!ok ==> t.mem == s.mem) && t.rows == s.rows && t.mem.last == s.mem.last
  {
  }

  /** An accept takes the checksum of the live table and blanks the last ruleset; nothing else changes. */
  lemma AcceptTakesTheLiveTable(sums: Sums, s: State, env: Env)
    ensures var (t, ok) := Accept(sums, s, env);
            && (ok <==> env.listBefore)
            && t.live == s.live && t.rows == s.rows && t.mem.chains == s.mem.chains && t.mem.bodies == s.mem.bodies
            && t.mem.port == s.mem.port && t.mem.lock == s.mem.lock
            && t.mem.checksum == (if ok then Some(sums.table(s.live)) else s.mem.checksum)
            && t.mem.last == (if ok then Some(Blank) else s.mem.last)
  {
  }

  /** The rows of a table with one row for each chain, in the order of their names. */
  function RowsOf(b: Bodies, p: int, q: int, r: int, port: int): seq<NftRow> {
    [NftRow("helmly-global", b.global, p), NftRow("helmly-global-output", b.globalOutput, q),
     NftRow("helmly-local", b.local, r), NftRow("helmly-local-output", b.localOutput, port)]
  }

  lemma ReadsRows(b: Bodies, p: int, q: int, r: int, port: int, acc: Ruleset)
    ensures ReadRows(RowsOf(b, p, q, r, port), acc) == Ruleset(port % 65536, b)
  {
    var rows := RowsOf(b, p, q, r, port);
    ChainNamesDiffer();
    assert rows[1..][1..] == rows[2..] && rows[2..][1..] == rows[3..] && rows[3..][1..] == [];
    ReadsOne(rows, acc);
    ReadsOne(rows[1..], ReadOne(rows[0], acc));
    ReadsOne(rows[2..], ReadOne(rows[1], ReadOne(rows[0], acc)));
    ReadsOne(rows[3..], ReadOne(rows[2], ReadOne(rows[1], ReadOne(rows[0], acc))));
  }

  function ReadOne(row: NftRow, acc: Ruleset): Ruleset {
    Ruleset(Truncate16(row.port), acc.bodies.With(row.chain, row.body))
  }

  lemma ReadsOne(rows: seq<NftRow>, acc: Ruleset)
    requires rows != []
    ensures ReadRows(rows, acc) == ReadRows(rows[1..], ReadOne(rows[0], acc))
  {
  }

  /** A startup takes the rules of every chain from its own row and the port from the last one, and
      loads them. */
  lemma StartupLoadsTheRows(sums: Sums, boot: Table, b: Bodies, p: int, q: int, r: int, port: int, env: Env)
    requires env.db
    ensures var t := Step(sums, State(FRESH, boot, RowsOf(b, p, q, r, port)), Restart(boot, env));
            && t.mem.bodies == b && t.mem.port == port % 65536 && t.mem.lock == Lockdown(false, None)
            && (env.load.Works? ==>
                  && t.live.content == Some([Ours(Rendered(Ruleset(port % 65536, b)))])
                  && t.mem.last == Some(Rendered(Ruleset(port % 65536, b)))
                  && (env.listAfter ==> BaselineIs(sums, t.mem, t.live)) && (!env.listAfter ==> t.mem.checksum == None))
            && (!env.load.Works? ==> t.mem.last == None && t.mem.checksum == None)
  {
    ReadsRows(b, p, q, r, port, Ruleset(51820, Bodies("", "", "", "")));
  }

  // ---------------------------------------------------------------- what a tick reports

  predicate ChainChanged(sums: Sums, before: Table, now: Table, chain: string) {
    sums.chain(before, chain).Some? && sums.chain(before, chain) != sums.chain(now, chain)
  }

  /** After an edit a tick names the first of base, global and local whose listing has changed. */
  lemma EditIsReported(sums: Sums, m: Memory, before: Table, edited: Table, rows: seq<NftRow>)
    requires BaselineIs(sums, m, before)
    ensures var base := ChainChanged(sums, before, edited, "helmly-base");
            var global := ChainChanged(sums, before, edited, "helmly-global");
            var local := ChainChanged(sums, before, edited, "helmly-local");
            Reported(sums, State(m, edited, rows))
              == if base then "helmly-base" else if global then "helmly-global" else if local then "helmly-local" else "unknown"
  {
  }
}

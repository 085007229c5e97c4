/**
 The nftables control loop: dashboard commands (internal/handlers/nftables.rs), the divergence tick
 (internal/nftables/divergence.rs) and the reload at startup (internal/main.rs).

 The live table carries a generation besides its rules, because the listing that is hashed shows
 more than the text that was loaded. The checksum is a function parameter. Every command and every
 tick is one atomic step; others edit the table between steps, and any call of `nft` may fail.
 */
module Nftables {
  import opened Basics
  import opened AgentState

  type u16 = n: nat | n < 0x1_0000

  datatype Bodies = Bodies(global: string, local: string, globalOutput: string, localOutput: string) {

    function With(chain: string, body: string): Bodies {
      match chain
      case "helmly-global" => this.(global := body)
      case "helmly-local" => this.(local := body)
      case "helmly-global-output" => this.(globalOutput := body)
      case "helmly-local-output" => this.(localOutput := body)
      case _ => this
    }

    function Of(chain: string): string {
      match chain
      case "helmly-global" => global
      case "helmly-local" => local
      case "helmly-global-output" => globalOutput
      case _ => localOutput
    }
  }

  const CHAINS: seq<string> := ["helmly-global", "helmly-global-output", "helmly-local", "helmly-local-output"]

  datatype Ruleset = Ruleset(wgPort: u16, bodies: Bodies)

  /** A text that is piped into `nft -f -`. `Blank` is the empty text, which holds no command. */
  datatype Script = Rendered(ruleset: Ruleset) | Emergency | Blank

  /** The chains and rules that one block of a script adds, or what somebody else has put there. */
  datatype Block = Ours(script: Script) | Foreign(rules: string)

  /** What the kernel holds under the table's name: nothing, or a table made of what was added to it. */
  type Content = Option<seq<Block>>

  datatype Table = Table(content: Content, generation: nat)

  /** `destroy table`, which is content when there is none, `add table`, and `table ... { ... }`,
      which adds its chains and rules to those already there. */
  datatype NftCommand = Destroy | AddTable | AddBlock(block: Block)

  function Execute(content: Content, cmd: NftCommand): Content {
    match cmd
    case Destroy => None
    case AddTable => if content.None? then Some([]) else content
    case AddBlock(block) => Some((if content.Some? then content.value else []) + [block])
  }

  function Commands(script: Script): seq<NftCommand> {
    if script.Blank? then [] else [Destroy, AddTable, AddBlock(Ours(script))]
  }

  function Loaded(script: Script): Content {
    Some([Ours(script)])
  }

  /** A script runs as one transaction, and a listing afterwards shows a new generation. */
  function Apply(live: Table, script: Script): (t: Table)
    ensures !script.Blank? ==> t == Table(Loaded(script), live.generation + 1)
  {
    ScriptReplaces(live.content, script);
    if Commands(script) == [] then live
    else Table(Final(Execute, live.content, Commands(script)), live.generation + 1)
  }

  lemma ScriptReplaces(content: Content, script: Script)
    ensures !script.Blank? ==> Final(Execute, content, Commands(script)) == Loaded(script)
  {
    if !script.Blank? {
      assert [] + [Ours(script)] == [Ours(script)];
      StatesAlong(Execute, content, Commands(script), [content, None, Some([]), Loaded(script)], 3);
    }
  }

  /** One apply is a total replacement, whatever the table was, exactly unless the text is blank. */
  lemma LoadReplacesTheTable(live: Table, other: Table, script: Script)
    ensures Apply(live, script).content == Apply(other, script).content <==> !script.Blank? || live.content == other.content
  {
  }

  /** That is owed to the first command: without it rules pile up, and the outcome is the script's own
      exactly on an empty or missing table. */
  lemma WithoutDestroyRulesPileUp(content: Content, script: Script)
    requires !script.Blank?
    ensures Final(Execute, content, Commands(script)[1..]) == Loaded(script) <==> content == None || content == Some([])
  {
    var blocks := if content.Some? then content.value else [];
    StatesAlong(Execute, content, Commands(script)[1..], [content, Some(blocks), Some(blocks + [Ours(script)])], 2);
    assert |blocks + [Ours(script)]| == |blocks| + 1;
    assert [] + [Ours(script)] == [Ours(script)];
  }

  // ---------------------------------------------------------------- state

  /** A row of `nftables_state`, which is kept and read in the order of its key. */
  datatype NftRow = NftRow(chain: string, body: string, port: int)

  predicate Seeded(rows: seq<NftRow>) {
    |rows| == |CHAINS| && forall i | 0 <= i < |rows| :: rows[i].chain == CHAINS[i]
  }

  /** The checksum of a table and, where the chain can be listed, of one chain. */
  datatype Sums = Sums(table: Table -> string, chain: (Table, string) -> Option<string>)

  datatype ChainSums = ChainSums(base: Option<string>, global: Option<string>, local: Option<string>)

  datatype Memory = Memory(
    checksum: Option<string>,
    chains: ChainSums,
    last: Option<Script>,
    bodies: Bodies,
    port: u16,
    lock: Lockdown)

  const FRESH := Memory(None, ChainSums(None, None, None), None, Bodies("", "", "", ""), 51820, Lockdown(false, None))

  datatype State = State(mem: Memory, live: Table, rows: seq<NftRow>)

  function CurrentRuleset(m: Memory): Ruleset {
    Ruleset(m.port, m.bodies)
  }

  // ---------------------------------------------------------------- one command or tick

  /** A failing `nft` may leave any table behind. */
  datatype Nft = Works | Fails(left: Table)

  /** What one command or tick meets: the listing before it, the load, the listing after it, the
      emergency load, and the database. */
  datatype Env = Env(listBefore: bool, load: Nft, listAfter: bool, emergency: Nft, db: bool)

  function LoadScript(live: Table, script: Script, nft: Nft): Table {
    if nft.Works? then Apply(live, script) else nft.left
  }

  function ChainsOf(sums: Sums, t: Table): ChainSums {
    ChainSums(sums.chain(t, "helmly-base"), sums.chain(t, "helmly-global"), sums.chain(t, "helmly-local"))
  }

  function WithBaseline(sums: Sums, m: Memory, t: Table): Memory {
    m.(checksum := Some(sums.table(t)), chains := ChainsOf(sums, t))
  }

  /** `apply_current_ruleset` */
  function ApplyCurrent(sums: Sums, s: State, env: Env): (State, bool) {
    var script := Rendered(CurrentRuleset(s.mem));
    var t := s.(live := LoadScript(s.live, script, env.load));
    if env.load.Works? && env.listAfter
    then (t.(mem := WithBaseline(sums, s.mem, t.live).(last := Some(script))), true)
    else (t, false)
  }

  datatype ApplyCommand = ChainUpdate(chain: string, rules: string) | FullApply(port: Option<nat>)

  /** `as u16` */
  function Truncate16(n: int): u16 {
    n % 0x1_0000
  }

  function SetRow(rows: seq<NftRow>, chain: string, body: string, port: int): seq<NftRow> {
    seq(|rows|, i requires 0 <= i < |rows| => if rows[i].chain == chain then NftRow(chain, body, port) else rows[i])
  }

  function SetPorts(rows: seq<NftRow>, port: int): seq<NftRow> {
    seq(|rows|, i requires 0 <= i < |rows| => rows[i].(port := port))
  }

  predicate Known(cmd: ApplyCommand) {
    cmd.ChainUpdate? ==> cmd.chain in CHAINS
  }

  /** The memory that `handle_nftables_apply` sets before it applies anything. */
  function Prepare(m: Memory, cmd: ApplyCommand): Memory {
    match cmd
    case ChainUpdate(chain, rules) => m.(bodies := m.bodies.With(chain, rules))
    case FullApply(port) => m.(port := Truncate16(if port.Some? then port.value else 51820))
  }

  function Persist(rows: seq<NftRow>, m: Memory, cmd: ApplyCommand): seq<NftRow> {
    match cmd
    case ChainUpdate(chain, rules) => SetRow(rows, chain, rules, m.port)
    case FullApply(_) => SetPorts(rows, m.port)
  }

  /** `handle_nftables_apply` past the permission gate. */
  function HandleApply(sums: Sums, s: State, cmd: ApplyCommand, env: Env): (State, bool) {
    if !Known(cmd) then (s, false)
    else
      var (t, ok) := ApplyCurrent(sums, s.(mem := Prepare(s.mem, cmd)), env);
      (if ok && env.db then t.(rows := Persist(t.rows, t.mem, cmd)) else t, ok)
  }

  /** `restore_with`, and `handle_nftables_restore` past the permission gate. */
  function Restore(sums: Sums, s: State, env: Env): (State, bool) {
    if s.mem.last.None? then (s, false)
    else
      var t := s.(live := LoadScript(s.live, s.mem.last.value, env.load));
      if env.load.Works? && env.listAfter then (t.(mem := WithBaseline(sums, t.mem, t.live)), true) else (t, false)
  }

  /** `handle_nftables_accept` past the permission gate. */
  function Accept(sums: Sums, s: State, env: Env): (State, bool) {
    if env.listBefore
    then (s.(mem := s.mem.(checksum := Some(sums.table(s.live)), last := Some(Blank))), true)
    else (s, false)
  }

  /** `check_once_with` */
  function Tick(sums: Sums, s: State, env: Env): State {
    if s.mem.checksum.None? || !env.listBefore || s.mem.checksum.value == sums.table(s.live) then s
    else
      var (t, ok) := Restore(sums, s, env);
      if ok then t
      else t.(live := LoadScript(t.live, Emergency, env.emergency), mem := t.mem.(lock := t.mem.lock.Set(NftablesFailure)))
  }

  predicate Diverged(sums: Sums, expected: Option<string>, live: Table, chain: string) {
    expected.Some? && expected != sums.chain(live, chain)
  }

  /** The chain that a tick tells the dashboard about. */
  function Reported(sums: Sums, s: State): string {
    if Diverged(sums, s.mem.chains.base, s.live, "helmly-base") then "helmly-base"
    else if Diverged(sums, s.mem.chains.global, s.live, "helmly-global") then "helmly-global"
    else if Diverged(sums, s.mem.chains.local, s.live, "helmly-local") then "helmly-local"
    else "unknown"
  }

  /** Bodies and port as the startup loop reads them off the rows, the port of the last row winning. */
  function ReadRows(rows: seq<NftRow>, acc: Ruleset): Ruleset {
    if rows == [] then acc
    else ReadRows(rows[1..], Ruleset(Truncate16(rows[0].port), acc.bodies.With(rows[0].chain, rows[0].body)))
  }

  function Startup(sums: Sums, s: State, env: Env): State {
    if !env.db then s
    else
      var ruleset := ReadRows(s.rows, Ruleset(51820, Bodies("", "", "", "")));
      var m := s.mem.(port := ruleset.wgPort, bodies := ruleset.bodies);
      var t := s.(mem := m, live := LoadScript(s.live, Rendered(ruleset), env.load));
      if env.load.Fails? then t
      else
        t.(mem := m.(checksum := if env.listAfter then Some(sums.table(t.live)) else m.checksum,
                     chains := ChainsOf(sums, t.live),
                     last := Some(Rendered(ruleset))))
  }

  // ---------------------------------------------------------------- the controller

  class Controller {
    const sums: Sums
    var mem: Memory
    var live: Table
    var rows: seq<NftRow>

    function View(): State
      reads this
    {
      State(mem, live, rows)
    }

    constructor (sums: Sums, live: Table, rows: seq<NftRow>)
      ensures this.sums == sums && View() == State(FRESH, live, rows)
    {
      this.sums := sums;
      this.mem := FRESH;
      this.live := live;
      this.rows := rows;
    }

    method RunNft(script: Script, nft: Nft) returns (ok: bool)
      modifies this`live
      ensures live == LoadScript(old(live), script, nft) && (ok <==> nft.Works?)
    {
      live := LoadScript(live, script, nft);
      ok := nft.Works?;
    }

    method SetBaseline()
      modifies this`mem
      ensures mem == WithBaseline(sums, old(mem), live)
    {
      mem := mem.(checksum := Some(sums.table(live)));
      mem := mem.(chains := ChainsOf(sums, live));
    }

    method ApplyCurrentRuleset(env: Env) returns (ok: bool)
      modifies this
      ensures (View(), ok) == ApplyCurrent(sums, old(View()), env)
    {
      var script := Rendered(CurrentRuleset(mem));
      var loaded := RunNft(script, env.load);
      if !loaded || !env.listAfter {
        return false;
      }
      SetBaseline();
      mem := mem.(last := Some(script));
      ok := true;
    }

    method HandleNftablesApply(cmd: ApplyCommand, env: Env) returns (ok: bool)
      modifies this
      ensures (View(), ok) == HandleApply(sums, old(View()), cmd, env)
    {
      match cmd {
        case ChainUpdate(chain, rules) =>
          if chain !in CHAINS {
            return false;
          }
          mem := mem.(bodies := mem.bodies.With(chain, rules));
          ok := ApplyCurrentRuleset(env);
          if ok && env.db {
            rows := SetRow(rows, chain, rules, mem.port);
          }
        case FullApply(requested) =>
          var port := Truncate16(if requested.Some? then requested.value else 51820);
          mem := mem.(port := port);
          ok := ApplyCurrentRuleset(env);
          if ok && env.db {
            rows := SetPorts(rows, port);
          }
      }
    }

    method HandleNftablesRestore(env: Env) returns (ok: bool)
      modifies this
      ensures (View(), ok) == Restore(sums, old(View()), env)
    {
      if mem.last.None? {
        return false;
      }
      var loaded := RunNft(mem.last.value, env.load);
      if !loaded || !env.listAfter {
        return false;
      }
      SetBaseline();
      ok := true;
    }

    method HandleNftablesAccept(env: Env) returns (ok: bool)
      modifies this`mem
      ensures (View(), ok) == Accept(sums, old(View()), env)
    {
      if !env.listBefore {
        return false;
      }
      mem := mem.(checksum := Some(sums.table(live)));
      mem := mem.(last := Some(Blank));
      ok := true;
    }

    predicate IsChainDiverged(expected: Option<string>, chain: string)
      reads this
    {
      Diverged(sums, expected, live, chain)
    }

    /** One divergence check, with the chain it reports to the dashboard. */
    method CheckOnce(env: Env) returns (notified: Option<string>)
      modifies this
      ensures View() == Tick(sums, old(View()), env)
      ensures notified.None? <==> old(mem.checksum.None?) || !env.listBefore || old(mem.checksum) == Some(sums.table(old(live)))
      ensures notified.Some? ==> notified.value == Reported(sums, old(View()))
    {
      if mem.checksum.None? || !env.listBefore {
        return None;
      }
      if sums.table(live) == mem.checksum.value {
        return None;
      }
      var baseDiverged := IsChainDiverged(mem.chains.base, "helmly-base");
      var globalDiverged := IsChainDiverged(mem.chains.global, "helmly-global");
      var localDiverged := IsChainDiverged(mem.chains.local, "helmly-local");
      var restored := HandleNftablesRestore(env);
      if !restored {
        var _ := RunNft(Emergency, env.emergency);
        mem := mem.(lock := mem.lock.Set(NftablesFailure));
      }
      notified := Some(if baseDiverged then "helmly-base" else if globalDiverged then "helmly-global"
                       else if localDiverged then "helmly-local" else "unknown");
    }

    method StartupReload(env: Env)
      modifies this
      ensures View() == Startup(sums, old(View()), env)
    {
      if !env.db {
        return;
      }
      var bodies := Bodies("", "", "", "");
      var port: u16 := 51820;
      var i := 0;
      while i < |rows|
        invariant 0 <= i <= |rows|
        invariant View() == old(View())
        invariant ReadRows(rows[i..], Ruleset(port, bodies)) == ReadRows(rows, Ruleset(51820, Bodies("", "", "", "")))
      {
        bodies := bodies.With(rows[i].chain, rows[i].body);
        port := Truncate16(rows[i].port);
        assert rows[i..][1..] == rows[i + 1..];
        i := i + 1;
      }
      mem := mem.(bodies := bodies, port := port);
      var script := Rendered(Ruleset(port, bodies));
      var loaded := RunNft(script, env.load);
      if loaded {
        if env.listAfter {
          mem := mem.(checksum := Some(sums.table(live)));
        }
        mem := mem.(chains := ChainsOf(sums, live));
        mem := mem.(last := Some(script));
      }
    }
  }

  // ---------------------------------------------------------------- runs

  datatype Event =
    | Edit(table: Table)
    | TickEvent(env: Env)
    | ApplyEvent(cmd: ApplyCommand, env: Env)
    | RestoreEvent(env: Env)
    | AcceptEvent(env: Env)
    | Restart(boot: Table, env: Env)

  function Step(sums: Sums, s: State, e: Event): State {
    match e
    case Edit(table) => s.(live := table)
    case TickEvent(env) => Tick(sums, s, env)
    case ApplyEvent(cmd, env) => HandleApply(sums, s, cmd, env).0
    case RestoreEvent(env) => Restore(sums, s, env).0
    case AcceptEvent(env) => Accept(sums, s, env).0
    case Restart(boot, env) => Startup(sums, State(FRESH, boot, s.rows), env)
  }

  function Machine(sums: Sums): (State, Event) -> State {
    (s: State, e: Event) => Step(sums, s, e)
  }

  function StateAt(sums: Sums, s: State, events: seq<Event>, n: nat): State
    requires n <= |events|
  {
    StateAfter(Machine(sums), s, events, n)
  }

  function Run(sums: Sums, s: State, events: seq<Event>): State {
    Final(Machine(sums), s, events)
  }

  // ---------------------------------------------------------------- the baseline

  /** The checksum is that of the script as loaded in some generation. */
  predicate IsChecksumOf(sums: Sums, checksum: string, script: Script, generation: nat) {
    checksum == sums.table(Table(Loaded(script), generation))
  }

  predicate Accepted(m: Memory) {
    m.last == Some(Blank)
  }

  ghost predicate Baseline(sums: Sums, m: Memory) {
    && (m.last.Some? ==> !m.last.value.Emergency?)
    && (m.checksum.Some? ==> m.last.Some?)
    && (m.checksum.Some? && !Accepted(m) ==> exists g: nat :: IsChecksumOf(sums, m.checksum.value, m.last.value, g))
  }

  lemma StepKeepsBaseline(sums: Sums, s: State, e: Event)
    requires Baseline(sums, s.mem)
    ensures Baseline(sums, Step(sums, s, e).mem)
  {
    var t := Step(sums, s, e);
    if t.mem.checksum.Some? && !Accepted(t.mem) && (t.mem.checksum != s.mem.checksum || t.mem.last != s.mem.last) {
      assert IsChecksumOf(sums, t.mem.checksum.value, t.mem.last.value, t.live.generation);
    }
  }

  /**
   In every run, whatever others do to the table and whatever fails, the expected checksum is unset
   or that of a table produced by loading the last ruleset, save between an `nftables.accept` and
   the next apply.
   */
  lemma {:induction false} ControllerBaseline(sums: Sums, s: State, events: seq<Event>, n: nat)
    requires Baseline(sums, s.mem) && n <= |events|
    ensures Baseline(sums, StateAt(sums, s, events, n).mem)
  {
    if n > 0 {
      ControllerBaseline(sums, s, events, n - 1);
      StepKeepsBaseline(sums, StateAt(sums, s, events, n - 1), events[n - 1]);
    }
  }

  /** The event gets as far as a listing that becomes the expected checksum. A tick never does so
      without having one to compare with. */
  predicate SetsChecksum(s: State, e: Event) {
    match e
    case ApplyEvent(cmd, env) => Known(cmd) && env.load.Works? && env.listAfter
    case RestoreEvent(env) => s.mem.last.Some? && env.load.Works? && env.listAfter
    case AcceptEvent(env) => env.listBefore
    case Restart(_, env) => env.db && env.load.Works? && env.listAfter
    case _ => false
  }

  predicate IsRestart(s: State, e: Event) {
    e.Restart?
  }

  predicate HasChecksum(s: State) {
    s.mem.checksum.Some?
  }

  lemma StepSetsChecksum(sums: Sums, s: State, e: Event)
    ensures HasChecksum(Step(sums, s, e)) <==> SetsChecksum(s, e) || (HasChecksum(s) && !IsRestart(s, e))
  {
  }

  /** Divergence can be seen at all exactly when, since the last restart, some apply, restore, accept
      or startup has got as far as its listing. */
  lemma ChecksumSetIff(sums: Sums, s: State, events: seq<Event>, n: nat)
    requires !HasChecksum(s) && n <= |events|
    ensures HasChecksum(StateAt(sums, s, events, n))
       <==> Since(Occurs(Machine(sums), s, events, SetsChecksum), Occurs(Machine(sums), s, events, IsRestart), n)
  {
    var always := (_: State) => true;
    forall x, e ensures SwitchesAt(Machine(sums), always, HasChecksum, SetsChecksum, IsRestart, x, e) {
      StepSetsChecksum(sums, x, e);
    }
    SinceInRuns(Machine(sums), s, events, always, HasChecksum, SetsChecksum, IsRestart, n);
  }

  predicate Working(env: Env) {
    env.listBefore && env.load.Works? && env.listAfter
  }

  /** The live table cannot be mistaken for the last ruleset. */
  ghost predicate Recognizable(sums: Sums, live: Table, script: Script) {
    forall g: nat {:trigger IsChecksumOf(sums, sums.table(live), script, g)} ::
      IsChecksumOf(sums, sums.table(live), script, g) ==> live.content == Loaded(script)
  }

  predicate RestoredBy(sums: Sums, s: State, t: State) {
    && s.mem.last.Some? && !s.mem.last.value.Blank? && t.live.content == Loaded(s.mem.last.value)
    && t.mem.checksum == Some(sums.table(t.live))
    && t.mem.last == s.mem.last && t.mem.lock == s.mem.lock
  }

  /** A checksum to compare with and a ruleset to put back. */
  predicate Guarded(m: Memory) {
    m.checksum.Some? && m.last.Some? && !Accepted(m)
  }

  /**
   After every run, as soon as `nft` works again one tick makes the live table the last ruleset, also
   when an earlier restore had failed and left the emergency rules or anything else behind, exactly
   when a checksum is set and the last ruleset has not been accepted away; ticks after that change
   nothing until somebody edits the table.
   */
  lemma OneTickRestores(sums: Sums, events: seq<Event>, boot: Table, rows: seq<NftRow>, s: State, env: Env, later: Env)
    requires s == Run(sums, State(FRESH, boot, rows), events) && Working(env)
    requires Guarded(s.mem) ==> Recognizable(sums, s.live, s.mem.last.value)
    ensures RestoredBy(sums, s, Tick(sums, s, env)) <==> Guarded(s.mem)
    ensures s.mem.checksum.Some? ==> Guarded(s.mem) || Accepted(s.mem)
    ensures Tick(sums, Tick(sums, s, env), later) == Tick(sums, s, env)
  {
    ControllerBaseline(sums, State(FRESH, boot, rows), events, |events|);
    if Guarded(s.mem) {
      var g: nat :| IsChecksumOf(sums, s.mem.checksum.value, s.mem.last.value, g);
      if s.mem.checksum.value == sums.table(s.live) {
        assert IsChecksumOf(sums, sums.table(s.live), s.mem.last.value, g);
      }
    }
  }

  /** Lockdown follows every failed restore, whether or not the emergency rules could be loaded. */
  lemma FailedRestoreLocks(sums: Sums, s: State, env: Env)
    requires s.mem.checksum.Some? && env.listBefore && s.mem.checksum.value != sums.table(s.live)
    ensures var t := Tick(sums, s, env);
            if s.mem.last.Some? && env.load.Works? && env.listAfter then t.mem.lock == s.mem.lock
            else t.mem.lock == Lockdown(true, Some(NftablesFailure))
                 && (env.emergency.Works? ==> t.live.content == Loaded(Emergency))
                 && t.mem.checksum == s.mem.checksum && t.mem.last == s.mem.last
  {
  }

  predicate IsLive(s: State) {
    s.mem.last.Some? && s.live.content == Loaded(s.mem.last.value)
  }

  /**
   When other rules are live than the last ruleset, and do not hash like it, a working tick puts the
   last ruleset back exactly when a checksum is set and the ruleset is there and not blank. After
   `nftables.accept` it is blank, and the tick takes the changed table as the new baseline; with no
   checksum the tick does nothing.
   */
  lemma TickRestoresIffGuarded(sums: Sums, s: State, env: Env)
    requires Working(env) && !IsLive(s) && s.mem.checksum != Some(sums.table(s.live))
    ensures IsLive(Tick(sums, s, env)) <==> Guarded(s.mem)
    ensures s.mem.checksum.None? ==> Tick(sums, s, env) == s
    ensures s.mem.checksum.Some? && Accepted(s.mem) ==>
              Tick(sums, s, env).live == s.live && Tick(sums, s, env).mem.checksum == Some(sums.table(s.live))
  {
  }

  lemma AcceptBlanksTheRuleset(sums: Sums, s: State, accepting: Env, edited: Table, env: Env)
    requires accepting.listBefore && Working(env) && sums.table(edited) != sums.table(s.live)
    ensures Run(sums, s, [AcceptEvent(accepting), Edit(edited), TickEvent(env)]).live == edited
    ensures Run(sums, s, [AcceptEvent(accepting), Edit(edited), TickEvent(env)]).mem.checksum == Some(sums.table(edited))
  {
    var events := [AcceptEvent(accepting), Edit(edited), TickEvent(env)];
    var s1 := Step(sums, s, events[0]);
    var s2 := Step(sums, s1, events[1]);
    StatesAlong(Machine(sums), s, events, [s, s1, s2, Step(sums, s2, events[2])], 3);
  }

  /** A startup whose load works and whose listing fails has a ruleset but no checksum: whatever
      others make of the table then stays, and no later tick changes that. */
  lemma StartupWithoutListingIsUnguarded(sums: Sums, s: State, boot: Table, starting: Env, edited: Table, env: Env)
    requires starting.db && starting.load.Works? && !starting.listAfter
    ensures var t := Run(sums, s, [Restart(boot, starting), Edit(edited), TickEvent(env)]);
            && t.live == edited && t.mem.checksum.None?
            && t.mem.last == Some(Rendered(RestartRuleset(s.rows))) && Tick(sums, t, env) == t
  {
    var events := [Restart(boot, starting), Edit(edited), TickEvent(env)];
    var s1 := Step(sums, s, events[0]);
    var s2 := Step(sums, s1, events[1]);
    StatesAlong(Machine(sums), s, events, [s, s1, s2, Step(sums, s2, events[2])], 3);
  }

  // ---------------------------------------------------------------- restart

  predicate RowAgrees(row: NftRow, m: Memory) {
    row.body == m.bodies.Of(row.chain) && row.port == m.port
  }

  /** The table `nftables_state` says what the memory says. */
  predicate InStep(s: State) {
    Seeded(s.rows) && forall i | 0 <= i < |s.rows| :: RowAgrees(s.rows[i], s.mem)
  }

  /** What a restart would load. */
  function RestartRuleset(rows: seq<NftRow>): Ruleset {
    ReadRows(rows, Ruleset(51820, Bodies("", "", "", "")))
  }

  lemma ReadSeededRows(rows: seq<NftRow>)
    requires Seeded(rows)
    ensures RestartRuleset(rows)
         == Ruleset(Truncate16(rows[3].port), Bodies(rows[0].body, rows[2].body, rows[1].body, rows[3].body))
  {
    var b0 := Bodies("", "", "", "");
    var r1 := Ruleset(Truncate16(rows[0].port), b0.(global := rows[0].body));
    var r2 := Ruleset(Truncate16(rows[1].port), r1.bodies.(globalOutput := rows[1].body));
    var r3 := Ruleset(Truncate16(rows[2].port), r2.bodies.(local := rows[2].body));
    var r4 := Ruleset(Truncate16(rows[3].port), r3.bodies.(localOutput := rows[3].body));
    assert rows[1..][1..] == rows[2..] && rows[2..][1..] == rows[3..] && rows[3..][1..] == [];
    assert ReadRows(rows[3..], r3) == r4;
    assert ReadRows(rows[2..], r2) == ReadRows(rows[3..], r3);
    assert ReadRows(rows[1..], r1) == ReadRows(rows[2..], r2);
  }

  lemma RestartReadsTheMemory(s: State)
    requires InStep(s)
    ensures RestartRuleset(s.rows) == CurrentRuleset(s.mem)
  {
    ReadSeededRows(s.rows);
    assert forall i | 0 <= i < 4 :: RowAgrees(s.rows[i], s.mem);
  }

  /** Every step of the command, down to the row update, went well. */
  predicate Completes(env: Env) {
    env.load.Works? && env.listAfter && env.db
  }

  /** The command asks for something else than what is in memory. */
  predicate Changes(m: Memory, cmd: ApplyCommand) {
    Known(cmd) && Prepare(m, cmd) != m
  }

  lemma WithOf(b: Bodies, chain: string, body: string, other: string)
    requires chain in CHAINS && other in CHAINS
    ensures b.With(chain, body).Of(other) == if other == chain then body else b.Of(other)
    ensures b.With(chain, b.Of(chain)) == b
  {
  }

  lemma PersistAgrees(rows: seq<NftRow>, m: Memory, cmd: ApplyCommand)
    requires Seeded(rows) && Known(cmd) && forall i | 0 <= i < |rows| :: RowAgrees(rows[i], m)
    ensures Seeded(Persist(rows, Prepare(m, cmd), cmd))
    ensures forall i | 0 <= i < |rows| :: RowAgrees(Persist(rows, Prepare(m, cmd), cmd)[i], Prepare(m, cmd))
  {
    forall i | 0 <= i < |rows| ensures RowAgrees(Persist(rows, Prepare(m, cmd), cmd)[i], Prepare(m, cmd)) {
      assert RowAgrees(rows[i], m);
      assert rows[i].chain in CHAINS;
      if cmd.ChainUpdate? {
        WithOf(m.bodies, cmd.chain, cmd.rules, rows[i].chain);
      }
    }
  }

  lemma UnchangedRowsDisagree(s: State, cmd: ApplyCommand)
    requires InStep(s) && Changes(s.mem, cmd)
    ensures !InStep(s.(mem := Prepare(s.mem, cmd)))
  {
    var t := s.(mem := Prepare(s.mem, cmd));
    match cmd
    case FullApply(_) =>
      assert RowAgrees(s.rows[0], s.mem) && !RowAgrees(t.rows[0], t.mem);
    case ChainUpdate(chain, rules) =>
      var i :| 0 <= i < |CHAINS| && CHAINS[i] == chain;
      assert s.rows[i].chain == chain && RowAgrees(s.rows[i], s.mem);
      WithOf(s.mem.bodies, chain, rules, chain);
      assert !RowAgrees(t.rows[i], t.mem);
  }

  /**
   The table stays in step with the memory exactly when the command runs to completion or asks for
   nothing new: the memory is set first, and nothing sets it back when the load, the listing or the
   row update fails.
   */
  lemma ApplyStaysInStepIff(sums: Sums, s: State, cmd: ApplyCommand, env: Env)
    requires InStep(s)
    ensures InStep(HandleApply(sums, s, cmd, env).0) <==> Completes(env) || !Changes(s.mem, cmd)
  {
    var t := HandleApply(sums, s, cmd, env).0;
    if Known(cmd) {
      var prepared := s.(mem := Prepare(s.mem, cmd));
      if Completes(env) {
        PersistAgrees(s.rows, s.mem, cmd);
        assert forall i | 0 <= i < |t.rows| :: RowAgrees(t.rows[i], prepared.mem) ==> RowAgrees(t.rows[i], t.mem);
      } else {
        assert t.rows == s.rows && t.mem.bodies == prepared.mem.bodies && t.mem.port == prepared.mem.port;
        assert InStep(t) <==> InStep(prepared) by {
          assert forall i | 0 <= i < |t.rows| :: RowAgrees(t.rows[i], t.mem) <==> RowAgrees(prepared.rows[i], prepared.mem);
        }
        if Changes(s.mem, cmd) {
          UnchangedRowsDisagree(s, cmd);
        }
      }
    }
  }

  predicate AppliesComplete(e: Event) {
    (e.ApplyEvent? ==> Completes(e.env)) && (e.Restart? ==> e.env.db)
  }

  /** In step, and the last ruleset loaded is the one in memory. */
  predicate Equivalent(s: State) {
    InStep(s) && (s.mem.last.Some? && s.mem.last.value.Rendered? ==> s.mem.last.value.ruleset == CurrentRuleset(s.mem))
  }

  lemma StepKeepsEquivalent(sums: Sums, s: State, e: Event)
    requires Equivalent(s) && AppliesComplete(e)
    ensures Equivalent(Step(sums, s, e))
  {
    var t := Step(sums, s, e);
    if e.ApplyEvent? {
      ApplyStaysInStepIff(sums, s, e.cmd, e.env);
    } else if e.Restart? {
      ReadSeededRows(s.rows);
      RestartReadsTheMemory(s);
      assert t.mem.bodies == s.mem.bodies && t.mem.port == s.mem.port;
      assert forall i | 0 <= i < |t.rows| :: RowAgrees(s.rows[i], s.mem) ==> RowAgrees(t.rows[i], t.mem);
    } else {
      assert t.rows == s.rows && t.mem.bodies == s.mem.bodies && t.mem.port == s.mem.port;
      assert forall i | 0 <= i < |t.rows| :: RowAgrees(s.rows[i], s.mem) ==> RowAgrees(t.rows[i], t.mem);
    }
  }

  lemma {:induction false} RunKeepsEquivalent(sums: Sums, s: State, events: seq<Event>, n: nat)
    requires Equivalent(s) && n <= |events| && forall e | e in events :: AppliesComplete(e)
    ensures Equivalent(StateAt(sums, s, events, n))
  {
    if n > 0 {
      RunKeepsEquivalent(sums, s, events, n - 1);
      StepKeepsEquivalent(sums, StateAt(sums, s, events, n - 1), events[n - 1]);
    }
  }

  /** In every run whose applies complete, a restart renders the ruleset that was loaded last. */
  lemma RestartEquivalence(sums: Sums, s: State, events: seq<Event>)
    requires Equivalent(s) && forall e | e in events :: AppliesComplete(e)
    ensures var t := Run(sums, s, events);
            && Equivalent(t) && RestartRuleset(t.rows) == CurrentRuleset(t.mem)
            && (t.mem.last.Some? && t.mem.last.value.Rendered? ==> t.mem.last.value == Rendered(RestartRuleset(t.rows)))
  {
    RunKeepsEquivalent(sums, s, events, |events|);
    RestartReadsTheMemory(Run(sums, s, events));
  }

  /**
   One failed full apply is enough to lose this for good: the next successful chain update loads the
   new port and records it in its own row only, so a restart comes back with the old port unless
   that row happens to be the last one read.
   */
  lemma FailedApplyShowsAtRestart(sums: Sums, s: State, port: u16, failing: Env, chain: string, rules: string, env: Env)
    requires InStep(s) && port != s.mem.port && failing.load.Fails? && Completes(env) && chain in CHAINS
    ensures var t := Step(sums, Step(sums, s, ApplyEvent(FullApply(Some(port)), failing)), ApplyEvent(ChainUpdate(chain, rules), env));
            && t.mem.last == Some(Rendered(CurrentRuleset(t.mem))) && t.mem.port == port
            && (RestartRuleset(t.rows) == CurrentRuleset(t.mem) <==> chain == "helmly-local-output")
  {
    var t1 := Step(sums, s, ApplyEvent(FullApply(Some(port)), failing));
    var t := Step(sums, t1, ApplyEvent(ChainUpdate(chain, rules), env));
    assert t1.rows == s.rows && t1.mem == s.mem.(port := port);
    assert t.rows == SetRow(s.rows, chain, rules, port);
    assert Seeded(t.rows);
    ReadSeededRows(t.rows);
    assert forall i | 0 <= i < 4 :: RowAgrees(s.rows[i], s.mem);
    assert s.rows[3].chain == "helmly-local-output";
    assert t.rows[3].port == if chain == "helmly-local-output" then port else s.mem.port;
  }
}

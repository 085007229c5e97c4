/**
 The setup port and the control loop together: closing the port edits the live table behind the back
 of the divergence check (internal/handlers/nginx_cmd.rs, internal/nftables/divergence.rs).
 */
module Reopening {
  import opened Basics
  import Nftables
  import SetupPort

  /** How the base chain of a table reads rule by rule. */
  type BaseChain = Nftables.Content -> seq<SetupPort.Rule>

  predicate Accepts(base: BaseChain, content: Nftables.Content) {
    SetupPort.HandlesOf(base(content)) != []
  }

  /** The table that a close which replies Ok leaves behind, as `SetupPort.FaithfulCloseSucceeds` says. */
  predicate ClosedFrom(base: BaseChain, before: Nftables.Content, after: Nftables.Content) {
    base(after) == SetupPort.Kept(base(before))
  }

  /**
   Closing the port does not tell the control loop. After any run, when the close shows in the
   checksum, one working tick brings accepting rules back exactly when a checksum is set, the last
   ruleset is there and not blank, and that ruleset has such rules itself.
   */
  lemma PortReopensIff(
    sums: Nftables.Sums, base: BaseChain, events: seq<Nftables.Event>, boot: Nftables.Table, rows: seq<Nftables.NftRow>,
    s: Nftables.State, closed: Nftables.Table, env: Nftables.Env)
    requires s == Nftables.Run(sums, Nftables.State(Nftables.FRESH, boot, rows), events)
    requires ClosedFrom(base, s.live.content, closed.content)
    requires Nftables.Working(env) && s.mem.checksum != Some(sums.table(closed))
    ensures !Accepts(base, closed.content)
    ensures Accepts(base, Nftables.Tick(sums, Nftables.Step(sums, s, Nftables.Edit(closed)), env).live.content) <==>
              Nftables.Guarded(s.mem) && Accepts(base, Nftables.Loaded(s.mem.last.value))
  {
    SetupPort.KeptIsClean(base(s.live.content));
    Nftables.ControllerBaseline(sums, Nftables.State(Nftables.FRESH, boot, rows), events, |events|);
  }
}

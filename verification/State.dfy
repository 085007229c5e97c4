/**
 In-memory state of the agent (internal/state.rs): the lockdown flag with its reason, and the
 command rate limiter. Each method is one atomic step.
 */
module AgentState {
  import opened Basics

  // ---------------------------------------------------------------- lockdown

  datatype LockdownReason = Heartbeat | PgUnreachable | IncompatibleSoftware | NftablesFailure

  datatype Lockdown = Lockdown(flag: bool, reason: Option<LockdownReason>) {

    function Set(r: LockdownReason): Lockdown {
      Lockdown(true, Some(r))
    }

    function ClearIfHeartbeat(): Lockdown {
      match reason
      case None => Lockdown(false, None)
      case Some(Heartbeat) => Lockdown(false, None)
      case _ => this
    }

    predicate Consistent() {
      flag <==> reason.Some?
    }

    /** Locked for a reason that only a restart clears. */
    predicate Permanent() {
      flag && reason.Some? && reason != Some(Heartbeat)
    }
  }

  // ---------------------------------------------------------------- rate limiter

  const RATE_WINDOW: nat := 60
  const RATE_LIMIT: nat := 100

  /** Start of the current window, in seconds since 1970, and the commands admitted in it. */
  datatype Rate = Rate(start: nat, count: nat) {

    function Check(now: nat): (Rate, bool) {
      if now >= start + RATE_WINDOW then (Rate(now, 1), true)
      else if count < RATE_LIMIT then (Rate(start, count + 1), true)
      else (this, false)
    }
  }

  class AppState {
    var lockdown: bool
    var lockdownReason: Option<LockdownReason>
    var cmdRate: (nat, nat)
    var cmdRejectedCount: nat
    var cmdRejectedWindow: nat
    var lastHeartbeat: int

    constructor (now: int)
      ensures LockdownView() == Lockdown(false, None) && RateView() == Rate(0, 0)
      ensures cmdRejectedCount == 0 && cmdRejectedWindow == 0 && lastHeartbeat == now
    {
      lockdown := false;
      lockdownReason := None;
      cmdRate := (0, 0);
      cmdRejectedCount := 0;
      cmdRejectedWindow := 0;
      lastHeartbeat := now;
    }

    function LockdownView(): Lockdown
      reads this
    {
      Lockdown(lockdown, lockdownReason)
    }

    function RateView(): Rate
      reads this
    {
      Rate(cmdRate.0, cmdRate.1)
    }

    method SetLockdown(reason: LockdownReason)
      modifies this`lockdown, this`lockdownReason
      ensures LockdownView() == old(LockdownView()).Set(reason)
    {
      lockdown := true;
      lockdownReason := Some(reason);
    }

    method ClearLockdownIfHeartbeat()
      modifies this`lockdown, this`lockdownReason
      ensures LockdownView() == old(LockdownView()).ClearIfHeartbeat()
    {
      match lockdownReason {
        case None =>
          lockdown := false;
        case Some(Heartbeat) =>
          lockdown := false;
          lockdownReason := None;
        case Some(_) =>
      }
    }

    method CheckCmdRate(now: nat) returns (ok: bool)
      modifies this`cmdRate
      ensures (RateView(), ok) == old(RateView()).Check(now)
    {
      var (windowStart, count) := cmdRate;
      if now >= windowStart + RATE_WINDOW {
        cmdRate := (now, 1);
        ok := true;
      } else if count < RATE_LIMIT {
        cmdRate := (windowStart, count + 1);
        ok := true;
      } else {
        ok := false;
      }
    }

    method RecordRateRejection(now: nat) returns (count: nat)
      modifies this`cmdRejectedCount, this`cmdRejectedWindow
      ensures now >= old(cmdRejectedWindow) + 60 ==> count == 1 && cmdRejectedWindow == now
      ensures now < old(cmdRejectedWindow) + 60 ==>
                count == old(cmdRejectedCount) + 1 && cmdRejectedWindow == old(cmdRejectedWindow)
      ensures cmdRejectedCount == count
    {
      if now >= cmdRejectedWindow + RATE_WINDOW {
        cmdRejectedWindow := now;
        cmdRejectedCount := 1;
      } else {
        cmdRejectedCount := cmdRejectedCount + 1;
      }
      count := cmdRejectedCount;
    }
  }
}

/** What the rate limiter admits over whole runs. */
module RateLimit {
  import opened Basics
  import opened AgentState

  predicate NonDecreasing(calls: seq<nat>) {
    forall i, j | 0 <= i < j < |calls| :: calls[i] <= calls[j]
  }

  function InSpan(t: nat, from: nat): nat {
    if from <= t < from + 60 then 1 else 0
  }

  /** How many of the calls are admitted at a time in [from, from + 60). */
  function Admitted(rate: Rate, calls: seq<nat>, from: nat): nat
    decreases calls
  {
    if calls == [] then 0
    else
      var (next, ok) := rate.Check(calls[0]);
      (if ok then InSpan(calls[0], from) else 0) + Admitted(next, calls[1..], from)
  }

  /** The limiter after a number of calls. */
  function RateAfter(rate: Rate, calls: seq<nat>): Rate
    decreases calls
  {
    if calls == [] then rate else RateAfter(rate.Check(calls[0]).0, calls[1..])
  }

  lemma {:induction false} OneMoreCall(rate: Rate, calls: seq<nat>, t: nat, from: nat)
    ensures var last := RateAfter(rate, calls).Check(t);
            && RateAfter(rate, calls + [t]) == last.0
            && Admitted(rate, calls + [t], from) == Admitted(rate, calls, from) + if last.1 then InSpan(t, from) else 0
    decreases calls
  {
    if calls == [] {
      assert calls + [t] == [t] && [t][1..] == [];
    } else {
      OneMoreCall(rate.Check(calls[0]).0, calls[1..], t, from);
      assert (calls + [t])[1..] == calls[1..] + [t];
    }
  }

  /** `seen` commands were admitted in the span so far, the last call being at `last`. */
  predicate Budget(rate: Rate, seen: nat, from: nat, last: nat) {
    && 1 <= rate.count <= 100
    && rate.start <= last < rate.start + 60
    && (last < from ==> seen == 0)
    && (rate.start < from ==> seen <= rate.count - 1)
    && (from <= rate.start < from + 60 ==> seen <= 99 + rate.count)
    && seen <= 199
  }

  lemma CheckKeepsBudget(rate: Rate, seen: nat, from: nat, last: nat, now: nat)
    requires Budget(rate, seen, from, last) && last <= now
    ensures var (next, ok) := rate.Check(now);
            Budget(next, seen + if ok then InSpan(now, from) else 0, from, now)
  {
  }

  lemma {:induction false} BudgetBoundsTheRest(rate: Rate, seen: nat, from: nat, last: nat, calls: seq<nat>)
    requires Budget(rate, seen, from, last)
    requires NonDecreasing(calls) && (calls != [] ==> last <= calls[0])
    ensures seen + Admitted(rate, calls, from) <= 199
    decreases calls
  {
    if calls != [] {
      var (next, ok) := rate.Check(calls[0]);
      CheckKeepsBudget(rate, seen, from, last, calls[0]);
      assert forall i | 0 <= i < |calls[1..]| :: calls[1..][i] == calls[i + 1];
      BudgetBoundsTheRest(next, seen + if ok then InSpan(calls[0], from) else 0, from, calls[0], calls[1..]);
    }
  }

  predicate Bounded(calls: seq<nat>, from: nat) {
    Admitted(Rate(0, 0), calls, from) <= 199
  }

  lemma BoundedFromACleanStart(calls: seq<nat>, from: nat)
    requires NonDecreasing(calls) && calls != [] && (calls[0] == 0 || calls[0] >= 60)
    ensures Bounded(calls, from)
  {
    var (next, ok) := Rate(0, 0).Check(calls[0]);
    assert forall i | 0 <= i < |calls[1..]| :: calls[1..][i] == calls[i + 1];
    BudgetBoundsTheRest(next, InSpan(calls[0], from), from, calls[0], calls[1..]);
  }

  /** Within one window exactly the first hundred commands are admitted. */
  lemma {:induction false} WindowAdmitsTheFirstHundred(rate: Rate, calls: seq<nat>)
    requires rate.count <= 100
    requires forall i | 0 <= i < |calls| :: rate.start <= calls[i] < rate.start + 60
    ensures Admitted(rate, calls, rate.start) == Min(|calls|, 100 - rate.count)
    decreases calls
  {
    if calls != [] {
      assert forall i | 0 <= i < |calls[1..]| :: calls[1..][i] == calls[i + 1];
      WindowAdmitsTheFirstHundred(rate.Check(calls[0]).0, calls[1..]);
    }
  }

  function Repeat(t: nat, k: nat): seq<nat> {
    seq(k, _ => t)
  }

  /** `k` calls at one moment, with room for all of them in the window. */
  lemma {:induction false} AdmitsBurst(rate: Rate, t: nat, k: nat, rest: seq<nat>, from: nat)
    requires t < rate.start + 60 && rate.count + k <= 100
    ensures Admitted(rate, Repeat(t, k) + rest, from)
         == k * InSpan(t, from) + Admitted(Rate(rate.start, rate.count + k), rest, from)
    decreases k
  {
    var calls := Repeat(t, k) + rest;
    if k == 0 {
      assert calls == rest;
    } else {
      assert calls[0] == t && calls[1..] == Repeat(t, k - 1) + rest;
      AdmitsBurst(Rate(rate.start, rate.count + 1), t, k - 1, rest, from);
    }
  }

  /** A full window followed by the next one: 199 admissions within one minute. */
  lemma NinetyNinePlusHundred(c: nat) returns (calls: seq<nat>)
    requires c >= 60
    ensures NonDecreasing(calls) && calls != [] && calls[0] == c
    ensures Admitted(Rate(0, 0), calls, c + 1) == 199
  {
    var second := [c + 60] + (Repeat(c + 60, 99) + []);
    calls := [c] + (Repeat(c + 59, 99) + second);
    AdmitsBurst(Rate(c, 1), c + 59, 99, second, c + 1);
    AdmitsBurst(Rate(c + 60, 1), c + 60, 99, [], c + 1);
    assert calls[1..] == Repeat(c + 59, 99) + second && second[1..] == Repeat(c + 60, 99) + [];
  }

  /** A first call within the first minute of 1970 joins the initial window: 200 in one minute. */
  lemma TwoFullWindows(c: nat) returns (calls: seq<nat>)
    requires 0 < c < 60
    ensures NonDecreasing(calls) && calls != [] && calls[0] == c
    ensures !Bounded(calls, c)
  {
    var second := [60] + (Repeat(60, 99) + []);
    calls := Repeat(c, 100) + second;
    AdmitsBurst(Rate(0, 0), c, 100, second, c);
    AdmitsBurst(Rate(60, 1), 60, 99, [], c);
    assert second[1..] == Repeat(60, 99) + [];
  }

  ghost predicate BoundedFrom(c: nat) {
    forall calls, from: nat {:trigger Bounded(calls, from)} | NonDecreasing(calls) && calls != [] && calls[0] == c ::
      Bounded(calls, from)
  }

  /**
   The sharp bound over runs whose first command arrives at `c`: no half-open minute admits more
   than 199 commands, and from the second minute of 1970 on some run does reach 199. Only a clock
   that starts inside the first minute of 1970 breaks the bound.
   */
  lemma MinuteBoundIsSharp(c: nat)
    ensures BoundedFrom(c) <==> (c == 0 || c >= 60)
    ensures c >= 60 ==> exists calls, from: nat ::
              NonDecreasing(calls) && calls != [] && calls[0] == c && Admitted(Rate(0, 0), calls, from) == 199
  {
    if c == 0 || c >= 60 {
      forall calls, from: nat | NonDecreasing(calls) && calls != [] && calls[0] == c ensures Bounded(calls, from) {
        BoundedFromACleanStart(calls, from);
      }
      if c >= 60 {
        var calls := NinetyNinePlusHundred(c);
      }
    } else {
      var calls := TwoFullWindows(c);
      assert !Bounded(calls, c);
    }
  }
}

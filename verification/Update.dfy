/**
 Self-update, rollback and the release keyring (internal/update/mod.rs).

 Files are absent, complete or torn. Every file-system call can be cut short, by an error or by a
 crash: a write or copy then leaves its destination as it was or torn, a rename is atomic. What
 happens before the signature check (URLs, install marker, downloads) is one input of an update.
 */
module Update {
  import opened Basics
  import opened Auth

  // ---------------------------------------------------------------- release keyring

  const ZERO_SLOT: Bytes := [
    0, 0, 0, 0, 0, 0, 0, 0, 0, 0, 0, 0, 0, 0, 0, 0, 0, 0, 0, 0, 0, 0, 0, 0, 0, 0, 0, 0, 0, 0, 0, 0
  ]

  predicate SlotUsable(s: Ed25519, slot: Bytes, binary: Bytes, sig: Bytes) {
    slot != ZERO_SLOT && SlotVerifies(s, slot, binary, sig)
  }

  predicate ReleaseAccepted(s: Ed25519, ring: seq<Bytes>, binary: Bytes, sig: Bytes) {
    |sig| == 64 && exists slot | slot in ring :: SlotUsable(s, slot, binary, sig)
  }

  datatype SigError = BadLength | InvalidSlot(i: nat) | DoesNotVerify(i: nat) | NoUsableSlot

  /** What the loop reports when nothing verifies: the verdict on the last slot it did not skip. */
  function RingError(s: Ed25519, ring: seq<Bytes>): SigError {
    if ring == [] then NoUsableSlot
    else
      var n := |ring| - 1;
      if ring[n] == ZERO_SLOT then RingError(s, ring[..n])
      else if !s.wellFormed(ring[n]) then InvalidSlot(n)
      else DoesNotVerify(n)
  }

  /** `verify_signature_with` */
  method VerifySignatureWith(s: Ed25519, binary: Bytes, sig: Bytes, ring: seq<Bytes>) returns (r: Result<(), SigError>)
    ensures r.Ok? <==> ReleaseAccepted(s, ring, binary, sig)
    ensures r.Err? ==> r.error == if |sig| != 64 then BadLength else RingError(s, ring)
  {
    if |sig| != 64 {
      return Err(BadLength);
    }
    var lastErr: Option<SigError> := None;
    var matched := false;
    var i := 0;
    while i < |ring| && !matched
      invariant 0 <= i <= |ring|
      invariant matched ==> ReleaseAccepted(s, ring, binary, sig)
      invariant !matched ==> forall slot | slot in ring[..i] :: !SlotUsable(s, slot, binary, sig)
      invariant !matched ==> RingError(s, ring[..i]) == if lastErr.Some? then lastErr.value else NoUsableSlot
      decreases |ring| - i, !matched
    {
      var slot := ring[i];
      assert ring[..i + 1] == ring[..i] + [slot];
      if slot != ZERO_SLOT {
        if !s.wellFormed(slot) {
          lastErr := Some(InvalidSlot(i));
        } else if s.verifies(slot, binary, sig) {
          assert SlotUsable(s, slot, binary, sig);
          matched := true;
        } else {
          lastErr := Some(DoesNotVerify(i));
        }
      }
      i := i + 1;
    }
    if matched {
      return Ok(());
    }
    assert ring[..i] == ring;
    r := Err(if lastErr.Some? then lastErr.value else NoUsableSlot);
  }

  /** Some slot is a key, not 32 zero bytes, under which the signature verifies. */
  predicate SomeKeyVerifies(s: Ed25519, ring: seq<Bytes>, binary: Bytes, sig: Bytes) {
    exists i | 0 <= i < |ring| :: !AllZero(ring[i]) && s.wellFormed(ring[i]) && s.verifies(ring[i], binary, sig)
  }

  predicate AllZero(slot: Bytes) {
    |slot| == 32 && forall i | 0 <= i < |slot| :: slot[i] == 0
  }

  lemma AcceptedIffSomeKeyVerifies(s: Ed25519, ring: seq<Bytes>, binary: Bytes, sig: Bytes)
    ensures ReleaseAccepted(s, ring, binary, sig) <==> |sig| == 64 && SomeKeyVerifies(s, ring, binary, sig)
  {
    forall slot: Bytes ensures slot == ZERO_SLOT <==> AllZero(slot) {
      if AllZero(slot) {
        assert forall i | 0 <= i < 32 :: slot[i] == ZERO_SLOT[i];
      }
    }
    if ReleaseAccepted(s, ring, binary, sig) {
      var slot :| slot in ring && SlotUsable(s, slot, binary, sig);
      var i :| 0 <= i < |ring| && ring[i] == slot;
    }
    if i :| 0 <= i < |ring| && !AllZero(ring[i]) && s.wellFormed(ring[i]) && s.verifies(ring[i], binary, sig) {
      assert SlotUsable(s, ring[i], binary, sig);
    }
  }

  /** The error names the last slot that is not zero: why it is no key, or that it does not verify. */
  lemma {:induction false} ErrorNamesTheLastKey(s: Ed25519, ring: seq<Bytes>, i: nat, n: nat)
    requires i < n <= |ring| && ring[i] != ZERO_SLOT && forall k | i < k < n :: ring[k] == ZERO_SLOT
    ensures RingError(s, ring[..n]) == if s.wellFormed(ring[i]) then DoesNotVerify(i) else InvalidSlot(i)
  {
    if i < n - 1 {
      assert ring[..n][..n - 1] == ring[..n - 1];
      ErrorNamesTheLastKey(s, ring, i, n - 1);
    }
  }

  /** Neither the order of the slots nor any number of zeroed ones makes a difference. */
  lemma RingIsAnUnorderedSet(s: Ed25519, a: seq<Bytes>, b: seq<Bytes>, zeros: nat, binary: Bytes, sig: Bytes)
    requires multiset(b) == multiset(a + seq(zeros, _ => ZERO_SLOT))
    ensures ReleaseAccepted(s, a, binary, sig) <==> ReleaseAccepted(s, b, binary, sig)
  {
    var padded := a + seq(zeros, _ => ZERO_SLOT);
    forall k: Bytes | k != ZERO_SLOT ensures k in a <==> k in b {
      assert k in padded <==> k in a;
      assert k in b <==> k in multiset(b);
      assert k in padded <==> k in multiset(padded);
    }
  }

  // ---------------------------------------------------------------- key rotation

  /** A release carries the ring that the agent running it will verify its successor with. */
  datatype Release = Release(image: Bytes, sig: Bytes, slot0: Bytes, slot1: Bytes) {
    function Ring(): seq<Bytes> {
      [slot0, slot1]
    }
  }

  predicate SignedByOwnSlot0(s: Ed25519, r: Release) {
    |r.sig| == 64 && SlotUsable(s, r.slot0, r.image, r.sig)
  }

  datatype Phase = Keep | Announce | Promote

  /** [K, x] stays, [OLD, 0] becomes [OLD, NEW], and [OLD, NEW] becomes [NEW, 0]. */
  predicate Rotates(a: Release, b: Release, phase: Phase) {
    match phase
    case Keep => b.slot0 == a.slot0 && b.slot1 == a.slot1
    case Announce => a.slot1 == ZERO_SLOT && b.slot0 == a.slot0 && b.slot1 != ZERO_SLOT
    case Promote => a.slot1 != ZERO_SLOT && b.slot0 == a.slot1 && b.slot1 == ZERO_SLOT
  }

  /** `phases[i]` leads from release `i` to the next. */
  predicate Rotation(s: Ed25519, releases: seq<Release>, phases: seq<Phase>) {
    && |releases| == |phases| + 1
    && (forall i | 0 <= i < |releases| :: SignedByOwnSlot0(s, releases[i]))
    && (forall i | 0 <= i < |phases| :: Rotates(releases[i], releases[i + 1], phases[i]))
  }

  /** The release an agent ends up on that is offered the others in order. */
  function Follow(s: Ed25519, running: Release, offered: seq<Release>): Release
    decreases offered
  {
    if offered == [] then running
    else
      Follow(s, if ReleaseAccepted(s, running.Ring(), offered[0].image, offered[0].sig) then offered[0] else running, offered[1..])
  }

  lemma AcceptsNext(s: Ed25519, a: Release, b: Release, phase: Phase)
    requires SignedByOwnSlot0(s, b) && Rotates(a, b, phase)
    ensures ReleaseAccepted(s, a.Ring(), b.image, b.sig)
  {
    assert a.Ring()[0] in a.Ring() && a.Ring()[1] in a.Ring();
  }

  /** Taking every release in order never gets stuck, through any number of rotations. */
  lemma {:induction false} RotationNeverStrandsAnAgent(s: Ed25519, releases: seq<Release>, phases: seq<Phase>)
    requires Rotation(s, releases, phases)
    ensures Follow(s, releases[0], releases[1..]) == releases[|releases| - 1]
    decreases phases
  {
    if phases != [] {
      AcceptsNext(s, releases[0], releases[1], phases[0]);
      RotationNeverStrandsAnAgent(s, releases[1..], phases[1..]);
    }
  }

  /** Only the key that signed a release verifies it. */
  predicate Unforgeable(s: Ed25519, r: Release, keys: seq<Bytes>) {
    forall k | k in keys && SlotUsable(s, k, r.image, r.sig) :: k == r.slot0
  }

  /** An agent that is one release behind, after a rollback say, can skip the release in between
      exactly when that is not the one that announced the key now in use. */
  lemma SkippingOneReleaseIff(s: Ed25519, a: Release, b: Release, c: Release, first: Phase, second: Phase)
    requires Rotates(a, b, first) && Rotates(b, c, second) && SignedByOwnSlot0(s, c)
    requires Unforgeable(s, c, a.Ring())
    requires first.Announce? ==> b.slot1 != a.slot0
    ensures ReleaseAccepted(s, a.Ring(), c.image, c.sig) <==> !(first.Announce? && second.Promote?)
  {
    assert a.Ring()[0] in a.Ring() && a.Ring()[1] in a.Ring();
  }

  // ---------------------------------------------------------------- files

  datatype File = Absent | Torn | Complete(image: Bytes)

  /** How a call ended; after anything but `Done` the code in question goes no further. */
  datatype Effect = Done | CutShort | NotStarted

  function Written(before: File, after: File, e: Effect): File {
    match e
    case Done => after
    case CutShort => Torn
    case NotStarted => before
  }

  datatype Disk = Disk(target: File, prev: File, tmp: File, restoring: File, critical: bool)

  datatype UpdateEnv = UpdateEnv(prepared: bool, write: Effect, chmod: bool, copy: Effect, rename: bool)

  /** The outcomes of copy and rename, and whether the critical file could be removed or written;
      the guard looks at neither of the last two. */
  datatype GuardEnv = GuardEnv(copy: Effect, rename: bool, criticalRemoved: bool, criticalWritten: bool)

  /** `perform_update`, with the disk it leaves behind and whether the new binary was swapped in. */
  function PerformUpdate(s: Ed25519, d: Disk, binary: Bytes, sig: Bytes, ring: seq<Bytes>, env: UpdateEnv): (Disk, bool) {
    if !env.prepared || !ReleaseAccepted(s, ring, binary, sig) then (d, false)
    else
      var d1 := d.(tmp := Written(d.tmp, Complete(binary), env.write));
      if !env.write.Done? || !env.chmod then (d1, false)
      else
        var d2 := if d1.target.Absent? then d1 else d1.(prev := Written(d1.prev, d1.target, env.copy));
        if (!d1.target.Absent? && !env.copy.Done?) || !env.rename then (d2, false)
        else (d2.(target := d2.tmp, tmp := Absent), true)
  }

  const MAX_ATTEMPTS: nat := 15

  predicate Healthy(answers: seq<bool>) {
    exists i | 0 <= i < |answers| && i < MAX_ATTEMPTS :: answers[i]
  }

  predicate RestoreSucceeds(d: Disk, env: GuardEnv) {
    !d.prev.Absent? && env.copy.Done? && env.rename
  }

  /** `run_startup_health_check`; `Ok` means a healthy start, the error whether `.prev` came back. */
  function HealthGuard(d: Disk, answers: seq<bool>, env: GuardEnv): (Disk, Result<(), bool>) {
    if Healthy(answers) then (d.(critical := d.critical && !env.criticalRemoved), Ok(()))
    else
      var d1 := if d.prev.Absent? then d else d.(restoring := Written(d.restoring, d.prev, env.copy));
      var d2 := if RestoreSucceeds(d, env) then d1.(target := d1.restoring, restoring := Absent) else d1;
      (d2.(critical := d2.critical || env.criticalWritten), Err(RestoreSucceeds(d, env)))
  }

  class Installation {
    var target: File
    var prev: File
    var tmp: File
    var restoring: File
    var critical: bool

    constructor (d: Disk)
      ensures View() == d
    {
      target, prev, tmp, restoring, critical := d.target, d.prev, d.tmp, d.restoring, d.critical;
    }

    function View(): Disk
      reads this
    {
      Disk(target, prev, tmp, restoring, critical)
    }

    method Update(s: Ed25519, binary: Bytes, sig: Bytes, ring: seq<Bytes>, env: UpdateEnv) returns (swapped: bool)
      modifies this
      ensures (View(), swapped) == PerformUpdate(s, old(View()), binary, sig, ring, env)
    {
      if !env.prepared {
        return false;
      }
      var verified := VerifySignatureWith(s, binary, sig, ring);
      if verified.Err? {
        return false;
      }
      tmp := Written(tmp, Complete(binary), env.write);
      if env.write != Done || !env.chmod {
        return false;
      }
      if !target.Absent? {
        prev := Written(prev, target, env.copy);
        if env.copy != Done {
          return false;
        }
      }
      if !env.rename {
        return false;
      }
      target, tmp := tmp, Absent;
      swapped := true;
    }

    /** `answers` are the outcomes of the health probes; a missing one counts as a failure. */
    method RunStartupHealthCheck(answers: seq<bool>, env: GuardEnv) returns (r: Result<(), bool>)
      modifies this
      ensures (View(), r) == HealthGuard(old(View()), answers, env)
    {
      for attempt := 0 to MAX_ATTEMPTS
        invariant View() == old(View())
        invariant forall i | 0 <= i < |answers| && i < attempt :: !answers[i]
      {
        if attempt < |answers| && answers[attempt] {
          critical := critical && !env.criticalRemoved;
          return Ok(());
        }
      }
      var restoreOk := false;
      if !prev.Absent? {
        restoring := Written(restoring, prev, env.copy);
        if env.copy == Done && env.rename {
          target, restoring := restoring, Absent;
          restoreOk := true;
        }
      }
      if env.criticalWritten {
        critical := true;
      }
      r := Err(restoreOk);
    }
  }

  // ---------------------------------------------------------------- runs

  /** `passed` collects the images that have passed signature verification, besides the initial one. */
  datatype World = World(disk: Disk, passed: set<Bytes>)

  datatype Event =
    | UpdateEvent(binary: Bytes, sig: Bytes, ring: seq<Bytes>, update: UpdateEnv)
    | GuardEvent(answers: seq<bool>, guard: GuardEnv)

  function Step(s: Ed25519, w: World, e: Event): World {
    match e
    case UpdateEvent(binary, sig, ring, env) =>
      World(PerformUpdate(s, w.disk, binary, sig, ring, env).0,
            if ReleaseAccepted(s, ring, binary, sig) then w.passed + {binary} else w.passed)
    case GuardEvent(answers, env) => w.(disk := HealthGuard(w.disk, answers, env).0)
  }

  function Machine(s: Ed25519): (World, Event) -> World {
    (w: World, e: Event) => Step(s, w, e)
  }

  function Run(s: Ed25519, w: World, events: seq<Event>): World {
    Final(Machine(s), w, events)
  }

  predicate Good(w: World, f: File) {
    f.Complete? && f.image in w.passed
  }

  /** The backup copy of an update is not cut short, neither by a crash nor by an error. */
  predicate BackupIntact(e: Event) {
    e.UpdateEvent? ==> !e.update.copy.CutShort?
  }

  predicate Sound(w: World) {
    Good(w, w.disk.target) && (w.disk.prev.Absent? || Good(w, w.disk.prev))
  }

  lemma StepKeepsSound(s: Ed25519, w: World, e: Event)
    requires Sound(w) && BackupIntact(e)
    ensures Sound(Step(s, w, e)) && w.passed <= Step(s, w, e).passed
  {
  }

  lemma {:induction false} RunKeepsSound(s: Ed25519, w: World, events: seq<Event>, n: nat)
    requires Sound(w) && n <= |events| && forall e | e in events :: BackupIntact(e)
    ensures Sound(StateAfter(Machine(s), w, events, n)) && w.passed <= StateAfter(Machine(s), w, events, n).passed
  {
    if n > 0 {
      RunKeepsSound(s, w, events, n - 1);
      StepKeepsSound(s, StateAfter(Machine(s), w, events, n - 1), events[n - 1]);
    }
  }

  /** Over any number of updates, guard runs and crashes at any step outside the backup copy, the
      installed binary is complete and either the initial one or signed. */
  lemma InstalledBinaryIsAlwaysGood(s: Ed25519, w: World, events: seq<Event>)
    requires Sound(w) && forall e | e in events :: BackupIntact(e)
    ensures Sound(Run(s, w, events))
  {
    RunKeepsSound(s, w, events, |events|);
  }

  predicate GoodAfter(s: Ed25519, w: World, events: seq<Event>) {
    var t := Run(s, w, events);
    (forall e | e in events :: BackupIntact(e)) ==> Good(t, t.disk.target)
  }

  ghost predicate SafeFromHereOn(s: Ed25519, w: World) {
    forall events {:trigger GoodAfter(s, w, events)} :: GoodAfter(s, w, events)
  }

  /** The exact condition: from a good installation, every future is safe if and only if the backup
      is absent or good. A torn backup is installed by the first guard run that fails. */
  lemma SafeIffTheBackupIsGood(s: Ed25519, w: World)
    requires Good(w, w.disk.target)
    ensures SafeFromHereOn(s, w) <==> (w.disk.prev.Absent? || Good(w, w.disk.prev))
  {
    if w.disk.prev.Absent? || Good(w, w.disk.prev) {
      forall events ensures GoodAfter(s, w, events) {
        if forall e | e in events :: BackupIntact(e) {
          InstalledBinaryIsAlwaysGood(s, w, events);
        }
      }
    } else {
      var failed := GuardEvent([], GuardEnv(Done, true, true, true));
      var t := Step(s, w, failed);
      assert t.disk.target == w.disk.prev;
      StatesAlong(Machine(s), w, [failed], [w, t], 1);
      assert !GoodAfter(s, w, [failed]);
    }
  }

  /** An update whose backup copy is cut short leaves exactly such a backup, although it reports an
      error and installs nothing; the next update that completes its copy repairs it. */
  lemma CutShortBackupIsUnsafeUntilTheNextUpdate(
    s: Ed25519, w: World, e: Event, again: Event)
    requires Sound(w) && e.UpdateEvent? && again.UpdateEvent?
    requires e.update.prepared && e.update.write.Done? && e.update.chmod && e.update.copy.CutShort?
    requires ReleaseAccepted(s, e.ring, e.binary, e.sig) && ReleaseAccepted(s, again.ring, again.binary, again.sig)
    requires again.update.prepared && again.update.write.Done? && again.update.chmod && again.update.copy.Done?
    ensures var t := Step(s, w, e);
            t.disk.target == w.disk.target && !SafeFromHereOn(s, t) && SafeFromHereOn(s, Step(s, t, again))
  {
    var t := Step(s, w, e);
    SafeIffTheBackupIsGood(s, t);
    SafeIffTheBackupIsGood(s, Step(s, t, again));
  }

  /** A failed guard run whose restore succeeds reinstates `.prev`, and further failed runs leave it
      at that: the installation does not swing between the two binaries. */
  lemma FailedGuardIsAFixedPoint(d: Disk, answers: seq<bool>, env: GuardEnv, answers': seq<bool>, env': GuardEnv)
    requires !Healthy(answers) && RestoreSucceeds(d, env) && env.criticalWritten
    requires !Healthy(answers') && RestoreSucceeds(d, env')
    ensures var once := HealthGuard(d, answers, env).0;
            && once.target == d.prev && once.prev == d.prev && once.critical
            && HealthGuard(once, answers', env').0 == once
  {
  }

  /** Rolling back undoes an update: a swap followed by a failed start brings the old binary back. */
  lemma GuardUndoesUpdate(s: Ed25519, d: Disk, binary: Bytes, sig: Bytes, ring: seq<Bytes>, env: UpdateEnv,
                          answers: seq<bool>, guard: GuardEnv)
    requires !d.target.Absent? && PerformUpdate(s, d, binary, sig, ring, env).1
    requires !Healthy(answers) && guard.copy.Done? && guard.rename
    ensures HealthGuard(PerformUpdate(s, d, binary, sig, ring, env).0, answers, guard).0.target == d.target
    ensures PerformUpdate(s, d, binary, sig, ring, env).0.target == Complete(binary)
  {
  }

  /** A healthy answer to one of the first 15 probes ends the guard: it leaves every file as it is but
      the critical one, which it removes if it can. */
  lemma HealthyStartKeepsTheBinary(d: Disk, k: nat, later: seq<bool>, env: GuardEnv)
    requires k < 15
    ensures var (t, r) := HealthGuard(d, seq(k, _ => false) + [true] + later, env);
            && r == Ok(()) && t.target == d.target && t.prev == d.prev && t.tmp == d.tmp && t.restoring == d.restoring
            && (t.critical <==> d.critical && !env.criticalRemoved)
  {
    var answers := seq(k, _ => false) + [true] + later;
    assert answers[k];
  }

  /** Fifteen failures roll back, whatever later probes would have said. */
  lemma FifteenFailuresRollBack(d: Disk, later: seq<bool>, env: GuardEnv)
    ensures var (t, r) := HealthGuard(d, seq(15, _ => false) + later, env);
            var restored := !d.prev.Absent? && env.copy == Done && env.rename;
            && r == Err(restored) && t.target == (if restored then d.prev else d.target)
            && t.prev == d.prev && t.tmp == d.tmp && (t.critical <==> d.critical || env.criticalWritten)
  {
    var answers := seq(15, _ => false) + later;
    assert forall i | 0 <= i < 15 :: !answers[i];
  }

  /** An update is installed exactly when it was prepared, is signed by a key of the ring, and every
      file operation works; then the old binary is the backup. Otherwise the old one stays. */
  lemma UpdateInstallsIff(s: Ed25519, d: Disk, binary: Bytes, sig: Bytes, ring: seq<Bytes>, env: UpdateEnv)
    ensures var (t, swapped) := PerformUpdate(s, d, binary, sig, ring, env);
            && (swapped <==>
                 && env.prepared && |sig| == 64 && SomeKeyVerifies(s, ring, binary, sig)
                 && env.write == Done && env.chmod && (d.target.Absent? || env.copy == Done) && env.rename)
            && t.target == (if swapped then Complete(binary) else d.target)
            && (swapped ==> t.prev == (if d.target.Absent? then d.prev else d.target) && t.tmp == Absent)
            && t.restoring == d.restoring && t.critical == d.critical
    ensures !SomeKeyVerifies(s, ring, binary, sig) ==> PerformUpdate(s, d, binary, sig, ring, env).0 == d
  {
    AcceptedIffSomeKeyVerifies(s, ring, binary, sig);
  }
}

/**
 The deny-list for compose files (internal/handlers/validate.rs): a recursive walk that stops at the
 first forbidden entry, and the guard on host paths of service volumes. Parsing the YAML text is
 left to the library; a tagged node is looked through where the library's accessors do so.
 */
module Compose {
  import opened Basics
  import opened Paths
  import opened Text

  datatype Yaml =
    | Null
    | Bool(b: bool)
    | Number(text: string)
    | Str(s: string)
    | Seq(items: seq<Yaml>)
    | Map(entries: seq<(Yaml, Yaml)>)
    | Tagged(tag: string, value: Yaml)
  {
    function Untag(): Yaml {
      if Tagged? then value.Untag() else this
    }

    /** `get` with a string index. */
    function Get(key: string): Option<Yaml> {
      if Untag().Map? then Lookup(Untag().entries, key) else None
    }
  }

  function Lookup(entries: seq<(Yaml, Yaml)>, key: string): Option<Yaml> {
    if entries == [] then None
    else if entries[0].0 == Str(key) then Some(entries[0].1)
    else Lookup(entries[1..], key)
  }

  /** `as_str().unwrap_or("?")` */
  function KeyText(key: Yaml): string {
    if key.Untag().Str? then key.Untag().s else "?"
  }

  // ---------------------------------------------------------------- one entry

  const DENY_KEYS := ["privileged", "cap_add", "cgroup_parent", "devices", "sysctls", "tmpfs", "init"]

  const FORBIDDEN_VALUES := [("network_mode", "host"), ("network_mode", "container"), ("pid", "host"), ("ipc", "host")]

  const FORBIDDEN_SECURITY_OPTS := ["seccomp=unconfined", "apparmor=unconfined", "systempaths=unconfined"]

  datatype Reason = ForbiddenKey | ForbiddenValue | UsernsMode | CapDropAll | SecurityOpt

  /** The loop over the conditionally forbidden values. */
  function MatchesForbiddenValue(key: string, value: Yaml, pairs: seq<(string, string)>): bool {
    pairs != []
    && ((pairs[0].0 == key && value.Str?
         && (value.s == pairs[0].1 || (StartsWith(value.s, "container:") && pairs[0].1 == "container")))
        || MatchesForbiddenValue(key, value, pairs[1..]))
  }

  predicate HasForbiddenOpt(items: seq<Yaml>) {
    exists v | v in items :: v.Str? && v.s in FORBIDDEN_SECURITY_OPTS
  }

  function CheckKeyValue(key: string, value: Yaml): Option<Reason> {
    if key in DENY_KEYS then
      if key == "init" && value != Bool(false) then None else Some(ForbiddenKey)
    else if MatchesForbiddenValue(key, value, FORBIDDEN_VALUES) then Some(ForbiddenValue)
    else if key == "userns_mode" && value.Str? && value.s != "auto" then Some(UsernsMode)
    else if key == "cap_drop" && value.Seq? && Str("ALL") in value.items then Some(CapDropAll)
    else if key == "security_opt" && value.Seq? && HasForbiddenOpt(value.items) then Some(SecurityOpt)
    else None
  }

  /** The modes that share a namespace of the host. */
  predicate ForbiddenMode(key: string, value: Yaml) {
    && value.Str?
    && ((key == "network_mode" && (value.s == "host" || value.s == "container" || StartsWith(value.s, "container:")))
        || ((key == "pid" || key == "ipc") && value.s == "host"))
  }

  /** The rule book, one line per rule. */
  predicate Forbidden(key: string, value: Yaml) {
    || key == "privileged" || key == "cap_add" || key == "cgroup_parent" || key == "devices" || key == "sysctls"
    || key == "tmpfs"
    || (key == "init" && value == Bool(false))
    || ForbiddenMode(key, value)
    || (key == "userns_mode" && value.Str? && value.s != "auto")
    || (key == "cap_drop" && value.Seq? && Str("ALL") in value.items)
    || (key == "security_opt" && value.Seq?
        && (Str("seccomp=unconfined") in value.items || Str("apparmor=unconfined") in value.items
            || Str("systempaths=unconfined") in value.items))
  }

  lemma SecurityOptsFollowTheRules(items: seq<Yaml>)
    ensures HasForbiddenOpt(items) <==>
              || Str("seccomp=unconfined") in items || Str("apparmor=unconfined") in items
              || Str("systempaths=unconfined") in items
  {
    if HasForbiddenOpt(items) {
      var v :| v in items && v.Str? && v.s in FORBIDDEN_SECURITY_OPTS;
      assert v == Str(FORBIDDEN_SECURITY_OPTS[0]) || v == Str(FORBIDDEN_SECURITY_OPTS[1]) || v == Str(FORBIDDEN_SECURITY_OPTS[2]);
    }
    OptIsForbidden(items, 0);
    OptIsForbidden(items, 1);
    OptIsForbidden(items, 2);
  }

  lemma OptIsForbidden(items: seq<Yaml>, k: nat)
    requires k < 3
    ensures Str(FORBIDDEN_SECURITY_OPTS[k]) in items ==> HasForbiddenOpt(items)
  {
    assert Str(FORBIDDEN_SECURITY_OPTS[k]).s in FORBIDDEN_SECURITY_OPTS;
  }

  lemma ValuesFollowTheRules(key: string, value: Yaml)
    ensures MatchesForbiddenValue(key, value, FORBIDDEN_VALUES) <==> ForbiddenMode(key, value)
  {
    var f := FORBIDDEN_VALUES;
    assert f[1..][1..] == f[2..] && f[2..][1..] == f[3..] && f[3..][1..] == [];
    assert !MatchesForbiddenValue(key, value, []);
    assert MatchesForbiddenValue(key, value, f[3..]) <==> key == "ipc" && value == Str("host");
    assert MatchesForbiddenValue(key, value, f[2..]) <==> (key == "pid" || key == "ipc") && value == Str("host");
  }

  lemma CheckFollowsTheRules(key: string, value: Yaml)
    ensures CheckKeyValue(key, value).Some? <==> Forbidden(key, value)
  {
    ValuesFollowTheRules(key, value);
    if value.Seq? {
      SecurityOptsFollowTheRules(value.items);
    }
    assert key in DENY_KEYS <==>
      key == DENY_KEYS[0] || key == DENY_KEYS[1] || key == DENY_KEYS[2] || key == DENY_KEYS[3]
      || key == DENY_KEYS[4] || key == DENY_KEYS[5] || key == DENY_KEYS[6];
  }

  // ---------------------------------------------------------------- the walker

  datatype Finding = Finding(path: string, reason: Reason)

  function EntryPath(path: string, key: string): string {
    if path == "" then key else path + "." + key
  }

  function ItemPath(path: string, i: nat): string {
    path + "[" + Decimal(i) + "]"
  }

  function Walk(node: Yaml, path: string): Option<Finding>
    decreases node, 1, 0
  {
    match node
    case Map(entries) => WalkEntries(node, path, 0)
    case Seq(items) => WalkItems(node, path, 0)
    case _ => None
  }

  function WalkEntries(node: Yaml, path: string, i: nat): Option<Finding>
    requires node.Map? && i <= |node.entries|
    decreases node, 0, |node.entries| - i
  {
    if i == |node.entries| then None
    else
      var key, value := KeyText(node.entries[i].0), node.entries[i].1;
      var childPath := EntryPath(path, key);
      var reason := CheckKeyValue(key, value);
      if reason.Some? then Some(Finding(childPath, reason.value))
      else
        var below := Walk(value, childPath);
        if below.Some? then below else WalkEntries(node, path, i + 1)
  }

  function WalkItems(node: Yaml, path: string, i: nat): Option<Finding>
    requires node.Seq? && i <= |node.items|
    decreases node, 0, |node.items| - i
  {
    if i == |node.items| then None
    else
      var below := Walk(node.items[i], ItemPath(path, i));
      if below.Some? then below else WalkItems(node, path, i + 1)
  }

  // ---------------------------------------------------------------- addresses

  /** A position in the tree: which child to take at each level. */
  type Address = seq<nat>

  function Child(node: Yaml, i: nat): Option<Yaml> {
    match node
    case Map(entries) => if i < |entries| then Some(entries[i].1) else None
    case Seq(items) => if i < |items| then Some(items[i]) else None
    case _ => None
  }

  /** Key and value of the mapping entry at an address that is reachable through mappings and sequences. */
  function EntryAt(node: Yaml, a: Address): Option<(string, Yaml)>
    decreases |a|
  {
    if a == [] || Child(node, a[0]).None? then None
    else if |a| > 1 then EntryAt(Child(node, a[0]).value, a[1..])
    else if node.Map? then Some((KeyText(node.entries[a[0]].0), node.entries[a[0]].1))
    else None
  }

  /** The path text of an address, for a node whose own path text is `path`. */
  function Render(node: Yaml, path: string, a: Address): string
    requires EntryAt(node, a).Some?
    decreases |a|
  {
    var here := if node.Map? then EntryPath(path, KeyText(node.entries[a[0]].0)) else ItemPath(path, a[0]);
    if |a| == 1 then here else Render(Child(node, a[0]).value, here, a[1..])
  }

  predicate ForbiddenAt(node: Yaml, a: Address) {
    EntryAt(node, a).Some? && Forbidden(EntryAt(node, a).value.0, EntryAt(node, a).value.1)
  }

  /** Pre-order: a parent before its children, and children from left to right. */
  predicate Precedes(a: Address, b: Address) {
    b != [] && (a == [] || a[0] < b[0] || (a[0] == b[0] && Precedes(a[1..], b[1..])))
  }

  /** `a` is the first forbidden entry among those below children `from` and up. */
  ghost predicate FirstForbidden(node: Yaml, from: nat, a: Address) {
    && a != [] && a[0] >= from && ForbiddenAt(node, a)
    && forall b {:trigger ForbiddenAt(node, b)} | b != [] && b[0] >= from && ForbiddenAt(node, b) && b != a :: Precedes(a, b)
  }

  ghost predicate NoneForbidden(node: Yaml, from: nat) {
    forall b {:trigger ForbiddenAt(node, b)} | b != [] && b[0] >= from :: !ForbiddenAt(node, b)
  }

  /** The finding is the first forbidden entry and carries its path. */
  ghost predicate Reports(node: Yaml, path: string, from: nat, r: Option<Finding>, a: Address) {
    if r.None? then NoneForbidden(node, from)
    else
      && FirstForbidden(node, from, a)
      && r.value.path == Render(node, path, a)
      && CheckKeyValue(EntryAt(node, a).value.0, EntryAt(node, a).value.1) == Some(r.value.reason)
  }

  /** Below child `i`: either the entry itself or something inside its value. */
  lemma BelowChild(node: Yaml, i: nat, b: Address)
    requires b != [] && b[0] == i && Child(node, i).Some?
    ensures |b| > 1 ==> (ForbiddenAt(node, b) <==> ForbiddenAt(Child(node, i).value, b[1..]))
    ensures |b| == 1 && !node.Map? ==> !ForbiddenAt(node, b)
    ensures |b| == 1 && node.Map? ==> b == [i]
  {
  }

  lemma FirstBelowChild(node: Yaml, path: string, i: nat, below: Address)
    requires Child(node, i).Some? && FirstForbidden(Child(node, i).value, 0, below)
    requires !ForbiddenAt(node, [i])
    ensures FirstForbidden(node, i, [i] + below)
  {
    var child, a := Child(node, i).value, [i] + below;
    assert a[1..] == below;
    BelowChild(node, i, a);
    forall b | b != [] && b[0] >= i && ForbiddenAt(node, b) && b != a ensures Precedes(a, b) {
      if b[0] == i {
        BelowChild(node, i, b);
        assert b != [i] && b == [i] + b[1..];
        assert ForbiddenAt(child, b[1..]);
      }
    }
  }

  lemma NothingBelowChild(node: Yaml, i: nat, r: Option<Finding>, path: string, a: Address)
    requires Child(node, i).Some? && NoneForbidden(Child(node, i).value, 0) && !ForbiddenAt(node, [i])
    requires Reports(node, path, i + 1, r, a)
    ensures Reports(node, path, i, r, a)
  {
    forall b | b != [] && b[0] == i ensures !ForbiddenAt(node, b) {
      BelowChild(node, i, b);
      if |b| == 1 {
        assert b == [i];
      } else {
        assert b[1..] != [] && !ForbiddenAt(Child(node, i).value, b[1..]);
      }
    }
  }

  lemma {:induction false} WalkReports(node: Yaml, path: string) returns (a: Address)
    ensures Reports(node, path, 0, Walk(node, path), a)
    decreases node, 1, 0
  {
    a := [];
    match node {
      case Map(_) => a := WalkEntriesReports(node, path, 0);
      case Seq(_) => a := WalkItemsReports(node, path, 0);
      case _ =>
    }
  }

  lemma {:induction false} WalkEntriesReports(node: Yaml, path: string, i: nat) returns (a: Address)
    requires node.Map? && i <= |node.entries|
    ensures Reports(node, path, i, WalkEntries(node, path, i), a)
    decreases node, 0, |node.entries| - i
  {
    a := [];
    if i < |node.entries| {
      var key, value := KeyText(node.entries[i].0), node.entries[i].1;
      CheckFollowsTheRules(key, value);
      assert EntryAt(node, [i]) == Some((key, value));
      if CheckKeyValue(key, value).Some? {
        a := [i];
        EntryComesFirst(node, i);
      } else {
        var below := WalkReports(value, EntryPath(path, key));
        if Walk(value, EntryPath(path, key)).Some? {
          FirstBelowChild(node, path, i, below);
          a := [i] + below;
          assert a[1..] == below;
        } else {
          a := WalkEntriesReports(node, path, i + 1);
          NothingBelowChild(node, i, WalkEntries(node, path, i + 1), path, a);
        }
      }
    }
  }

  lemma EntryComesFirst(node: Yaml, i: nat)
    requires ForbiddenAt(node, [i])
    ensures FirstForbidden(node, i, [i])
  {
    forall b | b != [] && b[0] >= i && ForbiddenAt(node, b) && b != [i] ensures Precedes([i], b) {
      if b[0] == i {
        assert |b| > 1 && [i][1..] == [];
      }
    }
  }

  lemma {:induction false} WalkItemsReports(node: Yaml, path: string, i: nat) returns (a: Address)
    requires node.Seq? && i <= |node.items|
    ensures Reports(node, path, i, WalkItems(node, path, i), a)
    decreases node, 0, |node.items| - i
  {
    a := [];
    if i < |node.items| {
      var below := WalkReports(node.items[i], ItemPath(path, i));
      if Walk(node.items[i], ItemPath(path, i)).Some? {
        FirstBelowChild(node, path, i, below);
        a := [i] + below;
        assert a[1..] == below;
      } else {
        a := WalkItemsReports(node, path, i + 1);
        NothingBelowChild(node, i, WalkItems(node, path, i + 1), path, a);
      }
    }
  }

  // ---------------------------------------------------------------- volumes

  const WEBROOT := "/var/lib/glyndor" + "/helmly/nginx/webroot"

  predicate VolumeSourceOk(src: string, projectDir: string) {
    if StartsWith(src, "/") then
      StartsWith(src, projectDir) || StartsWith(src, WEBROOT) || src == "/tmp" || StartsWith(src, "/tmp/")
    else true
  }

  /** The host path that a volume entry names, in the long or the short form. */
  function SourceOf(entry: Yaml): Option<string> {
    match entry
    case Map(_) =>
      var source := entry.Get("source");
      if source.Some? && source.value.Str? then Some(source.value.s) else None
    case Str(s) => if IndexOf(s, ':') < |s| then Some(s[..IndexOf(s, ':')]) else None
    case _ => None
  }

  function CheckVolumeList(entries: seq<Yaml>, projectDir: string, i: nat): Option<nat>
    requires i <= |entries|
    decreases |entries| - i
  {
    if i == |entries| then None
    else
      var source := SourceOf(entries[i]);
      if source.Some? && !VolumeSourceOk(source.value, projectDir) then Some(i) else CheckVolumeList(entries, projectDir, i + 1)
  }

  function CheckServiceVolumes(service: Yaml, projectDir: string): Option<nat> {
    var volumes := service.Get("volumes");
    if volumes.Some? && volumes.value.Seq? then CheckVolumeList(volumes.value.items, projectDir, 0) else None
  }

  function CheckServices(services: seq<(Yaml, Yaml)>, projectDir: string): Option<nat> {
    if services == [] then None
    else
      var bad := CheckServiceVolumes(services[0].1, projectDir);
      if bad.Some? then bad else CheckServices(services[1..], projectDir)
  }

  /** `check_volumes`, with the index of the offending volume. */
  function CheckVolumes(root: Yaml, projectDir: string): Option<nat> {
    var services := root.Get("services");
    if services.Some? && services.value.Map? then CheckServices(services.value.entries, projectDir) else None
  }

  /** Volume `v` of service `s` names a host path outside what a tenant may mount. */
  predicate DisallowedVolume(root: Yaml, s: nat, v: nat, projectDir: string) {
    var services := root.Get("services");
    && services.Some? && services.value.Map? && s < |services.value.entries|
    && var volumes := services.value.entries[s].1.Get("volumes");
    && volumes.Some? && volumes.value.Seq? && v < |volumes.value.items|
    && var source := SourceOf(volumes.value.items[v]);
    && source.Some? && StartsWith(source.value, "/")
    && !StartsWith(source.value, projectDir) && !StartsWith(source.value, WEBROOT)
    && source.value != "/tmp" && !StartsWith(source.value, "/tmp/")
  }

  predicate BadVolumeIn(entries: seq<Yaml>, v: nat, projectDir: string) {
    v < |entries| && SourceOf(entries[v]).Some? && !VolumeSourceOk(SourceOf(entries[v]).value, projectDir)
  }

  /** The first bad volume, if there is one. */
  lemma {:induction false} VolumeListReports(entries: seq<Yaml>, projectDir: string, i: nat)
    requires i <= |entries|
    ensures CheckVolumeList(entries, projectDir, i).None? <==> forall v | i <= v < |entries| :: !BadVolumeIn(entries, v, projectDir)
    ensures var found := CheckVolumeList(entries, projectDir, i);
            found.Some? ==>
              && i <= found.value < |entries| && BadVolumeIn(entries, found.value, projectDir)
              && forall v | i <= v < found.value :: !BadVolumeIn(entries, v, projectDir)
    decreases |entries| - i
  {
    if i < |entries| {
      VolumeListReports(entries, projectDir, i + 1);
      assert CheckVolumeList(entries, projectDir, i).None? <==>
        !BadVolumeIn(entries, i, projectDir) && CheckVolumeList(entries, projectDir, i + 1).None?;
    }
  }

  predicate ServiceOk(service: Yaml, projectDir: string) {
    var volumes := service.Get("volumes");
    volumes.Some? && volumes.value.Seq? ==>
      forall v | 0 <= v < |volumes.value.items| :: !BadVolumeIn(volumes.value.items, v, projectDir)
  }

  lemma ServiceReports(service: Yaml, projectDir: string)
    ensures CheckServiceVolumes(service, projectDir).None? <==> ServiceOk(service, projectDir)
  {
    var volumes := service.Get("volumes");
    if volumes.Some? && volumes.value.Seq? {
      VolumeListReports(volumes.value.items, projectDir, 0);
    }
  }

  /** The first service with a bad volume, if there is one. */
  lemma {:induction false} ServicesReport(services: seq<(Yaml, Yaml)>, projectDir: string) returns (first: nat)
    ensures first <= |services|
    ensures forall s | 0 <= s < first :: ServiceOk(services[s].1, projectDir)
    ensures CheckServices(services, projectDir).None? <==> first == |services|
    ensures first < |services| ==>
              && !ServiceOk(services[first].1, projectDir)
              && CheckServices(services, projectDir) == CheckServiceVolumes(services[first].1, projectDir)
  {
    first := 0;
    if services != [] {
      ServiceReports(services[0].1, projectDir);
      if ServiceOk(services[0].1, projectDir) {
        var later := ServicesReport(services[1..], projectDir);
        first := later + 1;
        assert forall s | 0 < s < |services| :: services[s] == services[1..][s - 1];
      }
    }
  }

  // ---------------------------------------------------------------- the validator

  datatype Rejection = InvalidYaml | Entry(finding: Finding) | Volume(index: nat)

  /** `validate_compose`, from the parsed document on. */
  function ValidateCompose(document: Option<Yaml>, projectDir: string): Result<(), Rejection> {
    match document
    case None => Err(InvalidYaml)
    case Some(root) =>
      var finding := Walk(root, "");
      if finding.Some? then Err(Entry(finding.value))
      else
        var volume := CheckVolumes(root, projectDir);
        if volume.Some? then Err(Volume(volume.value)) else Ok(())
  }

  /** The service and the volume of the first disallowed host path, if there is one. */
  lemma VolumesReport(root: Yaml, projectDir: string) returns (s: nat, v: nat)
    ensures CheckVolumes(root, projectDir).None? <==> NoDisallowedVolume(root, projectDir)
    ensures CheckVolumes(root, projectDir).Some? ==>
              && CheckVolumes(root, projectDir) == Some(v) && DisallowedVolume(root, s, v, projectDir)
              && forall s', v' | DisallowedVolume(root, s', v', projectDir) :: s < s' || (s == s' && v <= v')
  {
    s, v := 0, 0;
    var services := root.Get("services");
    if services.Some? && services.value.Map? {
      var entries := services.value.entries;
      s := ServicesReport(entries, projectDir);
      forall s' | 0 <= s' < |entries|
        ensures ServiceOk(entries[s'].1, projectDir) <==> forall v' :: !DisallowedVolume(root, s', v', projectDir)
      {
        DisallowedInService(root, s', projectDir);
      }
      if s < |entries| {
        var volumes := entries[s].1.Get("volumes");
        VolumeListReports(volumes.value.items, projectDir, 0);
        DisallowedInService(root, s, projectDir);
        v := CheckVolumes(root, projectDir).value;
      }
    }
  }

  lemma DisallowedInService(root: Yaml, s: nat, projectDir: string)
    requires root.Get("services").Some? && root.Get("services").value.Map? && s < |root.Get("services").value.entries|
    ensures var service := root.Get("services").value.entries[s].1;
            var volumes := service.Get("volumes");
            && (ServiceOk(service, projectDir) <==> forall v :: !DisallowedVolume(root, s, v, projectDir))
            && forall v :: DisallowedVolume(root, s, v, projectDir) <==>
                  volumes.Some? && volumes.value.Seq? && BadVolumeIn(volumes.value.items, v, projectDir)
  {
    var service := root.Get("services").value.entries[s].1;
    var volumes := service.Get("volumes");
    if volumes.Some? && volumes.value.Seq? {
      forall v: nat ensures DisallowedVolume(root, s, v, projectDir) <==> BadVolumeIn(volumes.value.items, v, projectDir) {
      }
    }
  }

  ghost predicate NothingForbidden(root: Yaml) {
    forall a {:trigger ForbiddenAt(root, a)} :: !ForbiddenAt(root, a)
  }

  ghost predicate NoDisallowedVolume(root: Yaml, projectDir: string) {
    forall s, v :: !DisallowedVolume(root, s, v, projectDir)
  }

  /**
   Sound and complete: a document is accepted exactly when no mapping entry reachable through
   mappings and sequences is forbidden and no service volume names a disallowed host path.
   */
  lemma ComposeAcceptedIff(root: Yaml, projectDir: string)
    ensures ValidateCompose(Some(root), projectDir).Ok? <==> NothingForbidden(root) && NoDisallowedVolume(root, projectDir)
  {
    var a := WalkReports(root, "");
    var _, _ := VolumesReport(root, projectDir);
    if Walk(root, "").None? {
      forall b ensures !ForbiddenAt(root, b) {
        if b != [] {
          assert !ForbiddenAt(root, b);
        }
      }
    }
  }

  /** A rejection by the walker names the first forbidden entry in pre-order. */
  lemma RejectionNamesTheFirstEntry(root: Yaml, projectDir: string) returns (a: Address)
    requires ValidateCompose(Some(root), projectDir).Err?
    requires ValidateCompose(Some(root), projectDir).error.Entry?
    ensures ForbiddenAt(root, a)
    ensures ValidateCompose(Some(root), projectDir).error.finding.path == Render(root, "", a)
    ensures forall b {:trigger ForbiddenAt(root, b)} | ForbiddenAt(root, b) && b != a :: Precedes(a, b)
  {
    a := WalkReports(root, "");
  }

  // ---------------------------------------------------------------- tagged nodes

  /** The entry at an address when every tag on the way is looked through. */
  function DeepEntryAt(node: Yaml, a: Address): Option<(string, Yaml)>
    decreases |a|
  {
    var n := node.Untag();
    if a == [] || Child(n, a[0]).None? then None
    else if |a| > 1 then DeepEntryAt(Child(n, a[0]).value, a[1..])
    else if n.Map? then Some((KeyText(n.entries[a[0]].0), n.entries[a[0]].1))
    else None
  }

  predicate DeepForbiddenAt(root: Yaml, a: Address) {
    DeepEntryAt(root, a).Some? && Forbidden(DeepEntryAt(root, a).value.0, DeepEntryAt(root, a).value.1)
  }

  /** No mapping or sequence on the way carries a tag. */
  predicate TagFreeTo(node: Yaml, a: Address)
    decreases |a|
  {
    !node.Tagged? && (|a| > 1 && Child(node, a[0]).Some? ==> TagFreeTo(Child(node, a[0]).value, a[1..]))
  }

  /** The walker reads an entry exactly when nothing above it is tagged. */
  lemma {:induction false} EntryIsReadIff(node: Yaml, a: Address)
    ensures EntryAt(node, a).Some? <==> DeepEntryAt(node, a).Some? && TagFreeTo(node, a)
    ensures EntryAt(node, a).Some? ==> EntryAt(node, a) == DeepEntryAt(node, a)
    decreases |a|
  {
    if |a| > 1 && !node.Tagged? && Child(node, a[0]).Some? {
      EntryIsReadIff(Child(node, a[0]).value, a[1..]);
    }
  }

  ghost predicate EveryForbiddenEntryIsTagged(root: Yaml) {
    forall a {:trigger DeepForbiddenAt(root, a)} | DeepForbiddenAt(root, a) :: !TagFreeTo(root, a)
  }

  /** Of the forbidden entries at any depth the walker misses exactly those below a tag. */
  lemma NothingForbiddenIff(root: Yaml)
    ensures NothingForbidden(root) <==> EveryForbiddenEntryIsTagged(root)
  {
    forall a ensures ForbiddenAt(root, a) <==> DeepForbiddenAt(root, a) && TagFreeTo(root, a) {
      EntryIsReadIff(root, a);
    }
  }

  /** Whatever is below a tag passes. */
  lemma TaggedValueIsNotWalked(key: string, tag: string, value: Yaml, projectDir: string)
    requires !Forbidden(key, Tagged(tag, value))
    ensures ValidateCompose(Some(Map([(Str(key), Tagged(tag, value))])), projectDir) == Ok(())
  {
    var root := Map([(Str(key), Tagged(tag, value))]);
    CheckFollowsTheRules(key, Tagged(tag, value));
    assert root.entries[1..] == [] && KeyText(root.entries[0].0) == key;
    assert WalkEntries(root, "", 1).None? && Walk(Tagged(tag, value), EntryPath("", key)).None?;
    assert WalkEntries(root, "", 0).None? && Walk(root, "").None?;
    assert Lookup([], "services").None?;
    assert CheckVolumes(root, projectDir).None?;
  }

  // ---------------------------------------------------------------- what the volume guard contains

  const WEBROOT_PATH := ["var", "lib", "glyndor", "helmly", "nginx", "webroot"]
  const TMP_PATH := ["tmp"]

  /** The path that a volume source names: an absolute one, or one taken from the project. */
  function Target(src: string, project: seq<string>): seq<string> {
    if StartsWith(src, "/") then Components(src) else project + Components("/" + src)
  }

  /** Below the project, the webroot or /tmp, once every `..` has been followed. */
  predicate Contained(src: string, project: seq<string>) {
    var target := Resolve([], Target(src, project));
    project <= target || WEBROOT_PATH <= target || TMP_PATH <= target
  }

  lemma WebrootNames()
    ensures Names(WEBROOT_PATH)
  {
  }

  lemma WebrootText()
    ensures WEBROOT == Join(WEBROOT_PATH)
  {
    WebrootFront();
    WebrootBack();
    JoinAppend(["var", "lib", "glyndor"], ["helmly", "nginx", "webroot"]);
    assert WEBROOT_PATH == ["var", "lib", "glyndor"] + ["helmly", "nginx", "webroot"];
  }

  lemma WebrootFront()
    ensures Join(["var", "lib", "glyndor"]) == "/var/lib/glyndor"
  {
    JoinThree("var", "lib", "glyndor");
  }

  lemma WebrootBack()
    ensures Join(["helmly", "nginx", "webroot"]) == "/helmly/nginx/webroot"
  {
    JoinThree("helmly", "nginx", "webroot");
  }

  lemma TmpText(path: seq<string>)
    requires Slashless(path)
    ensures TMP_PATH <= path <==> Join(path) == "/tmp" || StartsWith(Join(path), "/tmp/")
  {
    if path != [] {
      var rest := Join(path[1..]);
      assert rest == "" || rest[0] == '/';
      FirstNames(path[0], rest, "tmp", "/");
      FirstNames(path[0], rest, "tmp", "");
      assert "/" + "tmp" + "/" == "/tmp/" && "/" + "tmp" + "" == "/tmp";
      assert "/tmp" == Join(path) ==> StartsWith(Join(path), "/tmp") && |rest| + |path[0]| == 3;
    }
  }

  /** Where a path lies by its text: below one of the three directories, or beside the project or the
      webroot under a name that begins with theirs. */
  predicate AllowedByText(path: seq<string>, project: seq<string>) {
    || project <= path || WEBROOT_PATH <= path || TMP_PATH <= path
    || BesideWithLongerName(path, project) || BesideWithLongerName(path, WEBROOT_PATH)
  }

  /** What the guard accepts, for every source: relative paths, and absolute ones by their text. */
  lemma VolumeOkIff(src: string, project: seq<string>)
    requires Slashless(project)
    ensures VolumeSourceOk(src, Join(project)) <==> !StartsWith(src, "/") || AllowedByText(Components(src), project)
  {
    if StartsWith(src, "/") {
      var path := Components(src);
      JoinOfComponents(src);
      AllowedTextIff(path, project);
    }
  }

  lemma AllowedTextIff(path: seq<string>, project: seq<string>)
    requires Slashless(path) && Slashless(project) && StartsWith(Join(path), "/")
    ensures VolumeSourceOk(Join(path), Join(project)) <==> AllowedByText(path, project)
  {
    WebrootText();
    WebrootNames();
    TextPrefixIff(path, project);
    TextPrefixIff(path, WEBROOT_PATH);
    TmpText(path);
  }

  lemma TargetOfJoin(path: seq<string>, project: seq<string>)
    requires Slashless(path) && path != []
    ensures StartsWith(Join(path), "/") && Target(Join(path), project) == path
  {
    ComponentsOfJoin(path);
    assert Join(path)[..1] == "/";
  }

  /** What of it stays inside, for every source: where the path parts with one of the directories it
      must walk back to it. */
  lemma ContainedIff(src: string, project: seq<string>)
    requires Names(project)
    ensures Contained(src, project) <==>
              var path := Target(src, project);
              ComesBack(project, path) || ComesBack(WEBROOT_PATH, path) || ComesBack(TMP_PATH, path)
  {
    var path := Target(src, project);
    WebrootNames();
    InsideIffItComesBack(project, path);
    InsideIffItComesBack(WEBROOT_PATH, path);
    InsideIffItComesBack(TMP_PATH, path);
  }

  /** So a source escapes exactly when the guard lets its text pass and its path comes back nowhere. */
  lemma VolumeEscapesIff(src: string, project: seq<string>)
    requires Names(project)
    ensures VolumeSourceOk(src, Join(project)) && !Contained(src, project) <==>
              var path := Target(src, project);
              && (StartsWith(src, "/") ==> AllowedByText(path, project))
              && !ComesBack(project, path) && !ComesBack(WEBROOT_PATH, path) && !ComesBack(TMP_PATH, path)
  {
    VolumeOkIff(src, project);
    ContainedIff(src, project);
  }

  /** A relative source is always accepted. It stays in the project exactly when it names again what it
      gives up of the project's path. */
  lemma RelativeStaysInProjectIff(src: string, project: seq<string>)
    requires !StartsWith(src, "/") && Names(project)
    ensures VolumeSourceOk(src, Join(project))
    ensures project <= Resolve([], Target(src, project)) <==>
              var w := STILL.Along(Components("/" + src)); project[|project| - Min(w.low, |project|)..] <= w.tail
  {
    InsideIffItComesBack(project, Target(src, project));
    BelowComesBack(project, Components("/" + src));
  }

  predicate AllowedFront(front: seq<string>, project: seq<string>) {
    front == project || front == WEBROOT_PATH || front == TMP_PATH
  }

  /** So is an absolute one behind any of the three directories, and it stays below that one exactly
      when it names again what it gives up of it. */
  lemma AbsoluteStaysBelowIff(front: seq<string>, rest: seq<string>, project: seq<string>)
    requires project != [] && Names(project) && AllowedFront(front, project) && Slashless(rest)
    ensures VolumeSourceOk(Join(front + rest), Join(project))
    ensures Target(Join(front + rest), project) == front + rest
    ensures front <= Resolve([], front + rest) <==>
              var w := STILL.Along(rest); front[|front| - Min(w.low, |front|)..] <= w.tail
  {
    FrontIsNames(front, project);
    SlashlessConcat(front, rest);
    TargetOfJoin(front + rest, project);
    AllowedTextIff(front + rest, project);
    InsideIffItComesBack(front, front + rest);
    BelowComesBack(front, rest);
  }

  lemma FrontIsNames(front: seq<string>, project: seq<string>)
    requires project != [] && Names(project) && AllowedFront(front, project)
    ensures Names(front) && front != []
  {
    WebrootNames();
  }

  lemma SlashlessConcat(a: seq<string>, b: seq<string>)
    requires Names(a) && Slashless(b)
    ensures Slashless(a + b)
  {
    assert forall i | 0 <= i < |a| :: IsName(a[i]);
  }

  lemma PlainComesBack(dir: seq<string>, path: seq<string>)
    requires Names(dir) && Names(path)
    ensures ComesBack(dir, path) <==> dir <= path
  {
    InsideIffItComesBack(dir, path);
    NamesResolveToThemselves([], path);
    assert [] + path == path;
  }

  /** An absolute path of plain names gets out only beside the project or the webroot, under a name
      that begins with theirs. */
  lemma PlainVolumeOkIff(path: seq<string>, project: seq<string>)
    requires path != [] && Names(path) && Names(project)
    ensures VolumeSourceOk(Join(path), Join(project)) <==>
              || Contained(Join(path), project)
              || BesideWithLongerName(path, project) || BesideWithLongerName(path, WEBROOT_PATH)
  {
    TargetOfJoin(path, project);
    AllowedTextIff(path, project);
    ContainedIff(Join(path), project);
    WebrootNames();
    PlainComesBack(project, path);
    PlainComesBack(WEBROOT_PATH, path);
    PlainComesBack(TMP_PATH, path);
  }

  /** Behind every allowed front, enough `..` lead to any place at the root. */
  lemma DottedVolumeIsAccepted(front: seq<string>, project: seq<string>, name: string)
    requires project != [] && Names(project) && AllowedFront(front, project)
    requires IsName(name) && name != project[0] && name != "tmp" && name != "var"
    ensures var src := Join(front + (Ups(|front|) + [name]));
            VolumeSourceOk(src, Join(project)) && Resolve([], Target(src, project)) == [name] && !Contained(src, project)
  {
    var rest := Ups(|front|) + [name];
    UpsAreSlashless(|front|, name);
    AbsoluteStaysBelowIff(front, rest, project);
    FrontIsNames(front, project);
    ResolveBelow(front, rest);
    UpsThenName(STILL, |front|, name);
    FromTheRoot(front, name);
    NotBelow(project, name);
    NotBelow(WEBROOT_PATH, name);
    NotBelow(TMP_PATH, name);
  }

  lemma FromTheRoot(front: seq<string>, name: string)
    ensures Route(|front|, [name]).From(front) == [name]
  {
    assert front[..0] + [name] == [name];
  }

  lemma NotBelow(dir: seq<string>, name: string)
    requires dir != [] && dir[0] != name
    ensures !(dir <= [name])
  {
    assert [name][0] == name;
  }

  lemma {:induction false} UpsAreSlashless(n: nat, name: string)
    requires IsName(name)
    ensures Slashless(Ups(n) + [name])
  {
    if n > 0 {
      UpsAreSlashless(n - 1, name);
      assert Ups(n) + [name] == [".."] + (Ups(n - 1) + [name]);
    }
  }

  lemma OneUpText(name: string)
    requires IsName(name)
    ensures Components("/" + ("../" + name)) == ["..", name]
  {
    assert "/" + name == "/" + name + "" && "/" + ("../" + name) == "/" + ".." + ("/" + name);
    ComponentsCons("..", "/" + name);
    ComponentsCons(name, "");
  }

  lemma OneUpRoute(name: string)
    requires IsName(name)
    ensures STILL.Along(["..", name]) == Route(1, [name])
  {
    assert Ups(1) == [".."] + Ups(0) && Ups(0) == [];
    assert Ups(1) + [name] == ["..", name];
    UpsThenName(STILL, 1, name);
  }

  /** A relative path one level up leaves the project unless it names it again. */
  lemma RelativeVolumeIsAccepted(project: seq<string>, name: string)
    requires project != [] && Names(project) && IsName(name)
    ensures VolumeSourceOk("../" + name, Join(project))
    ensures project <= Resolve([], Target("../" + name, project)) <==> name == project[|project| - 1]
  {
    var n := |project| - 1;
    assert ("../" + name)[..1] != "/";
    OneUpText(name);
    OneUpRoute(name);
    RelativeStaysInProjectIff("../" + name, project);
    assert project[n..] == [project[n]];
  }
}

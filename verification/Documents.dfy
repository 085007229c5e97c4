/**
 The compose validator over the nodes of a document: which keys and values are read, which host paths
 are mounted, and what a rejection says. Stated without the accessors the validator uses.
*/
module Documents {
  import opened Basics
  import opened Compose
  import opened Text

  // ---------------------------------------------------------------- keys

  /** A text, below any number of tags. */
  predicate IsText(node: Yaml, s: string) {
    node == Str(s) || (node.Tagged? && IsText(node.value, s))
  }

  lemma {:induction false} IsTextIff(node: Yaml, s: string)
    ensures IsText(node, s) <==> node.Untag() == Str(s)
    decreases node
  {
    if node.Tagged? {
      IsTextIff(node.value, s);
    }
  }

  /** A key reads as its text; one that is no text reads as a question mark. */
  lemma KeyReads(key: Yaml, s: string)
    ensures IsText(key, s) ==> KeyText(key) == s
    ensures KeyText(key) == s ==> IsText(key, s) || (s == "?" && forall t :: !IsText(key, t))
  {
    forall t ensures IsText(key, t) <==> key.Untag() == Str(t) {
      IsTextIff(key, t);
    }
  }

  lemma NoRuleForQuestionMarks(value: Yaml)
    ensures !Forbidden("?", value)
  {
    assert |"?"| == 1 && |"pid"| == 3 && |"ipc"| == 3 && |"init"| == 4;
  }

  ghost predicate EntryForbidden(key: Yaml, value: Yaml) {
    exists t :: IsText(key, t) && Forbidden(t, value)
  }

  lemma EntryForbiddenIff(key: Yaml, value: Yaml)
    ensures EntryForbidden(key, value) <==> CheckKeyValue(KeyText(key), value).Some?
  {
    var t := KeyText(key);
    KeyReads(key, t);
    CheckFollowsTheRules(t, value);
    NoRuleForQuestionMarks(value);
    if s :| IsText(key, s) && Forbidden(s, value) {
      KeyReads(key, s);
    }
  }

  // ---------------------------------------------------------------- entries

  /** A mapping of the document that is reached through mappings and sequences has this entry. */
  predicate Reaches(node: Yaml, key: Yaml, value: Yaml)
    decreases node
  {
    match node
    case Map(entries) =>
      exists i | 0 <= i < |entries| :: entries[i] == (key, value) || Reaches(entries[i].1, key, value)
    case Seq(items) => exists i | 0 <= i < |items| :: Reaches(items[i], key, value)
    case _ => false
  }

  ghost predicate Clean(node: Yaml) {
    forall key, value {:trigger Reaches(node, key, value)} | Reaches(node, key, value) :: !EntryForbidden(key, value)
  }

  ghost predicate EntryClean(entry: (Yaml, Yaml)) {
    !EntryForbidden(entry.0, entry.1) && Clean(entry.1)
  }

  lemma CleanMapIff(node: Yaml)
    requires node.Map?
    ensures Clean(node) <==> forall i | 0 <= i < |node.entries| :: EntryClean(node.entries[i])
  {
    if Clean(node) {
      forall i | 0 <= i < |node.entries| ensures EntryClean(node.entries[i]) {
        assert Reaches(node, node.entries[i].0, node.entries[i].1);
        forall key, value | Reaches(node.entries[i].1, key, value) ensures !EntryForbidden(key, value) {
          assert Reaches(node, key, value);
        }
      }
    }
    if forall i | 0 <= i < |node.entries| :: EntryClean(node.entries[i]) {
      forall key, value | Reaches(node, key, value) ensures !EntryForbidden(key, value) {
        var i :| 0 <= i < |node.entries| && (node.entries[i] == (key, value) || Reaches(node.entries[i].1, key, value));
        assert EntryClean(node.entries[i]);
      }
    }
  }

  lemma CleanSeqIff(node: Yaml)
    requires node.Seq?
    ensures Clean(node) <==> forall i | 0 <= i < |node.items| :: Clean(node.items[i])
  {
    if Clean(node) {
      forall i | 0 <= i < |node.items| ensures Clean(node.items[i]) {
        forall key, value | Reaches(node.items[i], key, value) ensures !EntryForbidden(key, value) {
          assert Reaches(node, key, value);
        }
      }
    }
    if forall i | 0 <= i < |node.items| :: Clean(node.items[i]) {
      forall key, value | Reaches(node, key, value) ensures !EntryForbidden(key, value) {
        var i :| 0 <= i < |node.items| && Reaches(node.items[i], key, value);
        assert Clean(node.items[i]);
      }
    }
  }

  lemma {:induction false} WalkIsCleanIff(node: Yaml, path: string)
    ensures Walk(node, path).None? <==> Clean(node)
    decreases node, 1, 0
  {
    match node {
      case Map(_) =>
        CleanMapIff(node);
        EntriesAreCleanIff(node, path, 0);
      case Seq(_) =>
        CleanSeqIff(node);
        ItemsAreCleanIff(node, path, 0);
      case _ =>
    }
  }

  lemma {:induction false} EntriesAreCleanIff(node: Yaml, path: string, i: nat)
    requires node.Map? && i <= |node.entries|
    ensures WalkEntries(node, path, i).None? <==> forall j | i <= j < |node.entries| :: EntryClean(node.entries[j])
    decreases node, 0, |node.entries| - i
  {
    if i < |node.entries| {
      var (key, value) := node.entries[i];
      EntryForbiddenIff(key, value);
      WalkIsCleanIff(value, EntryPath(path, KeyText(key)));
      EntriesAreCleanIff(node, path, i + 1);
      assert WalkEntries(node, path, i).None? <==> EntryClean(node.entries[i]) && WalkEntries(node, path, i + 1).None?;
    }
  }

  lemma {:induction false} ItemsAreCleanIff(node: Yaml, path: string, i: nat)
    requires node.Seq? && i <= |node.items|
    ensures WalkItems(node, path, i).None? <==> forall j | i <= j < |node.items| :: Clean(node.items[j])
    decreases node, 0, |node.items| - i
  {
    if i < |node.items| {
      WalkIsCleanIff(node.items[i], ItemPath(path, i));
      ItemsAreCleanIff(node, path, i + 1);
      assert WalkItems(node, path, i).None? <==> Clean(node.items[i]) && WalkItems(node, path, i + 1).None?;
    }
  }

  // ---------------------------------------------------------------- mounts

  predicate FirstAt(entries: seq<(Yaml, Yaml)>, key: string, value: Yaml, i: nat) {
    i < |entries| && entries[i] == (Str(key), value) && forall j | 0 <= j < i :: entries[j].0 != Str(key)
  }

  /** The first entry under a key of the mapping, below any number of tags. */
  predicate Gives(node: Yaml, key: string, value: Yaml) {
    match node
    case Tagged(_, inner) => Gives(inner, key, value)
    case Map(entries) => exists i | 0 <= i < |entries| :: FirstAt(entries, key, value, i)
    case _ => false
  }

  lemma {:induction false} LookupIff(entries: seq<(Yaml, Yaml)>, key: string, value: Yaml)
    ensures Lookup(entries, key) == Some(value) <==> exists i | 0 <= i < |entries| :: FirstAt(entries, key, value, i)
  {
    if entries != [] {
      LookupIff(entries[1..], key, value);
      assert forall j | 0 < j < |entries| :: entries[j] == entries[1..][j - 1];
      if entries[0].0 == Str(key) {
        assert entries[0] == (Str(key), entries[0].1);
        assert FirstAt(entries, key, entries[0].1, 0);
      } else {
        if i: nat :| FirstAt(entries[1..], key, value, i) {
          assert FirstAt(entries, key, value, i + 1);
        }
        if i: nat :| FirstAt(entries, key, value, i) {
          assert FirstAt(entries[1..], key, value, i - 1);
        }
      }
    }
  }

  lemma {:induction false} GetIff(node: Yaml, key: string, value: Yaml)
    ensures node.Get(key) == Some(value) <==> Gives(node, key, value)
    decreases node
  {
    match node {
      case Tagged(_, inner) =>
        GetIff(inner, key, value);
        assert node.Get(key) == inner.Get(key);
      case Map(entries) =>
        LookupIff(entries, key, value);
      case _ =>
    }
  }

  /** A volume entry names a source: in the long form under `source`, in the short form before the
      first colon. */
  ghost predicate Mounts(entry: Yaml, src: string) {
    match entry
    case Map(_) => Gives(entry, "source", Str(src))
    case Str(s) => ':' !in src && exists rest :: s == src + ":" + rest
    case _ => false
  }

  lemma ShortFormIff(s: string, src: string)
    ensures SourceOf(Str(s)) == Some(src) <==> Mounts(Str(s), src)
  {
    var i := IndexOf(s, ':');
    if i < |s| {
      assert [s[i]] == ":" && s == s[..i] + [s[i]] + s[i + 1..];
      assert s == s[..i] + ":" + s[i + 1..];
      assert Mounts(Str(s), s[..i]);
    }
    if ':' !in src {
      if rest :| s == src + ":" + rest {
        assert s == src + [':'] + rest;
        IndexOfFirst(src, ':', rest);
        assert s[..|src|] == src;
      }
    }
  }

  lemma SourceIff(entry: Yaml, src: string)
    ensures SourceOf(entry) == Some(src) <==> Mounts(entry, src)
  {
    match entry {
      case Map(_) =>
        GetIff(entry, "source", Str(src));
      case Str(s) =>
        ShortFormIff(s, src);
      case _ =>
    }
  }

  /** Volume `v` of service `s` of the document. */
  predicate IsVolume(root: Yaml, services: seq<(Yaml, Yaml)>, s: nat, volumes: seq<Yaml>, v: nat) {
    && Gives(root, "services", Map(services)) && s < |services|
    && Gives(services[s].1, "volumes", Seq(volumes)) && v < |volumes|
  }

  /** The document mounts the host path in some service. */
  ghost predicate MountsSomewhere(root: Yaml, src: string) {
    exists services, s: nat, volumes, v: nat :: IsVolume(root, services, s, volumes, v) && Mounts(volumes[v], src)
  }

  /** A relative path, or one whose text begins with that of an allowed directory. */
  predicate MayMount(src: string, projectDir: string) {
    || !("/" <= src)
    || projectDir <= src || "/var/lib/glyndor/helmly/nginx/webroot" <= src
    || src == "/tmp" || "/tmp/" <= src
  }

  lemma WebrootIs()
    ensures WEBROOT == "/var/lib/glyndor/helmly/nginx/webroot"
  {
  }

  lemma MayMountIff(src: string, projectDir: string)
    ensures VolumeSourceOk(src, projectDir) <==> MayMount(src, projectDir)
  {
    WebrootIs();
    assert forall p: string :: StartsWith(src, p) <==> p <= src;
  }

  lemma DisallowedIsMounted(root: Yaml, s: nat, v: nat, projectDir: string) returns (src: string)
    requires DisallowedVolume(root, s, v, projectDir)
    ensures MountsSomewhere(root, src) && !MayMount(src, projectDir)
  {
    var services := root.Get("services").value;
    var volumes := services.entries[s].1.Get("volumes").value;
    src := SourceOf(volumes.items[v]).value;
    GetIff(root, "services", services);
    GetIff(services.entries[s].1, "volumes", volumes);
    SourceIff(volumes.items[v], src);
    MayMountIff(src, projectDir);
    assert IsVolume(root, services.entries, s, volumes.items, v);
  }

  lemma MountedIsDisallowed(root: Yaml, src: string, projectDir: string) returns (s: nat, v: nat)
    requires MountsSomewhere(root, src) && !MayMount(src, projectDir)
    ensures DisallowedVolume(root, s, v, projectDir)
  {
    var services: seq<(Yaml, Yaml)>, s': nat, volumes: seq<Yaml>, v': nat :| IsVolume(root, services, s', volumes, v') && Mounts(volumes[v'], src);
    s, v := s', v';
    GetIff(root, "services", Map(services));
    GetIff(services[s].1, "volumes", Seq(volumes));
    SourceIff(volumes[v], src);
    MayMountIff(src, projectDir);
  }

  ghost predicate MountsOnlyAllowed(root: Yaml, projectDir: string) {
    forall src {:trigger MountsSomewhere(root, src)} | MountsSomewhere(root, src) :: MayMount(src, projectDir)
  }

  lemma MountsIff(root: Yaml, projectDir: string)
    ensures NoDisallowedVolume(root, projectDir) <==> MountsOnlyAllowed(root, projectDir)
  {
    if NoDisallowedVolume(root, projectDir) {
      forall src | MountsSomewhere(root, src) ensures MayMount(src, projectDir) {
        if !MayMount(src, projectDir) {
          var s, v := MountedIsDisallowed(root, src, projectDir);
        }
      }
    } else {
      var s, v :| DisallowedVolume(root, s, v, projectDir);
      var src := DisallowedIsMounted(root, s, v, projectDir);
    }
  }

  // ---------------------------------------------------------------- the verdict

  /** A document is accepted exactly when no entry of a mapping that is reached through mappings and
      sequences has a text for a key that is forbidden with its value, and every host path that a
      service mounts is allowed. */
  lemma AcceptedIffCleanAndContained(root: Yaml, projectDir: string)
    ensures ValidateCompose(Some(root), projectDir).Ok? <==> Clean(root) && MountsOnlyAllowed(root, projectDir)
    ensures !Clean(root) <==> ValidateCompose(Some(root), projectDir).Err? && ValidateCompose(Some(root), projectDir).error.Entry?
    ensures ValidateCompose(None, projectDir) == Err(InvalidYaml)
  {
    WalkIsCleanIff(root, "");
    MountsIff(root, projectDir);
    var _, _ := VolumesReport(root, projectDir);
  }

  /** A privileged container is refused in any document, at whatever depth, whatever the value. */
  lemma PrivilegedIsRefused(root: Yaml, value: Yaml, projectDir: string)
    requires Reaches(root, Str("privileged"), value)
    ensures ValidateCompose(Some(root), projectDir).Err?
  {
    assert IsText(Str("privileged"), "privileged");
    assert EntryForbidden(Str("privileged"), value);
    AcceptedIffCleanAndContained(root, projectDir);
  }

  /** The message names keys with dots between them, and the position in a sequence in brackets. */
  lemma PathIsSpeltOut(outer: string, inner: string, value: Yaml, projectDir: string)
    requires outer != "" && Forbidden(inner, value)
    requires !Forbidden(outer, Map([(Str(inner), value)])) && !Forbidden(outer, Seq([Map([(Str(inner), value)])]))
    ensures var r := ValidateCompose(Some(Map([(Str(outer), Map([(Str(inner), value)]))])), projectDir);
            r.Err? && r.error.Entry? && r.error.finding.path == outer + "." + inner
    ensures var r := ValidateCompose(Some(Map([(Str(outer), Seq([Map([(Str(inner), value)])]))])), projectDir);
            r.Err? && r.error.Entry? && r.error.finding.path == outer + "[0]" + "." + inner
  {
    CheckFollowsTheRules(inner, value);
    CheckFollowsTheRules(outer, Map([(Str(inner), value)]));
    CheckFollowsTheRules(outer, Seq([Map([(Str(inner), value)])]));
    var leaf := Map([(Str(inner), value)]);
    EntryIsFound(leaf, inner, value, outer);
    EntryIsFound(leaf, inner, value, outer + "[0]");
    BelowIsFound(Map([(Str(outer), leaf)]), outer, leaf);
    ItemIsFound(leaf, outer);
    BelowIsFound(Map([(Str(outer), Seq([leaf]))]), outer, Seq([leaf]));
  }

  lemma EntryIsFound(node: Yaml, key: string, value: Yaml, path: string)
    requires node == Map([(Str(key), value)]) && path != "" && CheckKeyValue(key, value).Some?
    ensures Walk(node, path).Some? && Walk(node, path).value.path == path + "." + key
  {
    assert node.entries[0] == (Str(key), value) && KeyText(Str(key)) == key;
    assert Walk(node, path) == WalkEntries(node, path, 0);
  }

  lemma BelowIsFound(node: Yaml, key: string, value: Yaml)
    requires node == Map([(Str(key), value)]) && CheckKeyValue(key, value).None? && Walk(value, key).Some?
    ensures Walk(node, "") == Walk(value, key)
  {
    assert node.entries[0] == (Str(key), value) && KeyText(Str(key)) == key;
    assert Walk(node, "") == WalkEntries(node, "", 0);
  }

  lemma ItemIsFound(leaf: Yaml, path: string)
    requires Walk(leaf, path + "[0]").Some?
    ensures Walk(Seq([leaf]), path) == Walk(leaf, path + "[0]")
  {
    var node := Seq([leaf]);
    assert Decimal(0) == "0";
    assert ItemPath(path, 0) == path + "[0]";
    assert Walk(node, path) == WalkItems(node, path, 0);
  }
}

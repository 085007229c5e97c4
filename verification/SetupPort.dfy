/**
 Closing the setup port (internal/handlers/nginx_cmd.rs): list the chain, delete every rule that
 accepts the port by its handle, list again and refuse to report success while one is left.
 */
module SetupPort {
  import opened Basics
  import opened Text
  import Auth

  /** How a rule names the setup port. */
  const DPORT := "dport 19443"

  const MARKER := "# handle "

  // ---------------------------------------------------------------- reading a listing

  predicate NamesAccept(line: string) {
    Contains(line, DPORT) && "accept" in Words(line)
  }

  /** `rsplit_once("# handle ")` and the number behind it. */
  function HandleOf(line: string): Option<nat> {
    match LastOccurrence(line, MARKER, |line|)
    case None => None
    case Some(i) => ParseU64(Trim(line[i + |MARKER|..]))
  }

  /** The filter and the parser that `accepting_handles` puts every line through. */
  function AcceptingHandle(line: string): Option<nat> {
    if NamesAccept(line) then HandleOf(line) else None
  }

  function AcceptingHandles(listing: string): seq<nat> {
    FilterMap(AcceptingHandle, Lines(listing))
  }

  // ---------------------------------------------------------------- nft

  datatype Call = ListChain | DeleteRule(handle: nat)

  datatype Answer = Output(text: string) | NftError

  datatype Failure = ForbiddenCommand | ListFailed | DeleteFailed(handle: nat) | StillAccepted(remaining: nat, deleted: nat)

  /** `nft` on a system whose state is a `W`: any function from state and call to state and answer. */
  class Nft<W> {
    const behaviour: (W, Call) -> (W, Answer)
    var world: W

    constructor (behaviour: (W, Call) -> (W, Answer), world: W)
      ensures this.behaviour == behaviour && this.world == world
    {
      this.behaviour := behaviour;
      this.world := world;
    }

    method Run(call: Call) returns (answer: Answer)
      modifies this
      ensures (world, answer) == behaviour(old(world), call)
    {
      var (next, a) := behaviour(world, call);
      world := next;
      answer := a;
    }
  }

  function DeleteAll<W>(nft: (W, Call) -> (W, Answer), w: W, handles: seq<nat>): (W, Option<Failure>) {
    if handles == [] then (w, None)
    else
      var (next, answer) := nft(w, DeleteRule(handles[0]));
      if answer.NftError? then (next, Some(DeleteFailed(handles[0]))) else DeleteAll(nft, next, handles[1..])
  }

  function Close<W>(nft: (W, Call) -> (W, Answer), w: W, permission: Auth.Permission): (W, Result<nat, Failure>) {
    if permission.Read? then (w, Err(ForbiddenCommand))
    else
      var (w1, first) := nft(w, ListChain);
      if first.NftError? then (w1, Err(ListFailed))
      else
        var handles := AcceptingHandles(first.text);
        var (w2, failed) := DeleteAll(nft, w1, handles);
        if failed.Some? then (w2, Err(failed.value))
        else
          var (w3, second) := nft(w2, ListChain);
          if second.NftError? then (w3, Err(ListFailed))
          else
            var remaining := AcceptingHandles(second.text);
            (w3, if remaining == [] then Ok(|handles|) else Err(StillAccepted(|remaining|, |handles|)))
  }

  lemma DeletesOneMore<W>(nft: (W, Call) -> (W, Answer), w: W, handles: seq<nat>, i: nat)
    requires i < |handles|
    ensures DeleteAll(nft, w, handles[i..])
         == var (next, answer) := nft(w, DeleteRule(handles[i]));
            if answer.NftError? then (next, Some(DeleteFailed(handles[i]))) else DeleteAll(nft, next, handles[i + 1..])
  {
    assert handles[i..][1..] == handles[i + 1..];
  }

  method CloseSetupPort<W>(nft: Nft<W>, permission: Auth.Permission) returns (r: Result<nat, Failure>)
    modifies nft
    ensures (nft.world, r) == Close(nft.behaviour, old(nft.world), permission)
  {
    if permission.Read? {
      return Err(ForbiddenCommand);
    }
    var first := nft.Run(ListChain);
    if first.NftError? {
      return Err(ListFailed);
    }
    var handles := AcceptingHandles(first.text);
    ghost var w1 := nft.world;
    var i := 0;
    while i < |handles|
      invariant 0 <= i <= |handles|
      invariant DeleteAll(nft.behaviour, nft.world, handles[i..]) == DeleteAll(nft.behaviour, w1, handles)
    {
      DeletesOneMore(nft.behaviour, nft.world, handles, i);
      var answer := nft.Run(DeleteRule(handles[i]));
      if answer.NftError? {
        return Err(DeleteFailed(handles[i]));
      }
      i := i + 1;
    }
    var second := nft.Run(ListChain);
    if second.NftError? {
      return Err(ListFailed);
    }
    var remaining := AcceptingHandles(second.text);
    r := if remaining == [] then Ok(|handles|) else Err(StillAccepted(|remaining|, |handles|));
  }

  /** Whatever `nft` does, success means that the listing taken last shows no accepting rule. */
  lemma OkMeansNoneListed<W>(nft: (W, Call) -> (W, Answer), w: W, permission: Auth.Permission)
    requires Close(nft, w, permission).1.Ok?
    ensures exists before: W, listing: string ::
              nft(before, ListChain) == (Close(nft, w, permission).0, Output(listing)) && AcceptingHandles(listing) == []
  {
    var (w1, first) := nft(w, ListChain);
    var (w2, _) := DeleteAll(nft, w1, AcceptingHandles(first.text));
    var (w3, second) := nft(w2, ListChain);
    assert nft(w2, ListChain) == (w3, Output(second.text));
  }

  // ---------------------------------------------------------------- printing and reading a chain

  datatype Rule = Rule(body: string, handle: nat)

  function PrintRule(r: Rule): string {
    r.body + (" " + MARKER + Decimal(r.handle))
  }

  /** The lines around the rules, such as the braces of table and chain, name no accepted port. */
  datatype Frame = Frame(header: string, footer: string)

  predicate Framing(f: Frame) {
    Terminated(f.header) && AcceptingHandles(f.header) == [] && AcceptingHandles(f.footer) == []
  }

  function PrintRules(rules: seq<Rule>): string {
    if rules == [] then "" else PrintRule(rules[0]) + "\n" + PrintRules(rules[1..])
  }

  function PrintChain(f: Frame, rules: seq<Rule>): string {
    f.header + (PrintRules(rules) + f.footer)
  }

  predicate Accepting(r: Rule) {
    NamesAccept(r.body)
  }

  predicate Printable(rules: seq<Rule>) {
    forall i | 0 <= i < |rules| :: '\n' !in rules[i].body && rules[i].handle < U64_LIMIT
  }

  function HandleIfAccepting(r: Rule): Option<nat> {
    if Accepting(r) then Some(r.handle) else None
  }

  function HandlesOf(rules: seq<Rule>): seq<nat> {
    FilterMap(HandleIfAccepting, rules)
  }

  /** The last marker of a printed rule is the one in front of its handle. */
  lemma HandleReadsBack(r: Rule)
    requires r.handle < U64_LIMIT
    ensures HandleOf(PrintRule(r)) == Some(r.handle)
  {
    var line, digits := PrintRule(r), Decimal(r.handle);
    var at := |r.body| + 1;
    assert line == (r.body + " ") + MARKER + digits;
    assert line[at..at + |MARKER|] == MARKER;
    assert OccursAt(line, at, MARKER);
    var last := LastOccurrence(line, MARKER, |line|);
    if last.value > at {
      assert line[last.value..last.value + |MARKER|][0] == '#';
      NoMarkerLater(r, last.value);
    }
    assert line[at + |MARKER|..] == digits;
    TrimDecimal(r.handle);
    ParseDecimal(r.handle);
  }

  lemma NoMarkerLater(r: Rule, i: nat)
    requires |r.body| + 1 < i < |PrintRule(r)|
    ensures PrintRule(r)[i] != '#'
  {
    var line, digits := PrintRule(r), Decimal(r.handle);
    var at := |r.body| + 1;
    if i < at + |MARKER| {
      assert line[i] == MARKER[i - at];
    } else {
      assert line[i] == digits[i - at - |MARKER|];
      assert IsDigit(digits[i - at - |MARKER|]);
    }
  }

  /** Nothing that reaches into the suffix can read as the port: `k` is where it differs. */
  lemma SuffixDiffers(r: Rule, i: nat) returns (k: nat)
    requires |r.body| < i + |DPORT| <= |PrintRule(r)|
    ensures k < |DPORT| && PrintRule(r)[i + k] != DPORT[k]
  {
    var line := PrintRule(r);
    var n := |r.body|;
    assert line[n] == ' ' && line[n + 1] == '#';
    if i <= n {
      k := if n - i == 5 then 6 else n - i;
    } else if i >= n + 1 + |MARKER| {
      assert IsDigit(Decimal(r.handle)[i - n - 1 - |MARKER|]);
      k := 0;
    } else {
      assert line[i] == MARKER[i - n - 1];
      k := if line[i] == 'd' then 1 else 0;
      assert k == 1 ==> line[i + 1] == MARKER[i - n];
    }
  }

  lemma SuffixNamesNoPort(r: Rule)
    ensures Contains(PrintRule(r), DPORT) <==> Contains(r.body, DPORT)
  {
    var line := PrintRule(r);
    var n := |r.body|;
    forall i | 0 <= i <= |line| ensures OccursAt(line, i, DPORT) <==> i <= n && OccursAt(r.body, i, DPORT) {
      if i + |DPORT| <= n {
        assert line[i..i + |DPORT|] == r.body[i..i + |DPORT|];
      } else if i + |DPORT| <= |line| {
        var k := SuffixDiffers(r, i);
        assert line[i..i + |DPORT|][k] == line[i + k];
      }
    }
    if Contains(r.body, DPORT) {
      var i :| 0 <= i <= n && OccursAt(r.body, i, DPORT);
      assert OccursAt(line, i, DPORT);
    }
  }

  lemma SuffixAddsNoAccept(r: Rule)
    ensures "accept" in Words(PrintRule(r)) <==> "accept" in Words(r.body)
  {
    var digits := Decimal(r.handle);
    var suffix := " " + MARKER + digits;
    WordsAppend(r.body, suffix);
    SuffixWords(r.handle);
    assert IsDigit(digits[0]);
    assert "accept"[0] == 'a';
  }

  lemma SuffixWords(h: nat)
    ensures Words(" " + MARKER + Decimal(h)) == ["#", "handle", Decimal(h)]
  {
    var d := Decimal(h);
    calc {
      Words(" " + MARKER + d);
      { assert " " + MARKER + d == " #" + (" handle" + (" " + d)); }
      Words(" #" + (" handle" + (" " + d)));
      { WordsAppend(" #", " handle" + (" " + d)); }
      Words(" #") + Words(" handle" + (" " + d));
      { WordsAppend(" handle", " " + d); }
      Words(" #") + (Words(" handle") + Words(" " + d));
      { SpacedWord("#"); SpacedWord("handle"); DecimalIsOneWord(h); LeadingSpace(d); }
      ["#"] + (["handle"] + [d]);
    }
  }

  lemma SpacedWord(s: string)
    requires s != "" && forall i | 0 <= i < |s| :: !IsWhitespace(s[i])
    ensures Words(" " + s) == [s]
  {
    LeadingSpace(s);
    WordLengthFull(s);
    assert s[|s|..] == "" && s[..|s|] == s;
  }

  lemma LeadingSpace(s: string)
    ensures Words(" " + s) == Words(s)
  {
    assert (" " + s)[1..] == s;
  }

  lemma PrintedRuleReadsBack(r: Rule)
    requires r.handle < U64_LIMIT
    ensures FilterMap(AcceptingHandle, [PrintRule(r)]) == HandlesOf([r])
  {
    HandleReadsBack(r);
    SuffixNamesNoPort(r);
    SuffixAddsNoAccept(r);
    FilterMapOne(AcceptingHandle, PrintRule(r));
    FilterMapOne(HandleIfAccepting, r);
  }

  lemma PrintedRuleHasNoNewline(r: Rule)
    requires '\n' !in r.body
    ensures '\n' !in PrintRule(r) && ChopReturn(PrintRule(r)) == PrintRule(r)
  {
    var line, digits := PrintRule(r), Decimal(r.handle);
    assert IsDigit(digits[|digits| - 1]) && line[|line| - 1] == digits[|digits| - 1];
    forall i | 0 <= i < |digits| ensures digits[i] != '\n' {
      assert IsDigit(digits[i]);
    }
  }

  lemma FirstPrintedRuleReadsBack(r: Rule, rest: string)
    requires '\n' !in r.body && r.handle < U64_LIMIT
    ensures AcceptingHandles(PrintRule(r) + "\n" + rest) == HandlesOf([r]) + AcceptingHandles(rest)
  {
    var line := PrintRule(r);
    PrintedRuleHasNoNewline(r);
    LinesCons(line, rest);
    FilterMapAppend(AcceptingHandle, [line], Lines(rest));
    PrintedRuleReadsBack(r);
  }

  lemma HandlesOfCons(rules: seq<Rule>)
    requires rules != []
    ensures HandlesOf(rules) == HandlesOf([rules[0]]) + HandlesOf(rules[1..])
  {
    assert rules == [rules[0]] + rules[1..];
    FilterMapAppend(HandleIfAccepting, [rules[0]], rules[1..]);
  }

  lemma PrintRulesCons(rules: seq<Rule>, footer: string)
    requires rules != []
    ensures PrintRules(rules) + footer == PrintRule(rules[0]) + "\n" + (PrintRules(rules[1..]) + footer)
  {
  }

  lemma {:induction false} PrintedRulesReadBack(rules: seq<Rule>, footer: string)
    requires Printable(rules)
    ensures AcceptingHandles(PrintRules(rules) + footer) == HandlesOf(rules) + AcceptingHandles(footer)
  {
    if rules == [] {
      assert "" + footer == footer;
    } else {
      var rest := PrintRules(rules[1..]) + footer;
      calc {
        AcceptingHandles(PrintRules(rules) + footer);
        { PrintRulesCons(rules, footer); }
        AcceptingHandles(PrintRule(rules[0]) + "\n" + rest);
        { FirstPrintedRuleReadsBack(rules[0], rest); }
        HandlesOf([rules[0]]) + AcceptingHandles(rest);
        { PrintedRulesReadBack(rules[1..], footer); }
        HandlesOf([rules[0]]) + (HandlesOf(rules[1..]) + AcceptingHandles(footer));
        (HandlesOf([rules[0]]) + HandlesOf(rules[1..])) + AcceptingHandles(footer);
        { HandlesOfCons(rules); }
        HandlesOf(rules) + AcceptingHandles(footer);
      }
    }
  }

  /** Printing any chain and reading it back gives exactly the handles of its accepting rules. */
  lemma ListingRoundTrip(f: Frame, rules: seq<Rule>)
    requires Framing(f) && Printable(rules)
    ensures AcceptingHandles(PrintChain(f, rules)) == HandlesOf(rules)
  {
    var body := PrintRules(rules) + f.footer;
    LinesAppend(f.header, body);
    FilterMapAppend(AcceptingHandle, Lines(f.header), Lines(body));
    PrintedRulesReadBack(rules, f.footer);
  }

  // ---------------------------------------------------------------- a faithful nft

  predicate HasHandle(rules: seq<Rule>, handle: nat) {
    rules != [] && (rules[0].handle == handle || HasHandle(rules[1..], handle))
  }

  predicate UniqueHandles(rules: seq<Rule>) {
    rules == [] || (!HasHandle(rules[1..], rules[0].handle) && UniqueHandles(rules[1..]))
  }

  function Without(rules: seq<Rule>, handle: nat): seq<Rule> {
    if rules == [] then [] else (if rules[0].handle == handle then [] else [rules[0]]) + Without(rules[1..], handle)
  }

  /** Lists the chain as it is and deletes exactly the rule with the given handle, if there is one. */
  function Faithful(f: Frame): (seq<Rule>, Call) -> (seq<Rule>, Answer) {
    (rules: seq<Rule>, call: Call) =>
      match call
      case ListChain => (rules, Output(PrintChain(f, rules)))
      case DeleteRule(h) => if HasHandle(rules, h) then (Without(rules, h), Output("")) else (rules, NftError)
  }

  /** The chain minus its accepting rules, in the same order. */
  function Kept(rules: seq<Rule>): seq<Rule> {
    if rules == [] then [] else (if Accepting(rules[0]) then [] else [rules[0]]) + Kept(rules[1..])
  }

  function Minus(rules: seq<Rule>, handles: seq<nat>): seq<Rule> {
    if rules == [] then [] else (if rules[0].handle in handles then [] else [rules[0]]) + Minus(rules[1..], handles)
  }

  predicate Distinct(handles: seq<nat>) {
    handles == [] || (handles[0] !in handles[1..] && Distinct(handles[1..]))
  }

  lemma {:induction false} MinusNothing(rules: seq<Rule>)
    ensures Minus(rules, []) == rules
  {
    if rules != [] {
      MinusNothing(rules[1..]);
    }
  }

  lemma {:induction false} WithoutThenMinus(rules: seq<Rule>, handles: seq<nat>)
    requires handles != []
    ensures Minus(Without(rules, handles[0]), handles[1..]) == Minus(rules, handles)
  {
    if rules != [] {
      var less := Without(rules[1..], handles[0]);
      WithoutThenMinus(rules[1..], handles);
      if rules[0].handle == handles[0] {
        assert Without(rules, handles[0]) == less;
      } else {
        assert ([rules[0]] + less)[1..] == less;
      }
    }
  }

  lemma {:induction false} WithoutKeepsOthers(rules: seq<Rule>, h: nat, k: nat)
    requires HasHandle(rules, k) && k != h
    ensures HasHandle(Without(rules, h), k)
  {
    var less := Without(rules[1..], h);
    if rules[0].handle == h {
      WithoutKeepsOthers(rules[1..], h, k);
      assert Without(rules, h) == less;
    } else {
      assert ([rules[0]] + less)[1..] == less;
      if rules[0].handle != k {
        WithoutKeepsOthers(rules[1..], h, k);
      }
    }
  }

  lemma {:induction false} DeletesAllListed(f: Frame, rules: seq<Rule>, handles: seq<nat>)
    requires Distinct(handles) && forall h | h in handles :: HasHandle(rules, h)
    ensures DeleteAll(Faithful(f), rules, handles) == (Minus(rules, handles), None)
    decreases handles
  {
    if handles == [] {
      MinusNothing(rules);
    } else {
      var next := Without(rules, handles[0]);
      forall h | h in handles[1..] ensures HasHandle(next, h) {
        WithoutKeepsOthers(rules, handles[0], h);
      }
      DeletesAllListed(f, next, handles[1..]);
      WithoutThenMinus(rules, handles);
      assert Faithful(f)(rules, DeleteRule(handles[0])) == (next, Output(""));
    }
  }

  lemma {:induction false} ListedHandlesExist(rules: seq<Rule>, h: nat)
    requires h in HandlesOf(rules)
    ensures HasHandle(rules, h)
  {
    if h in HandlesOf(rules[1..]) {
      ListedHandlesExist(rules[1..], h);
    }
  }

  lemma {:induction false} ListedHandlesAreDistinct(rules: seq<Rule>)
    requires UniqueHandles(rules)
    ensures Distinct(HandlesOf(rules))
  {
    if rules != [] {
      var rest := HandlesOf(rules[1..]);
      ListedHandlesAreDistinct(rules[1..]);
      if Accepting(rules[0]) {
        assert HandlesOf(rules)[1..] == rest;
        if rules[0].handle in rest {
          ListedHandlesExist(rules[1..], rules[0].handle);
        }
      } else {
        assert HandlesOf(rules) == rest;
      }
    }
  }

  predicate ListedExactly(rules: seq<Rule>, handles: seq<nat>) {
    forall i | 0 <= i < |rules| :: rules[i].handle in handles <==> Accepting(rules[i])
  }

  lemma {:induction false} MemberHasHandle(rules: seq<Rule>, i: nat)
    requires i < |rules|
    ensures HasHandle(rules, rules[i].handle)
  {
    if i > 0 {
      MemberHasHandle(rules[1..], i - 1);
    }
  }

  lemma {:induction false} AcceptingIffListed(rules: seq<Rule>)
    requires UniqueHandles(rules)
    ensures ListedExactly(rules, HandlesOf(rules))
  {
    if rules != [] {
      var rest := rules[1..];
      AcceptingIffListed(rest);
      forall i | 0 <= i < |rules| ensures rules[i].handle in HandlesOf(rules) <==> Accepting(rules[i]) {
        if i > 0 {
          MemberHasHandle(rest, i - 1);
          assert rest[i - 1] == rules[i] && rules[i].handle != rules[0].handle;
          assert rest[i - 1].handle in HandlesOf(rest) <==> Accepting(rest[i - 1]);
        } else if rules[0].handle in HandlesOf(rest) {
          ListedHandlesExist(rest, rules[0].handle);
        }
      }
    }
  }

  lemma {:induction false} MinusListedIsKept(rules: seq<Rule>, handles: seq<nat>)
    requires ListedExactly(rules, handles)
    ensures Minus(rules, handles) == Kept(rules)
  {
    if rules != [] {
      assert forall i | 0 <= i < |rules[1..]| :: rules[1..][i] == rules[i + 1];
      MinusListedIsKept(rules[1..], handles);
    }
  }

  lemma DeletingLeavesTheRest(f: Frame, rules: seq<Rule>)
    requires UniqueHandles(rules)
    ensures DeleteAll(Faithful(f), rules, HandlesOf(rules)) == (Kept(rules), None)
  {
    ListedHandlesAreDistinct(rules);
    forall h | h in HandlesOf(rules) ensures HasHandle(rules, h) {
      ListedHandlesExist(rules, h);
    }
    DeletesAllListed(f, rules, HandlesOf(rules));
    AcceptingIffListed(rules);
    MinusListedIsKept(rules, HandlesOf(rules));
  }

  lemma {:induction false} KeptIsClean(rules: seq<Rule>)
    ensures HandlesOf(Kept(rules)) == []
    ensures Printable(rules) ==> Printable(Kept(rules))
  {
    if rules != [] {
      KeptIsClean(rules[1..]);
      var rest := Kept(rules[1..]);
      if Accepting(rules[0]) {
        assert Kept(rules) == rest;
      } else {
        assert Kept(rules)[0] == rules[0] && Kept(rules)[1..] == rest;
      }
    }
  }

  /** With a faithful `nft` the port is closed: exactly the accepting rules go, the rest keeps its
      order, and the reply counts what was deleted. */
  lemma FaithfulCloseSucceeds(f: Frame, rules: seq<Rule>, permission: Auth.Permission)
    requires Framing(f) && Printable(rules) && UniqueHandles(rules) && !permission.Read?
    ensures Close(Faithful(f), rules, permission) == (Kept(rules), Ok(|HandlesOf(rules)|))
  {
    ListingRoundTrip(f, rules);
    DeletingLeavesTheRest(f, rules);
    KeptIsClean(rules);
    ListingRoundTrip(f, Kept(rules));
  }

  // ---------------------------------------------------------------- which rules go

  /** The text names the port as a single `dport`, and `accept` stands between spaces or the ends. */
  ghost predicate SaysAccept(body: string) {
    && (exists a, b :: Surrounds(body, a, "dport 19443", b))
    && (exists a, b :: StandsAlone(body, a, "accept", b))
  }

  lemma PrintedRuleText(r: Rule)
    ensures PrintRule(r) == r.body + " # handle " + Decimal(r.handle)
  {
    assert " " + MARKER == " # handle ";
    assert r.body + (" # handle " + Decimal(r.handle)) == r.body + " # handle " + Decimal(r.handle);
  }

  lemma AcceptIsAWord()
    ensures IsWord("accept")
  {
  }

  lemma NamesAcceptIff(body: string)
    ensures NamesAccept(body) <==> SaysAccept(body)
  {
    AcceptIsAWord();
    ContainsIff(body, "dport 19443");
    WordIff(body, "accept");
  }

  lemma {:induction false} KeptIff(rules: seq<Rule>, r: Rule)
    ensures r in Kept(rules) <==> r in rules && !SaysAccept(r.body)
  {
    if rules != [] {
      KeptIff(rules[1..], r);
      NamesAcceptIff(rules[0].body);
    }
  }

  /** Closing takes away exactly the rules whose text says so. A rule that names the port and has no
      word `accept`, such as a drop, stays. */
  lemma RuleStaysIff(f: Frame, rules: seq<Rule>, permission: Auth.Permission, r: Rule)
    requires Framing(f) && Printable(rules) && UniqueHandles(rules) && !permission.Read?
    ensures r in Close(Faithful(f), rules, permission).0 <==> r in rules && !SaysAccept(r.body)
  {
    FaithfulCloseSucceeds(f, rules, permission);
    KeptIff(rules, r);
  }

  /** With the permission to read only, nothing is listed or deleted. */
  lemma ReadersCannotClose<W>(nft: (W, Call) -> (W, Answer), w: W, permission: Auth.Permission)
    ensures Close(nft, w, permission) == (w, Err(ForbiddenCommand)) <== permission == Auth.Read
    ensures Close(nft, w, permission).1 == Err(ForbiddenCommand) ==> permission == Auth.Read
  {
    if permission != Auth.Read {
      var (w1, first) := nft(w, ListChain);
      if first.Output? {
        DeletingFailsAsSuch(nft, w1, AcceptingHandles(first.text));
      }
    }
  }

  lemma {:induction false} DeletingFailsAsSuch<W>(nft: (W, Call) -> (W, Answer), w: W, handles: seq<nat>)
    ensures DeleteAll(nft, w, handles).1.Some? ==>
              DeleteAll(nft, w, handles).1.value.DeleteFailed? && DeleteAll(nft, w, handles).1.value.handle in handles
  {
    if handles != [] && nft(w, DeleteRule(handles[0])).1.Output? {
      DeletingFailsAsSuch(nft, nft(w, DeleteRule(handles[0])).0, handles[1..]);
    }
  }

  // ---------------------------------------------------------------- verdicts

  datatype Verdict = Accept | Drop

  /** What a rule does to a packet: nothing, or a terminal verdict. */
  type Effect<!P> = (Rule, P) -> Option<Verdict>

  /** First match wins; a packet that falls through gets the chain's policy. */
  function Evaluate<P>(effect: Effect<P>, rules: seq<Rule>, policy: Verdict, p: P): Verdict {
    if rules == [] then policy
    else if effect(rules[0], p).Some? then effect(rules[0], p).value
    else Evaluate(effect, rules[1..], policy, p)
  }

  predicate MatchedByDeleted<P>(effect: Effect<P>, rules: seq<Rule>, p: P) {
    exists i | 0 <= i < |rules| :: Accepting(rules[i]) && effect(rules[i], p).Some?
  }

  /** Packets that no deleted rule matched keep their verdict. */
  lemma {:induction false} ClosingKeepsOtherVerdicts<P>(effect: Effect<P>, rules: seq<Rule>, policy: Verdict, p: P)
    requires !MatchedByDeleted(effect, rules, p)
    ensures Evaluate(effect, Kept(rules), policy, p) == Evaluate(effect, rules, policy, p)
  {
    if rules != [] {
      assert forall i | 0 <= i < |rules[1..]| :: rules[1..][i] == rules[i + 1];
      ClosingKeepsOtherVerdicts(effect, rules[1..], policy, p);
      if !Accepting(rules[0]) {
        assert Kept(rules)[0] == rules[0] && Kept(rules)[1..] == Kept(rules[1..]);
      } else {
        assert Kept(rules) == Kept(rules[1..]);
      }
    }
  }

  /** What an earlier version did instead, appending a rule to a chain that already ends every
      evaluation, changes no verdict at all. */
  lemma {:induction false} AppendingAfterADropIsVoid<P>(effect: Effect<P>, rules: seq<Rule>, added: seq<Rule>, policy: Verdict, p: P)
    requires rules != [] && effect(rules[|rules| - 1], p).Some?
    ensures Evaluate(effect, rules + added, policy, p) == Evaluate(effect, rules, policy, p)
  {
    assert (rules + added)[0] == rules[0];
    if |rules| > 1 {
      assert (rules + added)[1..] == rules[1..] + added;
      AppendingAfterADropIsVoid(effect, rules[1..], added, policy, p);
    }
  }

  // ---------------------------------------------------------------- what Ok means for packets

  /** The rule accepts some packet to the port. */
  ghost predicate LetsIn<P(!new)>(effect: Effect<P>, toPort: P -> bool, r: Rule) {
    exists p {:trigger effect(r, p)} :: toPort(p) && effect(r, p) == Some(Accept)
  }

  /** With the policy of the base chain, which is to drop, no packet to the port gets in. */
  ghost predicate PortClosed<P(!new)>(effect: Effect<P>, toPort: P -> bool, rules: seq<Rule>) {
    forall p {:trigger toPort(p)} | toPort(p) :: Evaluate(effect, rules, Drop, p) == Drop
  }

  /** A chain in which only rules of the given forms occur and whose listing shows no accepting rule,
      as it is whenever the reply is Ok. */
  predicate ListsClean(f: Frame, forms: Rule -> bool, rules: seq<Rule>) {
    && Printable(rules) && (forall i | 0 <= i < |rules| :: forms(rules[i]))
    && AcceptingHandles(PrintChain(f, rules)) == []
  }

  ghost predicate CleanMeansClosed<P(!new)>(effect: Effect<P>, toPort: P -> bool, f: Frame, forms: Rule -> bool) {
    forall rules {:trigger ListsClean(f, forms, rules)} | ListsClean(f, forms, rules) :: PortClosed(effect, toPort, rules)
  }

  /** The filter sees every rule of these forms that lets a packet to the port in. */
  ghost predicate AcceptorsAreSeen<P(!new)>(effect: Effect<P>, toPort: P -> bool, forms: Rule -> bool) {
    forall r {:trigger forms(r)} | forms(r) && Printable([r]) && LetsIn(effect, toPort, r) :: Accepting(r)
  }

  lemma {:induction false} NothingAccepting(rules: seq<Rule>, i: nat)
    requires HandlesOf(rules) == [] && i < |rules|
    ensures !Accepting(rules[i])
  {
    HandlesOfCons(rules);
    if i == 0 {
      FilterMapOne(HandleIfAccepting, rules[0]);
    } else {
      NothingAccepting(rules[1..], i - 1);
    }
  }

  /** A packet gets in only through some rule. */
  lemma {:induction false} AcceptedByARule<P>(effect: Effect<P>, rules: seq<Rule>, p: P) returns (i: nat)
    requires Evaluate(effect, rules, Drop, p) == Accept
    ensures i < |rules| && effect(rules[i], p) == Some(Accept)
  {
    if effect(rules[0], p).Some? {
      i := 0;
    } else {
      var j := AcceptedByARule(effect, rules[1..], p);
      i := j + 1;
    }
  }

  /**
   Ok closes the port exactly for chains made of rules that the filter sees: whenever every rule
   that lets a packet to the port in names the port as a single `dport` and contains the word
   accept, and in general for no others.
   */
  lemma CleanMeansClosedIff<P(!new)>(effect: Effect<P>, toPort: P -> bool, f: Frame, forms: Rule -> bool)
    requires Framing(f)
    ensures CleanMeansClosed(effect, toPort, f, forms) <==> AcceptorsAreSeen(effect, toPort, forms)
  {
    if AcceptorsAreSeen(effect, toPort, forms) {
      forall rules, p | ListsClean(f, forms, rules) && toPort(p) ensures Evaluate(effect, rules, Drop, p) == Drop {
        ListingRoundTrip(f, rules);
        if Evaluate(effect, rules, Drop, p) == Accept {
          var i := AcceptedByARule(effect, rules, p);
          NothingAccepting(rules, i);
          assert forms(rules[i]) && Printable([rules[i]]) && LetsIn(effect, toPort, rules[i]);
          assert false;
        }
      }
    } else {
      var r :| forms(r) && Printable([r]) && LetsIn(effect, toPort, r) && !Accepting(r);
      var p :| toPort(p) && effect(r, p) == Some(Accept);
      ListingRoundTrip(f, [r]);
      FilterMapOne(HandleIfAccepting, r);
      assert ListsClean(f, forms, [r]);
      assert Evaluate(effect, [r], Drop, p) == Accept;
    }
  }

  const SET_OF_PORTS := "tcp dport { 443, 19443 } accept"

  /** A rule for a set of ports is one that the filter does not see: `dport` is followed by a brace. */
  lemma SetOfPortsIsNotSeen(handle: nat)
    ensures !Accepting(Rule(SET_OF_PORTS, handle))
  {
    forall i | 0 <= i <= |SET_OF_PORTS| ensures !OccursAt(SET_OF_PORTS, i, DPORT) {
      SetOfPortsDiffers(i);
    }
  }

  lemma SetOfPortsDiffers(i: nat)
    ensures !OccursAt(SET_OF_PORTS, i, DPORT)
  {
    if OccursAt(SET_OF_PORTS, i, DPORT) {
      var part := SET_OF_PORTS[i..i + |DPORT|];
      assert part[0] == SET_OF_PORTS[i] && part[6] == SET_OF_PORTS[i + 6];
      OnlyOneD(i);
    }
  }

  lemma OnlyOneD(i: nat)
    requires i < |SET_OF_PORTS| && SET_OF_PORTS[i] == 'd'
    ensures i == 4
  {
  }
}

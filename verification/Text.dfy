/**
 The string operations of the Rust standard library that the agent's parsers are made of:
 `lines`, `trim`, `trim_end_matches`, `split_whitespace`, `contains`, `rsplit_once`,
 `splitn` and the parser of `u64`.
 */
module Text {
  import opened Basics

  /** The Unicode White_Space property. */
  predicate IsWhitespace(c: char) {
    || '\t' <= c <= '\r' || c == ' ' || c == '\U{0085}' || c == '\U{00A0}' || c == '\U{1680}'
    || '\U{2000}' <= c <= '\U{200A}' || c == '\U{2028}' || c == '\U{2029}' || c == '\U{202F}'
    || c == '\U{205F}' || c == '\U{3000}'
  }

  // ---------------------------------------------------------------- search

  predicate OccursAt(s: string, i: int, p: string) {
    0 <= i <= |s| - |p| && s[i..i + |p|] == p
  }

  predicate Contains(s: string, p: string) {
    exists i | 0 <= i <= |s| :: OccursAt(s, i, p)
  }

  predicate StartsWith(s: string, p: string) {
    |p| <= |s| && s[..|p|] == p
  }

  /** The last position at or before `i` where `p` occurs. */
  function LastOccurrence(s: string, p: string, i: nat): (r: Option<nat>)
    ensures r.Some? ==> r.value <= i && OccursAt(s, r.value, p)
    ensures forall j | (if r.Some? then r.value else -1) < j <= i :: !OccursAt(s, j, p)
  {
    if OccursAt(s, i, p) then Some(i) else if i == 0 then None else LastOccurrence(s, p, i - 1)
  }

  /** Position of the first `c`, or the length of `s`. */
  function IndexOf(s: string, c: char): (n: nat)
    ensures n <= |s| && (n < |s| ==> s[n] == c) && c !in s[..n]
  {
    if s == "" || s[0] == c then 0 else 1 + IndexOf(s[1..], c)
  }

  function Count(s: string, c: char): nat {
    if s == "" then 0 else (if s[0] == c then 1 else 0) + Count(s[1..], c)
  }

  lemma {:induction false} CountAppend(a: string, b: string, c: char)
    ensures Count(a + b, c) == Count(a, c) + Count(b, c)
  {
    if a == "" {
      assert a + b == b;
    } else {
      assert (a + b)[1..] == a[1..] + b;
      CountAppend(a[1..], b, c);
    }
  }

  lemma {:induction false} CountZero(s: string, c: char)
    ensures Count(s, c) == 0 <==> c !in s
  {
    if s != "" {
      CountZero(s[1..], c);
      assert s == [s[0]] + s[1..];
    }
  }

  // ---------------------------------------------------------------- trimming

  function TrimStart(s: string): string {
    if s != "" && IsWhitespace(s[0]) then TrimStart(s[1..]) else s
  }

  function TrimEnd(s: string): string {
    if s != "" && IsWhitespace(s[|s| - 1]) then TrimEnd(s[..|s| - 1]) else s
  }

  function Trim(s: string): string {
    TrimEnd(TrimStart(s))
  }

  function TrimEndMatches(s: string, c: char): string {
    if s != "" && s[|s| - 1] == c then TrimEndMatches(s[..|s| - 1], c) else s
  }

  function TrimStartMatches(s: string, p: string): string
    decreases |s|
  {
    if p != "" && StartsWith(s, p) then TrimStartMatches(s[|p|..], p) else s
  }

  // ---------------------------------------------------------------- words

  function WordLength(s: string): (n: nat)
    ensures n <= |s|
  {
    if s == "" || IsWhitespace(s[0]) then 0 else 1 + WordLength(s[1..])
  }

  function Words(s: string): seq<string>
    decreases |s|
  {
    if s == "" then []
    else if IsWhitespace(s[0]) then Words(s[1..])
    else [s[..WordLength(s)]] + Words(s[WordLength(s)..])
  }

  lemma {:induction false} WordLengthAtSpace(a: string, b: string)
    requires b != "" && IsWhitespace(b[0])
    ensures WordLength(a + b) == WordLength(a)
  {
    if a == "" {
      assert a + b == b;
    } else {
      assert (a + b)[1..] == a[1..] + b;
      WordLengthAtSpace(a[1..], b);
    }
  }

  /** Splitting on whitespace distributes over a concatenation that meets at a space. */
  lemma {:induction false} WordsAppend(a: string, b: string)
    requires b != "" && IsWhitespace(b[0])
    ensures Words(a + b) == Words(a) + Words(b)
    decreases |a|
  {
    if a == "" {
      assert a + b == b;
    } else if IsWhitespace(a[0]) {
      assert (a + b)[1..] == a[1..] + b;
      WordsAppend(a[1..], b);
    } else {
      WordLengthAtSpace(a, b);
      var n := WordLength(a);
      assert (a + b)[..n] == a[..n];
      assert (a + b)[n..] == a[n..] + b;
      WordsAppend(a[n..], b);
    }
  }

  function FirstWord(s: string): string {
    if Words(s) == [] then "" else Words(s)[0]
  }

  /** Trimming does not touch the words. */
  lemma {:induction false} WordsOfTrimStart(s: string)
    ensures Words(TrimStart(s)) == Words(s)
  {
    if s != "" && IsWhitespace(s[0]) {
      WordsOfTrimStart(s[1..]);
    }
  }

  lemma {:induction false} WordsOfTrimEnd(s: string)
    ensures Words(TrimEnd(s)) == Words(s)
  {
    if s != "" && IsWhitespace(s[|s| - 1]) {
      var front, last := s[..|s| - 1], s[|s| - 1..];
      WordsOfTrimEnd(front);
      WordsAppend(front, last);
      assert s == front + last && last[1..] == "" && Words(last) == [];
    }
  }

  lemma WordsOfTrim(s: string)
    ensures Words(Trim(s)) == Words(s)
  {
    WordsOfTrimStart(s);
    WordsOfTrimEnd(TrimStart(s));
  }

  predicate IsWord(w: string) {
    w != "" && forall i | 0 <= i < |w| :: !IsWhitespace(w[i])
  }

  /** A word that ends its text or is followed by space is read as the first word. */
  lemma FirstWordIs(w: string, rest: string)
    requires IsWord(w) && (rest == "" || IsWhitespace(rest[0]))
    ensures FirstWord(w + rest) == w
  {
    WordLengthFull(w);
    if rest == "" {
      assert w + rest == w;
    } else {
      WordLengthAtSpace(w, rest);
    }
    assert (w + rest)[..|w|] == w;
  }

  // ---------------------------------------------------------------- lines

  function ChopReturn(s: string): string {
    if s != "" && s[|s| - 1] == '\r' then s[..|s| - 1] else s
  }

  function Lines(s: string): seq<string>
    decreases |s|
  {
    if s == "" then []
    else
      var n := IndexOf(s, '\n');
      if n == |s| then [s] else [ChopReturn(s[..n])] + Lines(s[n + 1..])
  }

  lemma {:induction false} IndexOfFirst(a: string, c: char, b: string)
    requires c !in a
    ensures IndexOf(a + [c] + b, c) == |a|
  {
    var s := a + [c] + b;
    if a != "" {
      assert s[0] == a[0] && a[0] in a && s[1..] == a[1..] + [c] + b;
      IndexOfFirst(a[1..], c, b);
    }
  }

  /** One terminated line in front of a text. */
  lemma LinesCons(line: string, rest: string)
    requires '\n' !in line
    ensures Lines(line + "\n" + rest) == [ChopReturn(line)] + Lines(rest)
  {
    var s := line + "\n" + rest;
    IndexOfFirst(line, '\n', rest);
    assert s[..|line|] == line && s[|line| + 1..] == rest;
  }

  predicate Terminated(s: string) {
    s == "" || s[|s| - 1] == '\n'
  }

  lemma IndexOfMember(s: string, c: char)
    requires c in s
    ensures IndexOf(s, c) < |s|
  {
    assert s[..|s|] == s;
  }

  lemma SplitAt(a: string, n: nat)
    requires n < |a|
    ensures a == a[..n] + [a[n]] + a[n + 1..]
    ensures Terminated(a) ==> Terminated(a[n + 1..])
  {
  }

  /** A terminated, non-empty text is one line, its newline and the rest. */
  lemma FirstLine(a: string)
    requires a != "" && Terminated(a)
    ensures IndexOf(a, '\n') < |a|
    ensures a == a[..IndexOf(a, '\n')] + "\n" + a[IndexOf(a, '\n') + 1..]
    ensures Terminated(a[IndexOf(a, '\n') + 1..])
  {
    assert a[|a| - 1] in a;
    IndexOfMember(a, '\n');
    SplitAt(a, IndexOf(a, '\n'));
    assert [a[IndexOf(a, '\n')]] == "\n";
  }

  /** The lines of a text whose first part ends its last line. */
  lemma {:induction false} LinesAppend(a: string, b: string)
    requires Terminated(a)
    ensures Lines(a + b) == Lines(a) + Lines(b)
    decreases |a|
  {
    if a == "" {
      assert a + b == b;
    } else {
      FirstLine(a);
      var line, rest := a[..IndexOf(a, '\n')], a[IndexOf(a, '\n') + 1..];
      calc {
        Lines(a + b);
        { assert a + b == line + "\n" + (rest + b); }
        Lines(line + "\n" + (rest + b));
        { LinesCons(line, rest + b); }
        [ChopReturn(line)] + Lines(rest + b);
        { LinesAppend(rest, b); }
        [ChopReturn(line)] + (Lines(rest) + Lines(b));
        ([ChopReturn(line)] + Lines(rest)) + Lines(b);
        { LinesCons(line, rest); }
        Lines(line + "\n" + rest) + Lines(b);
        Lines(a) + Lines(b);
      }
    }
  }

  // ---------------------------------------------------------------- numbers

  predicate IsDigit(c: char) {
    '0' <= c <= '9'
  }

  predicate AllDigits(s: string) {
    forall i | 0 <= i < |s| :: IsDigit(s[i])
  }

  function DigitsValue(s: string): nat
    requires AllDigits(s)
  {
    if s == "" then 0
    else 10 * DigitsValue(s[..|s| - 1]) + (s[|s| - 1] as int - '0' as int)
  }

  function Digit(d: nat): char
    requires d < 10
  {
    (d + '0' as int) as char
  }

  function Decimal(n: nat): (s: string)
    ensures s != "" && AllDigits(s)
  {
    if n < 10 then [Digit(n)] else Decimal(n / 10) + [Digit(n % 10)]
  }

  /** `u64::from_str`: an optional plus sign, then digits, below 2^64. */
  function ParseU64(s: string): (r: Option<nat>)
    ensures r.Some? ==> r.value < U64_LIMIT
  {
    var digits := if s != "" && s[0] == '+' then s[1..] else s;
    if digits == "" || !AllDigits(digits) || DigitsValue(digits) >= U64_LIMIT then None
    else Some(DigitsValue(digits))
  }

  lemma {:induction false} DecimalValue(n: nat)
    ensures DigitsValue(Decimal(n)) == n
  {
    var s := Decimal(n);
    if n < 10 {
      assert s[..0] == "";
    } else {
      DecimalValue(n / 10);
      assert s[..|s| - 1] == Decimal(n / 10);
      assert s[|s| - 1] == Digit(n % 10);
    }
  }

  /** Printing a `u64` in decimal and parsing it again. */
  lemma ParseDecimal(n: nat)
    requires n < U64_LIMIT
    ensures ParseU64(Decimal(n)) == Some(n)
  {
    DecimalValue(n);
    assert IsDigit(Decimal(n)[0]);
  }

  lemma {:induction false} WordLengthFull(s: string)
    requires forall i | 0 <= i < |s| :: !IsWhitespace(s[i])
    ensures WordLength(s) == |s|
  {
    if s != "" {
      WordLengthFull(s[1..]);
    }
  }

  lemma DecimalIsOneWord(n: nat)
    ensures Words(Decimal(n)) == [Decimal(n)]
  {
    var s := Decimal(n);
    forall i | 0 <= i < |s| ensures !IsWhitespace(s[i]) {
      assert IsDigit(s[i]);
    }
    WordLengthFull(s);
    assert s[|s|..] == "" && s[..|s|] == s;
  }

  lemma TrimDecimal(n: nat)
    ensures Trim(Decimal(n)) == Decimal(n)
  {
    var s := Decimal(n);
    assert IsDigit(s[0]) && IsDigit(s[|s| - 1]);
  }

  // ---------------------------------------------------------------- what these operations mean

  predicate Surrounds(s: string, a: string, p: string, b: string) {
    s == a + p + b
  }

  /** A text contains another when it is that text with something in front and behind. */
  lemma ContainsIff(s: string, p: string)
    ensures Contains(s, p) <==> exists a, b :: Surrounds(s, a, p, b)
  {
    if Contains(s, p) {
      var i :| 0 <= i <= |s| && OccursAt(s, i, p);
      assert s == s[..i] + s[i..i + |p|] + s[i + |p|..];
      assert Surrounds(s, s[..i], p, s[i + |p|..]);
    }
    if a, b :| Surrounds(s, a, p, b) {
      assert s[|a|..|a| + |p|] == p;
      assert OccursAt(s, |a|, p);
    }
  }

  lemma StartsWithIff(s: string, p: string)
    ensures StartsWith(s, p) <==> exists b :: Surrounds(s, "", p, b)
  {
    if StartsWith(s, p) {
      assert s == "" + s[..|p|] + s[|p|..];
      assert Surrounds(s, "", p, s[|p|..]);
    }
    if b :| Surrounds(s, "", p, b) {
      assert s == p + b && s[..|p|] == p;
    }
  }

  predicate AllSpace(s: string) {
    forall i | 0 <= i < |s| :: IsWhitespace(s[i])
  }

  /** No space at either end. */
  predicate Tight(s: string) {
    s != "" ==> !IsWhitespace(s[0]) && !IsWhitespace(s[|s| - 1])
  }

  lemma {:induction false} TrimStartOf(a: string, s: string)
    requires AllSpace(a) && (s == "" || !IsWhitespace(s[0]))
    ensures TrimStart(a + s) == s
  {
    if a == "" {
      assert a + s == s;
    } else {
      assert (a + s)[1..] == a[1..] + s;
      TrimStartOf(a[1..], s);
    }
  }

  lemma {:induction false} TrimEndOf(s: string, b: string)
    requires AllSpace(b) && (s == "" || !IsWhitespace(s[|s| - 1]))
    ensures TrimEnd(s + b) == s
  {
    if b == "" {
      assert s + b == s;
    } else {
      var front := b[..|b| - 1];
      assert (s + b)[..|s + b| - 1] == s + front;
      TrimEndOf(s, front);
    }
  }

  /** Trimming takes off the space around a text and nothing else. */
  lemma TrimOf(a: string, s: string, b: string)
    requires AllSpace(a) && AllSpace(b) && Tight(s)
    ensures Trim(a + s + b) == s
  {
    if s == "" {
      assert a + s + b == (a + b) + "";
      TrimStartOf(a + b, "");
    } else {
      assert a + s + b == a + (s + b);
      TrimStartOf(a, s + b);
      TrimEndOf(s, b);
    }
  }

  lemma {:induction false} TrimEndMatchesOf(s: string, c: char, tail: string)
    requires (s == "" || s[|s| - 1] != c) && forall i | 0 <= i < |tail| :: tail[i] == c
    ensures TrimEndMatches(s + tail, c) == s
  {
    if tail == "" {
      assert s + tail == s;
    } else {
      var front := tail[..|tail| - 1];
      assert (s + tail)[..|s + tail| - 1] == s + front;
      TrimEndMatchesOf(s, c, front);
    }
  }

  /** The word stands alone between `a` and `b`. */
  predicate StandsAlone(s: string, a: string, w: string, b: string) {
    Surrounds(s, a, w, b) && (a == "" || IsWhitespace(a[|a| - 1])) && (b == "" || IsWhitespace(b[0]))
  }

  lemma FirstWordStandsAlone(s: string)
    requires s != "" && !IsWhitespace(s[0])
    ensures StandsAlone(s, "", s[..WordLength(s)], s[WordLength(s)..]) && IsWord(s[..WordLength(s)])
  {
    WordLengthStops(s);
    CutsInTwo(s, WordLength(s));
    FirstLetters(s, WordLength(s));
  }

  lemma CutsInTwo(s: string, n: nat)
    requires n <= |s|
    ensures Surrounds(s, "", s[..n], s[n..])
  {
  }

  lemma FirstLetters(s: string, n: nat)
    requires 0 < n <= |s| && forall i | 0 <= i < n :: !IsWhitespace(s[i])
    ensures IsWord(s[..n])
  {
  }

  lemma {:induction false} WordLengthStops(s: string)
    ensures forall i | 0 <= i < WordLength(s) :: !IsWhitespace(s[i])
    ensures WordLength(s) < |s| ==> IsWhitespace(s[WordLength(s)])
  {
    if s != "" && !IsWhitespace(s[0]) {
      WordLengthStops(s[1..]);
      assert forall i | 0 < i < WordLength(s) :: s[i] == s[1..][i - 1];
    }
  }

  lemma StandsAloneInFront(front: string, s: string, a: string, w: string, b: string)
    requires StandsAlone(s, a, w, b) && w != ""
    requires a != "" || front == "" || IsWhitespace(front[|front| - 1])
    ensures StandsAlone(front + s, front + a, w, b)
  {
    assert front + s == (front + a) + w + b;
  }

  /** Exactly the texts without space that stand between spaces or the ends are words. */
  lemma {:induction false} WordIn(s: string, w: string) returns (a: string, b: string)
    requires w in Words(s)
    ensures StandsAlone(s, a, w, b) && IsWord(w)
    decreases |s|
  {
    if IsWhitespace(s[0]) {
      a, b := WordIn(s[1..], w);
      assert s == s[..1] + s[1..];
      StandsAloneInFront(s[..1], s[1..], a, w, b);
      a := s[..1] + a;
    } else {
      var n := WordLength(s);
      FirstWordStandsAlone(s);
      if w == s[..n] {
        a, b := "", s[n..];
      } else {
        a, b := WordIn(s[n..], w);
        WordAfterSpace(s[n..], a, w, b);
        assert s == s[..n] + s[n..];
        StandsAloneInFront(s[..n], s[n..], a, w, b);
        a := s[..n] + a;
      }
    }
  }

  lemma WordAfterSpace(s: string, a: string, w: string, b: string)
    requires StandsAlone(s, a, w, b) && IsWord(w) && s != "" && IsWhitespace(s[0])
    ensures a != ""
  {
    assert (w + b)[0] == w[0] && s == a + (w + b);
  }

  lemma WordInFront(w: string, b: string)
    requires IsWord(w) && (b == "" || IsWhitespace(b[0]))
    ensures w in Words(w + b)
  {
    WordLengthFull(w);
    assert w[|w|..] == "" && w[..|w|] == w;
    assert Words(w) == [w] + Words("");
    if b == "" {
      assert w + b == w;
    } else {
      WordsAppend(w, b);
    }
  }

  lemma WordsBehindSpace(a: string, s: string, w: string)
    requires a != "" && IsWhitespace(a[|a| - 1]) && w in Words(s)
    ensures w in Words(a + s)
  {
    var front, space := a[..|a| - 1], a[|a| - 1..];
    assert a + s == front + (space + s);
    WordsAppend(front, space + s);
    assert (space + s)[1..] == s;
  }

  lemma AloneIsAWord(s: string, a: string, w: string, b: string)
    requires StandsAlone(s, a, w, b) && IsWord(w)
    ensures w in Words(s)
  {
    assert s == a + (w + b);
    WordInFront(w, b);
    if a == "" {
      assert s == w + b;
    } else {
      WordsBehindSpace(a, w + b, w);
    }
  }

  lemma WordIff(s: string, w: string)
    requires IsWord(w)
    ensures w in Words(s) <==> exists a, b :: StandsAlone(s, a, w, b)
  {
    if w in Words(s) {
      var a, b := WordIn(s, w);
    }
    if a, b :| StandsAlone(s, a, w, b) {
      AloneIsAWord(s, a, w, b);
    }
  }

  /** A last line without newline is a line, and a carriage return before a newline is none of it. */
  lemma LastLine(s: string)
    requires s != "" && '\n' !in s
    ensures Lines(s) == [s] && Lines(s + "\r" + "\n") == [s]
  {
    NoNewline(s);
    LinesCons(s + "\r", "");
    ChopsReturn(s);
    assert s + "\r" + "\n" + "" == s + "\r" + "\n";
  }

  lemma NoNewline(s: string)
    requires '\n' !in s
    ensures IndexOf(s, '\n') == |s|
  {
  }

  lemma ChopsReturn(s: string)
    ensures ChopReturn(s + "\r") == s
  {
    assert (s + "\r")[..|s|] == s;
  }

  /** The number that digits stand for, most significant first. */
  lemma DigitsMean(s: string, c: char)
    requires AllDigits(s) && IsDigit(c)
    ensures AllDigits(s + [c]) && DigitsValue(s + [c]) == 10 * DigitsValue(s) + (c as int - 48)
    ensures DigitsValue("") == 0
  {
    assert (s + [c])[..|s|] == s;
  }

  lemma DigitsAreRead(plus: string, digits: string, n: nat)
    requires ReadsAs(plus, digits, n)
    ensures ParseU64(plus + digits) == Some(n)
  {
    var s := plus + digits;
    assert IsDigit(digits[0]);
    if plus == "+" {
      assert s[1..] == digits;
    } else {
      assert s == digits;
    }
  }

  /** A `u64` is read exactly from digits, with or without one plus sign, of a number below 2^64. */
  lemma ParseU64Iff(s: string, n: nat)
    ensures ParseU64(s) == Some(n) <==> exists plus, digits :: IsNumeral(s, plus, digits, n)
  {
    if ParseU64(s) == Some(n) {
      if s[0] == '+' {
        assert s == "+" + s[1..];
        assert IsNumeral(s, "+", s[1..], n);
      } else {
        assert s == "" + s;
        assert IsNumeral(s, "", s, n);
      }
    }
    if plus, digits :| IsNumeral(s, plus, digits, n) {
      DigitsAreRead(plus, digits, n);
    }
  }

  predicate IsNumeral(s: string, plus: string, digits: string, n: nat) {
    s == plus + digits && ReadsAs(plus, digits, n)
  }

  predicate ReadsAs(plus: string, digits: string, n: nat) {
    && (plus == "" || plus == "+") && digits != ""
    && (forall i | 0 <= i < |digits| :: '0' <= digits[i] <= '9') && DigitsValue(digits) == n < 0x1_0000_0000_0000_0000
  }
}

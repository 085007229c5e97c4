/**
 UTF-8 (RFC 3629) as far as the sync loop meets it: where in the bytes of a text a character may be
 cut, and which replies of the dashboard the loop survives.
*/
module Utf8 {
  import opened Basics
  import Sync

  /** A Unicode scalar value. */
  type Scalar = c: nat | c < 0x11_0000 && !(0xD800 <= c < 0xE000)

  /** The encoding of one character, section 3 of RFC 3629. */
  function Encode(c: Scalar): (b: Bytes)
    ensures 1 <= |b| <= 4
  {
    if c < 0x80 then [c as byte]
    else if c < 0x800 then [(0xC0 + c / 0x40) as byte, Tail(c)]
    else if c < 0x1_0000 then [(0xE0 + c / 0x1000) as byte, Tail(c / 0x40), Tail(c)]
    else [(0xF0 + c / 0x4_0000) as byte, Tail(c / 0x1000), Tail(c / 0x40), Tail(c)]
  }

  function Tail(c: nat): byte {
    (0x80 + c % 0x40) as byte
  }

  function Utf8(text: seq<Scalar>): Bytes {
    if text == [] then [] else Encode(text[0]) + Utf8(text[1..])
  }

  /** Position `n` of the bytes is where the first `k` characters end. */
  predicate EndsAt(text: seq<Scalar>, k: nat, n: nat) {
    k <= |text| && |Utf8(text[..k])| == n
  }

  predicate IsBoundary(text: seq<Scalar>, n: nat) {
    exists k | 0 <= k <= |text| :: EndsAt(text, k, n)
  }

  predicate IsTail(b: byte) {
    128 <= b < 192
  }

  /** Only the bytes after the first of a character look like such. */
  lemma TailsOfEncode(c: Scalar, i: nat)
    requires i < |Encode(c)|
    ensures IsTail(Encode(c)[i]) <==> i > 0
  {
  }

  lemma EndsAtCons(text: seq<Scalar>, k: nat, n: nat)
    requires text != [] && 0 < k <= |text|
    ensures EndsAt(text, k, n) <==> n >= |Encode(text[0])| && EndsAt(text[1..], k - 1, n - |Encode(text[0])|)
  {
    assert text[..k][0] == text[0] && text[..k][1..] == text[1..][..k - 1];
  }

  lemma BoundaryCons(text: seq<Scalar>, n: nat)
    requires text != [] && n > 0
    ensures IsBoundary(text, n) <==> n >= |Encode(text[0])| && IsBoundary(text[1..], n - |Encode(text[0])|)
  {
    var m := |Encode(text[0])|;
    assert !EndsAt(text, 0, n);
    if k :| 0 <= k <= |text| && EndsAt(text, k, n) {
      EndsAtCons(text, k, n);
      assert EndsAt(text[1..], k - 1, n - m);
    }
    if n >= m && IsBoundary(text[1..], n - m) {
      var rest, p := text[1..], n - m;
      var k :| 0 <= k <= |rest| && EndsAt(rest, k, p);
      EndsAtCons(text, k + 1, n);
      assert EndsAt(text, k + 1, n);
    }
  }

  /** A position inside of the bytes is a boundary exactly when no tail stands there. */
  lemma {:induction false} BoundaryIff(text: seq<Scalar>, n: nat)
    requires n < |Utf8(text)|
    ensures IsBoundary(text, n) <==> !IsTail(Utf8(text)[n])
  {
    var first := Encode(text[0]);
    if n == 0 {
      assert text[..0] == [] && EndsAt(text, 0, 0);
      TailsOfEncode(text[0], 0);
      assert Utf8(text)[0] == first[0];
    } else {
      BoundaryCons(text, n);
      if n < |first| {
        TailsOfEncode(text[0], n);
        assert Utf8(text)[n] == first[n];
      } else {
        BoundaryIff(text[1..], n - |first|);
        assert Utf8(text)[n] == Utf8(text[1..])[n - |first|];
      }
    }
  }


  /** A rejection with a text for a body panics exactly when the body is longer than 200 bytes and no
      character of it ends there. */
  lemma RejectionPanicsIff(text: seq<Scalar>, committed: bool)
    ensures Sync.Panics(Sync.Refused(Utf8(text))) <==> |Utf8(text)| > 200 && !IsBoundary(text, 200)
    ensures Sync.Panics(Sync.ChainMismatch(Utf8(text), committed)) <==> |Utf8(text)| > 200 && !IsBoundary(text, 200)
  {
    if |Utf8(text)| > 200 {
      BoundaryIff(text, 200);
    }
  }

  lemma {:induction false} AsciiIsItself(text: seq<Scalar>)
    requires forall i | 0 <= i < |text| :: text[i] < 128
    ensures |Utf8(text)| == |text| && forall i | 0 <= i < |text| :: Utf8(text)[i] as nat == text[i]
  {
    if text != [] {
      AsciiIsItself(text[1..]);
      assert forall i | 0 < i < |text| :: text[i] == text[1..][i - 1];
    }
  }

  /** So no ASCII body ends the loop, however long it is, and neither does a success. */
  lemma AsciiNeverPanics(text: seq<Scalar>, committed: bool)
    requires forall i | 0 <= i < |text| :: text[i] < 128
    ensures !Sync.Panics(Sync.Refused(Utf8(text))) && !Sync.Panics(Sync.ChainMismatch(Utf8(text), committed))
    ensures !Sync.Panics(Sync.Accepted(committed)) && !Sync.Panics(Sync.NoReply)
  {
    AsciiIsItself(text);
  }
}

/**
 UTF-8 as section 4 of RFC 3629 defines it: which byte sequences encode a
 scalar value, what a strict scan of a byte string reports, and how that
 report changes when bytes are appended. `Scan` stands for the standard
 library's `from_utf8`: `valid` is its `valid_up_to`, and `Incomplete` is an
 error without a length.
 */
module Utf8 {

  type Byte = b: int | 0 <= b < 256 witness 0

  predicate IsScalar(c: nat) {
    c < 0xD800 || 0xE000 <= c < 0x110000
  }

  type Scalar = c: nat | IsScalar(c) witness 0

  // ----- one character

  /** A tail byte carries the low six bits of `c`. */
  function Tail(c: nat): Byte {
    0x80 + c % 0x40
  }

  function Encode(c: Scalar): (b: seq<Byte>)
    ensures 1 <= |b| <= 4
  {
    var c1 := c / 0x40;
    var c2 := c1 / 0x40;
    var c3 := c2 / 0x40;
    if c < 0x80 then [c]
    else if c < 0x800 then [0xC0 + c1, Tail(c)]
    else if c < 0x10000 then [0xE0 + c2, Tail(c1), Tail(c)]
    else
      assert IsScalar(c);
      [0xF0 + c3, Tail(c2), Tail(c1), Tail(c)]
  }

  /** How long a sequence its first byte announces; 0 if no sequence starts so. */
  function Announced(lead: Byte): (n: nat)
    ensures n <= 4
  {
    if lead < 0x80 then 1
    else if lead < 0xC2 then 0
    else if lead < 0xE0 then 2
    else if lead < 0xF0 then 3
    else if lead < 0xF5 then 4
    else 0
  }

  /** The second byte excludes overlong forms, surrogates and values past U+10FFFF. */
  predicate SecondFits(lead: Byte, second: Byte) {
    var low := if lead == 0xE0 then 0xA0 else if lead == 0xF0 then 0x90 else 0x80;
    var high := if lead == 0xED then 0x9F else if lead == 0xF4 then 0x8F else 0xBF;
    low <= second <= high
  }

  predicate IsTail(b: Byte) {
    0x80 <= b <= 0xBF
  }

  datatype Head = Empty | Complete(length: nat) | Incomplete | Bad

  /** What stands at the start of `b`. */
  function HeadOf(b: seq<Byte>): (h: Head)
    ensures h.Complete? ==> 1 <= h.length <= |b| && h.length <= 4
    ensures h.Empty? <==> b == []
  {
    if b == [] then Empty
    else
      var n := Announced(b[0]);
      if n == 0 then Bad
      else if n == 1 then Complete(1)
      else if |b| == 1 then Incomplete
      else if !SecondFits(b[0], b[1]) then Bad
      else if n == 2 then Complete(2)
      else if |b| == 2 then Incomplete
      else if !IsTail(b[2]) then Bad
      else if n == 3 then Complete(3)
      else if |b| == 3 then Incomplete
      else if !IsTail(b[3]) then Bad
      else Complete(4)
  }

  /** Appends the six payload bits of a tail byte. */
  function Join(high: nat, tail: Byte): nat
    requires IsTail(tail)
  {
    high * 0x40 + (tail as int - 0x80)
  }

  lemma JoinSplits(high: nat, tail: Byte)
    requires IsTail(tail)
    ensures Join(high, tail) / 0x40 == high && Tail(Join(high, tail)) == tail
  {
  }

  lemma SplitJoins(c: nat)
    ensures IsTail(Tail(c)) && Join(c / 0x40, Tail(c)) == c
  {
  }

  /** The character a complete sequence at the start of `b` encodes. */
  function CharOf(b: seq<Byte>): (c: Scalar)
    requires HeadOf(b).Complete?
  {
    var n := HeadOf(b).length;
    var lead: int := b[0];
    if n == 1 then lead
    else if n == 2 then Join(lead - 0xC0, b[1])
    else if n == 3 then Join(Join(lead - 0xE0, b[1]), b[2])
    else Join(Join(Join(lead - 0xF0, b[1]), b[2]), b[3])
  }

  /** Re-encoding the character of a complete sequence gives the sequence back. */
  lemma {:induction false} CharOfEncodes(b: seq<Byte>)
    requires HeadOf(b).Complete?
    ensures Encode(CharOf(b)) == b[..HeadOf(b).length]
  {
    var n := HeadOf(b).length;
    var lead: int := b[0];
    if n == 2 {
      JoinSplits(lead - 0xC0, b[1]);
    } else if n == 3 {
      var c1 := Join(lead - 0xE0, b[1]);
      JoinSplits(lead - 0xE0, b[1]);
      JoinSplits(c1, b[2]);
    } else if n == 4 {
      var c2 := Join(lead - 0xF0, b[1]);
      var c1 := Join(c2, b[2]);
      JoinSplits(lead - 0xF0, b[1]);
      JoinSplits(c2, b[2]);
      JoinSplits(c1, b[3]);
    }
  }

  /** Every scalar value's encoding is recognised, whatever follows, as that value. */
  lemma {:induction false} EncodingIsComplete(c: Scalar, rest: seq<Byte>)
    ensures HeadOf(Encode(c) + rest) == Complete(|Encode(c)|)
    ensures CharOf(Encode(c) + rest) == c
  {
    var b := Encode(c) + rest;
    var c1, c2 := c / 0x40, c / 0x40 / 0x40;
    assert IsScalar(c);
    SplitJoins(c);
    SplitJoins(c1);
    SplitJoins(c2);
    if c >= 0x10000 {
      assert b[0] == 0xF0 + c2 / 0x40 && b[1] == Tail(c2) && b[2] == Tail(c1) && b[3] == Tail(c);
    } else if c >= 0x800 {
      assert b[0] == 0xE0 + c2 && b[1] == Tail(c1) && b[2] == Tail(c);
    } else if c >= 0x80 {
      assert b[0] == 0xC0 + c1 && b[1] == Tail(c);
    }
  }

  /** What has been recognised or refused does not depend on what follows. */
  lemma HeadIsStable(b: seq<Byte>, rest: seq<Byte>)
    requires HeadOf(b).Complete? || HeadOf(b).Bad?
    ensures HeadOf(b + rest) == HeadOf(b)
    ensures HeadOf(b).Complete? ==> CharOf(b + rest) == CharOf(b)
  {
  }

  /** A shortest way to complete an incomplete sequence. */
  function Completion(b: seq<Byte>): (s: seq<Byte>)
    requires HeadOf(b).Incomplete?
    ensures s != [] && HeadOf(b + s) == Complete(|b + s|)
  {
    var n := Announced(b[0]);
    var second: Byte := if b[0] == 0xE0 then 0xA0 else if b[0] == 0xF0 then 0x90 else 0x80;
    if |b| == 1 then
      if n == 2 then [second] else if n == 3 then [second, 0x80] else [second, 0x80, 0x80]
    else if |b| == 2 then
      if n == 3 then [0x80] else [0x80, 0x80]
    else [0x80]
  }

  /** `Incomplete` means exactly: a proper nonempty prefix of some character's encoding. */
  lemma {:induction false} IncompleteIsPrefix(b: seq<Byte>)
    ensures HeadOf(b).Incomplete? <==>
              b != [] && exists c: Scalar :: |b| < |Encode(c)| && b == Encode(c)[..|b|]
  {
    if HeadOf(b).Incomplete? {
      var whole := b + Completion(b);
      CharOfEncodes(whole);
      assert b == Encode(CharOf(whole))[..|b|];
    } else if b != [] {
      forall c: Scalar | |b| < |Encode(c)| ensures b != Encode(c)[..|b|] {
        EncodingIsComplete(c, []);
        assert Encode(c) + [] == Encode(c);
        if b == Encode(c)[..|b|] {
          assert b + Encode(c)[|b|..] == Encode(c);
          HeadIsStable(b, Encode(c)[|b|..]);
        }
      }
    }
  }

  // ----- whole strings

  function EncodeAll(text: seq<Scalar>): seq<Byte> {
    if text == [] then [] else Encode(text[0]) + EncodeAll(text[1..])
  }

  datatype End = Clean | Cut | Broken

  /** The longest valid prefix, its characters, and why the scan stopped there. */
  datatype Scan = Scan(valid: nat, text: seq<Scalar>, end: End)

  function ScanOf(b: seq<Byte>): (r: Scan)
    ensures r.valid <= |b|
  {
    match HeadOf(b)
    case Empty => Scan(0, [], Clean)
    case Incomplete => Scan(0, [], Cut)
    case Bad => Scan(0, [], Broken)
    case Complete(n) => After([CharOf(b)], n, ScanOf(b[n..]))
  }

  /** A scan that first passes over `text`, which takes `n` bytes. */
  function After(text: seq<Scalar>, n: nat, r: Scan): Scan {
    Scan(n + r.valid, text + r.text, r.end)
  }

  lemma IncompleteIsShort(b: seq<Byte>)
    ensures HeadOf(b).Incomplete? ==> 1 <= |b| <= 3
  {
  }

  /** The scan reports the encoded characters and stops where it must. */
  lemma {:induction false} ScanIsExact(b: seq<Byte>)
    ensures EncodeAll(ScanOf(b).text) == b[..ScanOf(b).valid]
    ensures match ScanOf(b).end
            case Clean => ScanOf(b).valid == |b|
            case Cut => HeadOf(b[ScanOf(b).valid..]).Incomplete? && 1 <= |b| - ScanOf(b).valid <= 3
            case Broken => HeadOf(b[ScanOf(b).valid..]).Bad?
  {
    IncompleteIsShort(b);
    hide HeadOf, CharOf, Encode;
    match HeadOf(b)
    case Complete(n) =>
      ScanIsExact(b[n..]);
      CharOfEncodes(b);
      var r := ScanOf(b[n..]);
      assert ScanOf(b).text[1..] == r.text;
      assert b[..n] + b[n..][..r.valid] == b[..n + r.valid];
      assert b[n..][r.valid..] == b[n + r.valid..];
    case _ =>
      assert b[0..] == b;
  }

  lemma ScanPassesOne(c: Scalar, rest: seq<Byte>)
    ensures ScanOf(Encode(c) + rest) == After([c], |Encode(c)|, ScanOf(rest))
  {
    EncodingIsComplete(c, rest);
    hide HeadOf, CharOf, Encode;
    assert (Encode(c) + rest)[|Encode(c)|..] == rest;
  }

  lemma AfterAfter(c: Scalar, n: nat, text: seq<Scalar>, m: nat, r: Scan)
    ensures After([c], n, After(text, m, r)) == After([c] + text, n + m, r)
  {
    assert [c] + (text + r.text) == [c] + text + r.text;
  }

  lemma {:induction false} ScanPassesText(text: seq<Scalar>, rest: seq<Byte>)
    ensures ScanOf(EncodeAll(text) + rest) == After(text, |EncodeAll(text)|, ScanOf(rest))
  {
    hide HeadOf, CharOf, Encode, ScanOf;
    if text == [] {
      assert EncodeAll(text) + rest == rest;
      assert text + ScanOf(rest).text == ScanOf(rest).text;
    } else {
      var tail := EncodeAll(text[1..]) + rest;
      ScanPassesOne(text[0], tail);
      ScanPassesText(text[1..], rest);
      assert EncodeAll(text) + rest == Encode(text[0]) + tail;
      AfterAfter(text[0], |Encode(text[0])|, text[1..], |EncodeAll(text[1..])|, ScanOf(rest));
      assert text == [text[0]] + text[1..];
    }
  }

  /** A clean scan is exactly a concatenation of encodings, and tells which. */
  lemma {:induction false} CleanIsEncoded(b: seq<Byte>, text: seq<Scalar>)
    ensures ScanOf(b).end == Clean && ScanOf(b).text == text <==> b == EncodeAll(text)
  {
    ScanIsExact(b);
    ScanPassesText(text, []);
    assert EncodeAll(text) + [] == EncodeAll(text);
    assert b[..|b|] == b;
  }

  /** Appending bytes: only what was cut off is looked at again. */
  lemma {:induction false} ScanOfAppend(b: seq<Byte>, rest: seq<Byte>)
    ensures ScanOf(b).end == Broken ==> ScanOf(b + rest) == ScanOf(b)
    ensures ScanOf(b + rest)
         == After(ScanOf(b).text, ScanOf(b).valid, ScanOf(b[ScanOf(b).valid..] + rest))
  {
    hide HeadOf, CharOf, Encode, EncodeAll;
    ScanIsExact(b);
    var r := ScanOf(b);
    ScanPassesText(r.text, b[r.valid..] + rest);
    assert b + rest == b[..r.valid] + (b[r.valid..] + rest);
    if r.end == Broken {
      HeadIsStable(b[r.valid..], rest);
      assert r.text + [] == r.text;
    }
  }
}

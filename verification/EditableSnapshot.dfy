/**
 Decoding a file for editing, after `decode_editable_snapshot` in
 `encoding.rs`: the text is handed out only if re-encoding it, piece by piece,
 reproduces the file byte for byte.
 */
module EditableSnapshot {
  import opened Wrappers
  import opened Utf8
  import opened StreamingDecode
  import opened Capture

  const DECODE_CHUNK_BYTES: nat := 65536

  // ----- cutting text at character boundaries

  /** `str::is_char_boundary`. */
  predicate IsCharBoundary(b: seq<Byte>, i: nat)
    requires i <= |b|
  {
    i == |b| || !IsTail(b[i])
  }

  predicate IsText(b: seq<Byte>) {
    ScanOf(b).end == Clean
  }

  lemma TailsInside(b: seq<Byte>, i: nat)
    requires HeadOf(b).Complete? && 0 < i < HeadOf(b).length
    ensures IsTail(b[i])
  {
  }

  lemma HeadStartsNoTail(b: seq<Byte>)
    requires HeadOf(b).Complete?
    ensures !IsTail(b[0])
  {
  }

  /** Valid text cut at a boundary is two valid texts. */
  lemma {:induction false} CutAtBoundary(b: seq<Byte>, i: nat)
    requires IsText(b) && i <= |b| && IsCharBoundary(b, i)
    ensures IsText(b[..i]) && IsText(b[i..])
    ensures ScanOf(b).text == ScanOf(b[..i]).text + ScanOf(b[i..]).text
  {
    if i == 0 {
      assert b[0..] == b && b[..0] == [];
      EmptyScan();
      Associates([], [], ScanOf(b).text);
      hide *;
    } else {
      CleanIsNotEmpty(b);
      var n := HeadOf(b).length;
      if i < n { TailsInside(b, i); }
      var rest := b[n..];
      assert rest[i - n..] == b[i..] && rest[..i - n] == b[..i][n..];
      assert i - n < |rest| ==> rest[i - n] == b[i];
      hide HeadOf, CharOf, ScanOf;
      CutAtBoundary(rest, i - n);
      ScanAfterHead(b);
      HeadOfPrefix(b, i);
      ScanAfterHead(b[..i]);
      Associates([CharOf(b)], ScanOf(rest[..i - n]).text, ScanOf(b[i..]).text);
    }
  }

  lemma ScanAfterHead(b: seq<Byte>)
    requires HeadOf(b).Complete?
    ensures ScanOf(b) == After([CharOf(b)], HeadOf(b).length, ScanOf(b[HeadOf(b).length..]))
  {
  }

  lemma EmptyScan()
    ensures ScanOf([]) == Scan(0, [], Clean)
  {
  }

  lemma CleanIsNotEmpty(b: seq<Byte>)
    requires IsText(b) && b != []
    ensures HeadOf(b).Complete? && IsText(b[HeadOf(b).length..])
  {
  }

  lemma HeadOfPrefix(b: seq<Byte>, i: nat)
    requires HeadOf(b).Complete? && HeadOf(b).length <= i <= |b|
    ensures HeadOf(b[..i]) == HeadOf(b) && CharOf(b[..i]) == CharOf(b)
  {
  }

  /** The last boundary within reach, or the end of one character that is longer than that. */
  method NextCharBoundary(text: seq<Byte>, start: nat, maximum: nat) returns (end: nat)
    requires start <= |text| <= WORD_MAX && IsText(text[start..])
    ensures start <= end <= |text| && IsCharBoundary(text, end)
    ensures start < |text| ==> start < end
    ensures forall j :: end < j <= Min(start + maximum, |text|) ==> !IsCharBoundary(text, j)
    ensures end <= start + maximum || (HeadOf(text[start..]).Complete? && end == start + HeadOf(text[start..]).length)
  {
    end := Min(SaturatingAdd(start, maximum), |text|);
    while end > start && !IsCharBoundary(text, end)
      invariant start <= end <= |text| && end <= start + maximum
      invariant forall j :: end < j <= Min(start + maximum, |text|) ==> !IsCharBoundary(text, j)
    {
      end := end - 1;
    }
    if end == start && start < |text| {
      CleanIsNotEmpty(text[start..]);
      var length := HeadOf(text[start..]).length;
      AfterHead(text, start);
      end := start + length;
    } else if end == start {
      assert end == |text|;
    }
  }

  lemma AfterHead(text: seq<Byte>, start: nat)
    requires start < |text| && IsText(text[start..]) && HeadOf(text[start..]).Complete?
    ensures IsCharBoundary(text, start + HeadOf(text[start..]).length)
  {
    CleanIsNotEmpty(text[start..]);
    var n := HeadOf(text[start..]).length;
    var rest := text[start..][n..];
    if rest != [] {
      CleanIsNotEmpty(rest);
      HeadStartsNoTail(rest);
      assert rest[0] == text[start + n];
    }
  }

  // ----- re-encoding

  /** How a legacy encoder writes a fragment; `None` if it cannot, or would need state. */
  type ForeignEncoder = (string, Text) -> Option<seq<Byte>>

  function EncodeFragment(kind: Kind, foreign: ForeignEncoder, text: Text): Option<seq<Byte>> {
    if kind.Foreign? then foreign(kind.name, text) else Some(EncodeText(kind, text))
  }

  datatype EditError = Changed | Stateful | NotReproduced

  lemma {:induction false} EncodeAllAppend(a: Text, b: Text)
    ensures EncodeAll(a + b) == EncodeAll(a) + EncodeAll(b)
  {
    if a == [] {
      assert a + b == b;
    } else {
      assert (a + b)[1..] == a[1..] + b;
      EncodeAllAppend(a[1..], b);
    }
  }

  lemma {:induction false} EncodeUnitsAppend(a: Text, b: Text, littleEndian: bool)
    ensures EncodeUnits(a + b, littleEndian) == EncodeUnits(a, littleEndian) + EncodeUnits(b, littleEndian)
  {
    if a == [] {
      assert a + b == b;
    } else {
      assert (a + b)[1..] == a[1..] + b;
      EncodeUnitsAppend(a[1..], b, littleEndian);
    }
  }

  lemma EncodeTextAppend(kind: Kind, a: Text, b: Text)
    requires !kind.Foreign?
    ensures EncodeText(kind, a + b) == EncodeText(kind, a) + EncodeText(kind, b)
  {
    match kind
    case Utf8Kind => EncodeAllAppend(a, b);
    case Utf32(littleEndian) => EncodeUnitsAppend(a, b, littleEndian);
  }

  function JoinText(pieces: seq<Text>): Text {
    if pieces == [] then [] else JoinText(pieces[..|pieces| - 1]) + pieces[|pieces| - 1]
  }

  /** The pieces, each encoded by itself, give these bytes. */
  ghost predicate Reproduces(kind: Kind, foreign: ForeignEncoder, pieces: seq<Text>, raw: seq<Byte>)
    decreases |pieces|
  {
    if pieces == [] then raw == []
    else
      var last := EncodeFragment(kind, foreign, pieces[|pieces| - 1]);
      && last.Some? && |last.value| <= |raw| && raw[|raw| - |last.value|..] == last.value
      && Reproduces(kind, foreign, pieces[..|pieces| - 1], raw[..|raw| - |last.value|])
  }

  lemma ReproducesNext(kind: Kind, foreign: ForeignEncoder, pieces: seq<Text>, raw: seq<Byte>, piece: Text, more: seq<Byte>)
    requires Reproduces(kind, foreign, pieces, raw) && EncodeFragment(kind, foreign, piece) == Some(more)
    ensures Reproduces(kind, foreign, pieces + [piece], raw + more)
    ensures JoinText(pieces + [piece]) == JoinText(pieces) + piece
  {
    assert (pieces + [piece])[..|pieces|] == pieces;
    assert (raw + more)[..|raw|] == raw && (raw + more)[|raw|..] == more;
  }

  /**
   The decoded text, if its pieces re-encode to exactly the file behind the
   mark. For UTF-8 and UTF-32 the check never fails on a file that decodes.
   */
  method DecodeEditableSnapshot(codecs: Codecs, foreign: ForeignEncoder, kind: Kind, bomLength: nat, raw: seq<Byte>)
    returns (r: Result<Text, EditError>)
    requires bomLength <= |raw| ==> Holdable(codecs, kind, raw[bomLength..])
    ensures bomLength > |raw| ==> r == Err(Changed)
    ensures bomLength <= |raw| && r.Ok? ==>
              && DecodeBytes(codecs, kind, raw[bomLength..]) == Some(r.value)
              && Reproducible(kind, foreign, r.value, raw[bomLength..])
    ensures bomLength <= |raw| && !kind.Foreign? ==>
              r == match DecodeWhole(kind, raw[bomLength..]) case Some(text) => Ok(text) case None => Err(Changed)
  {
    hide *;
    if bomLength > |raw| { return Err(Changed); }
    r := DecodeEditable(codecs, foreign, kind, raw[bomLength..]);
  }

  /** The decoded text is a string the machine can hold. */
  ghost predicate Holdable(codecs: Codecs, kind: Kind, body: seq<Byte>) {
    match DecodeBytes(codecs, kind, body)
    case None => true
    case Some(text) => |EncodeAll(text)| <= WORD_MAX
  }

  /** Some division of the text into pieces re-encodes to these bytes. */
  ghost predicate Reproducible(kind: Kind, foreign: ForeignEncoder, text: Text, body: seq<Byte>) {
    exists pieces :: JoinText(pieces) == text && Reproduces(kind, foreign, pieces, body)
  }

  lemma HoldableText(codecs: Codecs, kind: Kind, body: seq<Byte>, text: Text)
    requires Holdable(codecs, kind, body) && DecodeBytes(codecs, kind, body) == Some(text)
    ensures |EncodeAll(text)| <= WORD_MAX
  {
  }

  lemma UndecodedBody(codecs: Codecs, kind: Kind, body: seq<Byte>)
    requires !kind.Foreign?
    ensures DecodeBytes(codecs, kind, body) == DecodeWhole(kind, body)
  {
  }

  method DecodeEditable(codecs: Codecs, foreign: ForeignEncoder, kind: Kind, body: seq<Byte>)
    returns (r: Result<Text, EditError>)
    requires Holdable(codecs, kind, body)
    ensures r.Ok? ==> DecodeBytes(codecs, kind, body) == Some(r.value) && Reproducible(kind, foreign, r.value, body)
    ensures !kind.Foreign? ==>
              r == match DecodeWhole(kind, body) case Some(text) => Ok(text) case None => Err(Changed)
  {
    hide *;
    if !kind.Foreign? { UndecodedBody(codecs, kind, body); }
    var decoded := DecodeBytes(codecs, kind, body);
    if decoded.None? { return Err(Changed); }
    HoldableText(codecs, kind, body, decoded.value);
    var chars := decoded.value;
    var text := EncodeAll(chars);
    Started(codecs, foreign, kind, body, chars);
    var textOffset: nat, done: nat := 0, 0;
    ghost var pieces: seq<Text> := [];
    while textOffset < |text|
      invariant textOffset <= |text| && done <= |body| && IsText(text[textOffset..])
      invariant Underway(kind, foreign, chars, text, textOffset, body, done, pieces)
    {
      var end := NextCharBoundary(text, textOffset, DECODE_CHUNK_BYTES);
      var piece := ScanOf(text[textOffset..end]).text;
      var fragment := EncodeFragment(kind, foreign, piece);
      PieceAdvances(kind, foreign, chars, text, textOffset, end, body, done, pieces);
      if fragment.None? { return Err(Stateful); }
      var doneNext := done + |fragment.value|;
      if doneNext > |body| || body[done..doneNext] != fragment.value { return Err(NotReproduced); }
      pieces := pieces + [piece];
      textOffset, done := end, doneNext;
    }
    Ended(kind, foreign, chars, text, textOffset, body, done, pieces);
    if done != |body| { return Err(NotReproduced); }
    r := Ok(chars);
  }

  /** The text up to one offset has been matched with the file up to another. */
  ghost predicate Underway(
    kind: Kind, foreign: ForeignEncoder, chars: Text, text: seq<Byte>, textOffset: nat, body: seq<Byte>, done: nat,
    pieces: seq<Text>)
  {
    && textOffset <= |text| && done <= |body|
    && IsText(text[textOffset..]) && chars == JoinText(pieces) + ScanOf(text[textOffset..]).text
    && Reproduces(kind, foreign, pieces, body[..done])
    && (!kind.Foreign? ==> body[done..] == EncodeText(kind, ScanOf(text[textOffset..]).text))
  }

  lemma Started(codecs: Codecs, foreign: ForeignEncoder, kind: Kind, body: seq<Byte>, chars: Text)
    requires DecodeBytes(codecs, kind, body) == Some(chars)
    ensures IsText(EncodeAll(chars)[0..]) && Underway(kind, foreign, chars, EncodeAll(chars), 0, body, 0, [])
    ensures !kind.Foreign? ==> DecodeWhole(kind, body) == Some(chars)
  {
    StartsAsText(chars);
    NothingReproduced(kind, foreign);
    assert body[..0] == [] && body[0..] == body;
    if !kind.Foreign? { NeverChanges(codecs, kind, body, chars); }
    hide ScanOf, EncodeAll;
  }

  /** One piece: for UTF-8 and UTF-32 it always matches; once matched, the account goes on behind it. */
  lemma PieceAdvances(
    kind: Kind, foreign: ForeignEncoder, chars: Text, text: seq<Byte>, start: nat, end: nat, body: seq<Byte>, done: nat,
    pieces: seq<Text>)
    requires start <= end <= |text| && IsText(text[start..]) && IsCharBoundary(text, end)
    requires Underway(kind, foreign, chars, text, start, body, done, pieces) && done <= |body|
    ensures IsText(text[end..])
    ensures var fragment := EncodeFragment(kind, foreign, ScanOf(text[start..end]).text);
      && (!kind.Foreign? ==>
            fragment.Some? && done + |fragment.value| <= |body| && body[done..done + |fragment.value|] == fragment.value)
      && (fragment.Some? && done + |fragment.value| <= |body| && body[done..done + |fragment.value|] == fragment.value ==>
            Underway(kind, foreign, chars, text, end, body, done + |fragment.value|,
                     pieces + [ScanOf(text[start..end]).text]))
  {
    hide ScanOf, EncodeFragment, Reproduces, JoinText, EncodeText, IsText, IsCharBoundary;
    CutFragment(text, start, end);
    var piece, rest := ScanOf(text[start..end]).text, ScanOf(text[end..]).text;
    var fragment := EncodeFragment(kind, foreign, piece);
    if !kind.Foreign? { FragmentFits(kind, foreign, piece, rest, body, done); }
    if fragment.Some? && done + |fragment.value| <= |body| && body[done..done + |fragment.value|] == fragment.value {
      assert body[..done + |fragment.value|] == body[..done] + fragment.value;
      ReproducesNext(kind, foreign, pieces, body[..done], piece, fragment.value);
      Associates(JoinText(pieces), piece, rest);
    }
  }

  lemma Ended(
    kind: Kind, foreign: ForeignEncoder, chars: Text, text: seq<Byte>, textOffset: nat, body: seq<Byte>, done: nat,
    pieces: seq<Text>)
    requires textOffset == |text| && done <= |body| && Underway(kind, foreign, chars, text, textOffset, body, done, pieces)
    ensures done == |body| ==> Reproducible(kind, foreign, chars, body)
    ensures !kind.Foreign? ==> done == |body|
  {
    AtTheEnd(kind, text, textOffset, JoinText(pieces));
    assert body[..|body|] == body;
    hide Reproduces, JoinText, EncodeText, ScanOf;
  }

  lemma Associates(a: Text, b: Text, c: Text)
    ensures a + (b + c) == a + b + c
  {
  }

  lemma StartsAsText(chars: Text)
    ensures var text := EncodeAll(chars);
      && text[0..] == text && IsText(text[0..]) && ScanOf(text[0..]).text == chars
      && JoinText([]) + chars == chars
  {
    CleanIsEncoded(EncodeAll(chars), chars);
    assert EncodeAll(chars)[0..] == EncodeAll(chars);
  }

  lemma NothingReproduced(kind: Kind, foreign: ForeignEncoder)
    ensures Reproduces(kind, foreign, [], [])
  {
  }

  lemma NeverChanges(codecs: Codecs, kind: Kind, body: seq<Byte>, chars: Text)
    requires !kind.Foreign? && DecodeBytes(codecs, kind, body) == Some(chars)
    ensures DecodeWhole(kind, body) == Some(chars) && body == EncodeText(kind, chars)
  {
    DecodeIsInverse(kind, body, chars);
  }

  lemma CutFragment(text: seq<Byte>, start: nat, end: nat)
    requires start <= end <= |text| && IsText(text[start..]) && IsCharBoundary(text, end)
    ensures IsText(text[start..end]) && IsText(text[end..])
    ensures ScanOf(text[start..]).text == ScanOf(text[start..end]).text + ScanOf(text[end..]).text
  {
    hide ScanOf, IsText;
    var rest, n := text[start..], end - start;
    assert rest[..n] == text[start..end] && rest[n..] == text[end..];
    assert n < |rest| ==> rest[n] == text[end];
    CutAtBoundary(rest, n);
  }

  lemma FragmentFits(kind: Kind, foreign: ForeignEncoder, piece: Text, rest: Text, raw: seq<Byte>, offset: nat)
    requires !kind.Foreign? && offset <= |raw| && raw[offset..] == EncodeText(kind, piece + rest)
    ensures EncodeFragment(kind, foreign, piece) == Some(EncodeText(kind, piece))
    ensures var end := offset + |EncodeText(kind, piece)|;
      end <= |raw| && raw[offset..end] == EncodeText(kind, piece) && raw[end..] == EncodeText(kind, rest)
  {
    EncodeTextAppend(kind, piece, rest);
    var n := |EncodeText(kind, piece)|;
    assert raw[offset..][..n] == raw[offset..offset + n] && raw[offset..][n..] == raw[offset + n..];
  }

  lemma AtTheEnd(kind: Kind, text: seq<Byte>, offset: nat, joined: Text)
    requires offset == |text|
    ensures ScanOf(text[offset..]).text == [] && joined + [] == joined
    ensures !kind.Foreign? ==> EncodeText(kind, []) == []
  {
    assert text[offset..] == [];
  }
}

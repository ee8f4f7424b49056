/**
 The chunk decoders of `encoding.rs`: strict decoding that carries an
 unfinished character from one chunk to the next, and the incremental
 detector of a UTF-8 prefix that later stops being UTF-8.
 */
module StreamingDecode {
  import opened Wrappers
  import opened Utf8

  type Text = seq<Scalar>

  datatype Kind = Utf8Kind | Utf32(littleEndian: bool) | Foreign(name: string)

  /** Every read of a source, in order. */
  function Concat(chunks: seq<seq<Byte>>): seq<Byte> {
    if chunks == [] then [] else Concat(chunks[..|chunks| - 1]) + chunks[|chunks| - 1]
  }

  // ----- UTF-32

  /** Four bytes as a number, lowest first. */
  function Word(b0: int, b1: int, b2: int, b3: int): int {
    b0 + 0x100 * (b1 + 0x100 * (b2 + 0x100 * b3))
  }

  /** `u32::from_le_bytes` and `u32::from_be_bytes`. */
  function UnitOf(b: seq<Byte>, littleEndian: bool): nat
    requires |b| >= 4
  {
    if littleEndian then Word(b[0], b[1], b[2], b[3]) else Word(b[3], b[2], b[1], b[0])
  }

  function EncodeUnit(c: Scalar, littleEndian: bool): seq<Byte> {
    assert IsScalar(c);
    var b0: Byte, b1: Byte, b2: Byte := c % 0x100, c / 0x100 % 0x100, c / 0x100 / 0x100;
    if littleEndian then [b0, b1, b2, 0] else [0, b2, b1, b0]
  }

  function EncodeUnits(text: Text, littleEndian: bool): seq<Byte> {
    if text == [] then [] else EncodeUnit(text[0], littleEndian) + EncodeUnits(text[1..], littleEndian)
  }

  /** The characters of all complete units, if all are scalar values. */
  function Units(b: seq<Byte>, littleEndian: bool): (text: Option<Text>)
    ensures text.Some? ==> |text.value| == |b| / 4
  {
    if |b| < 4 then Some([])
    else if !IsScalar(UnitOf(b, littleEndian)) then None
    else
      match Units(b[4..], littleEndian)
      case None => None
      case Some(rest) => Some([UnitOf(b, littleEndian)] + rest)
  }

  lemma UnitRoundTrip(c: Scalar, littleEndian: bool, rest: seq<Byte>)
    ensures |EncodeUnit(c, littleEndian)| == 4
    ensures UnitOf(EncodeUnit(c, littleEndian) + rest, littleEndian) == c
  {
    var b := EncodeUnit(c, littleEndian) + rest;
    assert b[..4] == EncodeUnit(c, littleEndian);
  }

  lemma WordDigits(b0: Byte, b1: Byte, b2: Byte, b3: Byte)
    ensures var w := Word(b0, b1, b2, b3);
      w % 0x100 == b0 && w / 0x100 % 0x100 == b1 && w / 0x100 / 0x100 == b2 + 0x100 * b3 as int
  {
    var high: int := b2 as int + 0x100 * b3 as int;
    var mid: int := b1 as int + 0x100 * high;
    assert Word(b0, b1, b2, b3) == b0 as int + 0x100 * mid;
    assert (b0 as int + 0x100 * mid) / 0x100 == mid;
    assert mid / 0x100 == high;
  }

  lemma UnitDetermined(b: seq<Byte>, littleEndian: bool)
    requires |b| >= 4 && IsScalar(UnitOf(b, littleEndian))
    ensures EncodeUnit(UnitOf(b, littleEndian), littleEndian) == b[..4]
  {
    if littleEndian { WordDigits(b[0], b[1], b[2], b[3]); } else { WordDigits(b[3], b[2], b[1], b[0]); }
    hide Word;
  }

  /** Splitting at a unit boundary splits the decoding. */
  lemma {:induction false} UnitsOfAppend(b: seq<Byte>, rest: seq<Byte>, littleEndian: bool)
    requires |b| % 4 == 0
    ensures Units(b + rest, littleEndian) ==
            if Units(b, littleEndian).None? || Units(rest, littleEndian).None? then None
            else Some(Units(b, littleEndian).value + Units(rest, littleEndian).value)
  {
    if b == [] {
      assert b + rest == rest;
      var more := Units(rest, littleEndian);
      if more.Some? { assert [] + more.value == more.value; }
    } else {
      assert (b + rest)[4..] == b[4..] + rest;
      assert UnitOf(b + rest, littleEndian) == UnitOf(b, littleEndian);
      UnitsOfAppend(b[4..], rest, littleEndian);
      var tail, more := Units(b[4..], littleEndian), Units(rest, littleEndian);
      if tail.Some? && more.Some? {
        var c := [UnitOf(b, littleEndian)];
        assert c + (tail.value + more.value) == c + tail.value + more.value;
      }
    }
  }

  // ----- one-shot decoding

  /** `decode_bytes` behind the BOM: all or nothing. */
  function DecodeWhole(kind: Kind, b: seq<Byte>): Option<Text>
    requires !kind.Foreign?
  {
    match kind
    case Utf8Kind => if ScanOf(b).end == Clean then Some(ScanOf(b).text) else None
    case Utf32(littleEndian) => if |b| % 4 == 0 then Units(b, littleEndian) else None
  }

  /** `encode_fragment`, which writes edited text back. */
  function EncodeText(kind: Kind, text: Text): seq<Byte>
    requires !kind.Foreign?
  {
    match kind
    case Utf8Kind => EncodeAll(text)
    case Utf32(littleEndian) => EncodeUnits(text, littleEndian)
  }

  lemma {:induction false} UnitsExact(b: seq<Byte>, text: Text, littleEndian: bool)
    ensures |b| % 4 == 0 && Units(b, littleEndian) == Some(text) <==> b == EncodeUnits(text, littleEndian)
    decreases |b| + |text|
  {
    if |b| >= 4 && text != [] {
      UnitsExact(b[4..], text[1..], littleEndian);
      if IsScalar(UnitOf(b, littleEndian)) {
        UnitDetermined(b, littleEndian);
        assert b == b[..4] + b[4..];
      }
      UnitRoundTrip(text[0], littleEndian, EncodeUnits(text[1..], littleEndian));
      assert text == [text[0]] + text[1..];
    } else if text != [] {
      UnitRoundTrip(text[0], littleEndian, EncodeUnits(text[1..], littleEndian));
    }
  }

  /** Decoding succeeds exactly on encodings, and re-encoding reproduces the bytes. */
  lemma {:induction false} DecodeIsInverse(kind: Kind, b: seq<Byte>, text: Text)
    requires !kind.Foreign?
    ensures DecodeWhole(kind, b) == Some(text) <==> b == EncodeText(kind, text)
  {
    match kind
    case Utf8Kind => CleanIsEncoded(b, text);
    case Utf32(littleEndian) => UnitsExact(b, text, littleEndian);
  }

  // ----- what a decoder remembers

  /** No continuation of these bytes can decode. */
  predicate Hopeless(kind: Kind, b: seq<Byte>)
    requires !kind.Foreign?
  {
    match kind
    case Utf8Kind => ScanOf(b).end == Broken
    case Utf32(littleEndian) => Units(b, littleEndian).None?
  }

  /** The bytes of a character that has begun but not ended. */
  function CarryOf(kind: Kind, b: seq<Byte>): seq<Byte>
    requires !kind.Foreign?
  {
    match kind
    case Utf8Kind => b[ScanOf(b).valid..]
    case Utf32(_) => b[|b| / 4 * 4..]
  }

  /** The characters that have ended. */
  function TextOf(kind: Kind, b: seq<Byte>): Text
    requires !kind.Foreign? && !Hopeless(kind, b)
  {
    match kind
    case Utf8Kind => ScanOf(b).text
    case Utf32(littleEndian) => Units(b, littleEndian).value
  }

  lemma UnitsOfComplete(b: seq<Byte>, littleEndian: bool)
    ensures Units(b[..|b| / 4 * 4], littleEndian) == Units(b, littleEndian)
  {
    var n := |b| / 4 * 4;
    UnitsOfAppend(b[..n], b[n..], littleEndian);
    assert b == b[..n] + b[n..];
    var whole := Units(b[..n], littleEndian);
    if whole.Some? { assert whole.value + [] == whole.value; }
  }

  lemma {:induction false} HopelessUnits(b: seq<Byte>, rest: seq<Byte>, littleEndian: bool)
    ensures Units(b, littleEndian).None? ==> Units(b + rest, littleEndian).None?
    ensures Units(b, littleEndian).Some? ==>
              Units(b + rest, littleEndian) ==
              match Units(b[|b| / 4 * 4..] + rest, littleEndian)
              case None => None
              case Some(more) => Some(Units(b, littleEndian).value + more)
  {
    var n := |b| / 4 * 4;
    UnitsOfComplete(b, littleEndian);
    UnitsOfAppend(b[..n], b[n..] + rest, littleEndian);
    assert b + rest == b[..n] + (b[n..] + rest);
  }

  /** Hopelessness is permanent, and never mistaken: no continuation decodes. */
  lemma {:induction false} HopelessIsPermanent(kind: Kind, b: seq<Byte>, rest: seq<Byte>)
    requires !kind.Foreign? && Hopeless(kind, b)
    ensures Hopeless(kind, b + rest) && DecodeWhole(kind, b + rest).None?
  {
    match kind
    case Utf8Kind => ScanOfAppend(b, rest);
    case Utf32(littleEndian) => HopelessUnits(b, rest, littleEndian);
  }

  /** Only the carry matters for what comes next. */
  lemma {:induction false} CarryIsEnough(kind: Kind, b: seq<Byte>, input: seq<Byte>)
    requires !kind.Foreign? && !Hopeless(kind, b)
    ensures Hopeless(kind, b + input) <==> Hopeless(kind, CarryOf(kind, b) + input)
    ensures CarryOf(kind, b + input) == CarryOf(kind, CarryOf(kind, b) + input)
    ensures !Hopeless(kind, b + input) ==>
              TextOf(kind, b + input) == TextOf(kind, b) + TextOf(kind, CarryOf(kind, b) + input)
    ensures DecodeWhole(kind, b + input).Some? <==> DecodeWhole(kind, CarryOf(kind, b) + input).Some?
  {
    match kind
    case Utf8Kind => Utf8CarryIsEnough(b, input);
    case Utf32(littleEndian) => UnitCarryIsEnough(b, input, littleEndian);
  }

  lemma Utf8CarryIsEnough(b: seq<Byte>, input: seq<Byte>)
    requires !Hopeless(Utf8Kind, b)
    ensures var carried := CarryOf(Utf8Kind, b) + input;
      && ScanOf(b + input) == After(ScanOf(b).text, ScanOf(b).valid, ScanOf(carried))
      && CarryOf(Utf8Kind, b + input) == CarryOf(Utf8Kind, carried)
  {
    ScanOfAppend(b, input);
    hide ScanOf;
    var v := ScanOf(b).valid;
    var carried := b[v..] + input;
    assert b + input == b[..v] + carried;
    assert (b[..v] + carried)[v + ScanOf(carried).valid..] == carried[ScanOf(carried).valid..];
  }

  lemma UnitCarryIsEnough(b: seq<Byte>, input: seq<Byte>, littleEndian: bool)
    requires Units(b, littleEndian).Some?
    ensures var carried := CarryOf(Utf32(littleEndian), b) + input;
      && Units(b + input, littleEndian) ==
         (match Units(carried, littleEndian)
          case None => None
          case Some(more) => Some(Units(b, littleEndian).value + more))
      && CarryOf(Utf32(littleEndian), b + input) == CarryOf(Utf32(littleEndian), carried)
      && |b + input| % 4 == |carried| % 4
  {
    HopelessUnits(b, input, littleEndian);
    hide Units;
    var n := |b| / 4 * 4;
    var carried := b[n..] + input;
    assert b + input == b[..n] + carried;
    assert |b + input| / 4 * 4 == n + |carried| / 4 * 4;
    assert (b[..n] + carried)[n + |carried| / 4 * 4..] == carried[|carried| / 4 * 4..];
  }

  /** A live decoder's carry is at most three bytes, and for UTF-8 always the start of a character. */
  lemma {:induction false} CarryIsShort(kind: Kind, b: seq<Byte>)
    requires !kind.Foreign? && !Hopeless(kind, b)
    ensures |CarryOf(kind, b)| <= 3
    ensures kind.Utf8Kind? && CarryOf(kind, b) != [] ==>
              exists c: Scalar :: |CarryOf(kind, b)| < |Encode(c)| && CarryOf(kind, b) == Encode(c)[..|CarryOf(kind, b)|]
    ensures CarryOf(kind, b) == [] <==> DecodeWhole(kind, b).Some?
  {
    if kind.Utf8Kind? {
      ScanIsExact(b);
      IncompleteIsPrefix(CarryOf(kind, b));
    }
  }

  // ----- the chunk decoders

  /** What feeding `input` to a decoder that carries `carry` must do. */
  ghost predicate Decodes(kind: Kind, carry: seq<Byte>, input: seq<Byte>, isLast: bool, r: Option<Text>, carry': seq<Byte>)
    requires !kind.Foreign?
  {
    var b := carry + input;
    if isLast then r == DecodeWhole(kind, b) && carry' == []
    else if Hopeless(kind, b) then r == None
    else r == Some(TextOf(kind, b)) && carry' == CarryOf(kind, b)
  }

  method DecodeUtf8Chunk(carry: seq<Byte>, input: seq<Byte>, isLast: bool) returns (r: Option<Text>, carry': seq<Byte>)
    ensures Decodes(Utf8Kind, carry, input, isLast, r, carry')
  {
    var bytes := carry + input;
    carry' := [];
    var scan := ScanOf(bytes);
    ScanIsExact(bytes);
    if scan.end == Clean {
      r := Some(scan.text);
    } else if scan.end == Cut && !isLast {
      carry' := bytes[scan.valid..];
      CleanIsEncoded(bytes[..scan.valid], scan.text);
      var again := ScanOf(bytes[..scan.valid]);
      r := if again.end == Clean then Some(again.text) else None;
    } else {
      r := None;
    }
  }

  method DecodeUtf32Chunk(carry: seq<Byte>, input: seq<Byte>, isLast: bool, littleEndian: bool)
    returns (r: Option<Text>, carry': seq<Byte>)
    ensures Decodes(Utf32(littleEndian), carry, input, isLast, r, carry')
  {
    hide UnitOf;
    var bytes := carry + input;
    carry' := [];
    if isLast && |bytes| % 4 != 0 { return None, carry'; }
    var complete := |bytes| / 4 * 4;
    if !isLast { carry' := bytes[complete..]; }
    UnitsOfComplete(bytes, littleEndian);
    assert bytes[..complete][0..] == bytes[..complete];
    var output: Text := [];
    BehindNothing(Units(bytes, littleEndian));
    var at := 0;
    while at < complete
      invariant at <= complete && at % 4 == 0
      invariant Units(bytes, littleEndian) == Behind(output, Units(bytes[..complete][at..], littleEndian))
    {
      var raw := bytes[..complete][at..];
      var unit := UnitOf(raw, littleEndian);
      if !IsScalar(unit) { return None, carry'; }
      assert raw[4..] == bytes[..complete][at + 4..];
      StepUnits(raw, output, littleEndian);
      output := output + [unit];
      at := at + 4;
    }
    assert output + [] == output;
    r := Some(output);
  }

  /** Text already written, then the rest if it decodes. */
  function Behind(output: Text, rest: Option<Text>): Option<Text> {
    match rest
    case None => None
    case Some(more) => Some(output + more)
  }

  lemma BehindNothing(rest: Option<Text>)
    ensures Behind([], rest) == rest
  {
    if rest.Some? { assert [] + rest.value == rest.value; }
  }

  lemma StepUnits(raw: seq<Byte>, output: Text, littleEndian: bool)
    requires |raw| >= 4 && IsScalar(UnitOf(raw, littleEndian))
    ensures Behind(output, Units(raw, littleEndian))
         == Behind(output + [UnitOf(raw, littleEndian)], Units(raw[4..], littleEndian))
  {
    var rest := Units(raw[4..], littleEndian);
    if rest.Some? {
      var unit := [UnitOf(raw, littleEndian)];
      assert output + (unit + rest.value) == output + unit + rest.value;
    }
  }

  method DecodeChunk(kind: Kind, carry: seq<Byte>, input: seq<Byte>, isLast: bool)
    returns (r: Option<Text>, carry': seq<Byte>)
    requires !kind.Foreign?
    ensures Decodes(kind, carry, input, isLast, r, carry')
  {
    match kind
    case Utf8Kind => r, carry' := DecodeUtf8Chunk(carry, input, isLast);
    case Utf32(littleEndian) => r, carry' := DecodeUtf32Chunk(carry, input, isLast, littleEndian);
  }

  /**
   Reading a source to its end, whatever the read sizes: the same text as
   decoding all of it at once, or a failure exactly when that fails.
   */
  method DecodeStream(kind: Kind, inputs: seq<seq<Byte>>) returns (text: Option<Text>)
    requires !kind.Foreign?
    ensures text == DecodeWhole(kind, Concat(inputs))
  {
    hide DecodeWhole, Hopeless, CarryOf, TextOf;
    StartFacts(kind);
    var carry: seq<Byte> := [];
    var output: Text := [];
    for n := 0 to |inputs|
      invariant !Hopeless(kind, Concat(inputs[..n]))
      invariant carry == CarryOf(kind, Concat(inputs[..n])) && output == TextOf(kind, Concat(inputs[..n]))
    {
      ghost var seen := Concat(inputs[..n]);
      assert Concat(inputs[..n + 1]) == seen + inputs[n] by { assert inputs[..n + 1][..n] == inputs[..n]; }
      CarryIsEnough(kind, seen, inputs[n]);
      var decoded, left := DecodeChunk(kind, carry, inputs[n], false);
      if decoded.None? {
        ConcatSplits(inputs, n + 1);
        HopelessIsPermanent(kind, Concat(inputs[..n + 1]), Concat(inputs[n + 1..]));
        return None;
      }
      output := output + decoded.value;
      carry := left;
    }
    assert inputs[..|inputs|] == inputs;
    ghost var all := Concat(inputs);
    CarryIsEnough(kind, all, []);
    assert all + [] == all;
    var decoded, left := DecodeChunk(kind, carry, [], true);
    WholeText(kind, all);
    WholeText(kind, CarryOf(kind, all) + []);
    text := if decoded.None? then None else Some(output + decoded.value);
  }

  lemma StartFacts(kind: Kind)
    requires !kind.Foreign?
    ensures !Hopeless(kind, []) && CarryOf(kind, []) == [] && TextOf(kind, []) == [] && Concat([]) == []
  {
  }

  /** A whole decoding is the text of the characters that have ended. */
  lemma WholeText(kind: Kind, b: seq<Byte>)
    requires !kind.Foreign?
    ensures DecodeWhole(kind, b).Some? ==> !Hopeless(kind, b) && DecodeWhole(kind, b).value == TextOf(kind, b)
  {
  }

  lemma {:induction false} ConcatSplits(chunks: seq<seq<Byte>>, n: nat)
    requires n <= |chunks|
    ensures Concat(chunks) == Concat(chunks[..n]) + Concat(chunks[n..])
  {
    var last := |chunks| - 1;
    if n == |chunks| {
      assert chunks[..n] == chunks;
    } else {
      ConcatSplits(chunks[..last], n);
      assert chunks[..last][..n] == chunks[..n];
      assert chunks[n..][..last - n] == chunks[..last][n..];
    }
  }

  // ----- a strong UTF-8 prefix that later stops being UTF-8

  const SEGMENT_MIN_BYTES: nat := 32
  const SEGMENT_MIN_NON_ASCII: nat := 8

  function NonAscii(b: seq<Byte>): (n: nat)
    ensures n <= |b|
  {
    if b == [] then 0 else NonAscii(b[..|b| - 1]) + (if b[|b| - 1] >= 0x80 then 1 else 0)
  }

  /** Enough valid UTF-8, with enough of it outside ASCII, to call the file UTF-8. */
  predicate StrongPrefix(b: seq<Byte>) {
    |b| >= SEGMENT_MIN_BYTES && NonAscii(b) >= SEGMENT_MIN_NON_ASCII
  }

  /** The 1-based hex-dump row where a strong UTF-8 prefix breaks off. */
  function Conflict(b: seq<Byte>): Option<nat> {
    var scan := ScanOf(b);
    if scan.end == Broken && StrongPrefix(b[..scan.valid]) then Some(scan.valid / 16 + 1) else None
  }

  /** A conflict, once found, is the conflict of every continuation. */
  lemma {:induction false} ConflictIsPermanent(b: seq<Byte>, rest: seq<Byte>)
    requires ScanOf(b).end == Broken
    ensures Conflict(b + rest) == Conflict(b) && ScanOf(b + rest).end == Broken
    ensures ScanOf(b + rest).valid == ScanOf(b).valid <= |b|
    ensures (b + rest)[..ScanOf(b).valid] == b[..ScanOf(b).valid]
  {
    ScanOfAppend(b, rest);
    assert (b + rest)[..ScanOf(b).valid] == b[..ScanOf(b).valid];
  }

  lemma {:induction false} NonAsciiOfAppend(a: seq<Byte>, b: seq<Byte>)
    ensures NonAscii(a + b) == NonAscii(a) + NonAscii(b)
  {
    if b == [] {
      assert a + b == a;
    } else {
      assert (a + b)[..|a + b| - 1] == a + b[..|b| - 1];
      NonAsciiOfAppend(a, b[..|b| - 1]);
    }
  }

  /** `Utf8PrefixScanner`. `seen` is everything pushed so far. */
  class Utf8PrefixScanner {
    var absoluteBase: nat
    var validBytes: nat
    var nonAsciiBytes: nat
    var carry: seq<Byte>
    var abandoned: bool
    ghost var seen: seq<Byte>

    /** The evidence counted so far is that of the valid prefix of `seen`. */
    ghost predicate Counted()
      reads this
    {
      validBytes == ScanOf(seen).valid && nonAsciiBytes == NonAscii(seen[..ScanOf(seen).valid])
    }

    /** No conflict has been reported, and the fields describe `seen`. */
    ghost predicate Valid()
      reads this
    {
      var scan := ScanOf(seen);
      && Conflict(seen) == None && Counted()
      && abandoned == (scan.end == Broken)
      && (!abandoned ==> absoluteBase == scan.valid && carry == seen[scan.valid..])
    }

    constructor ()
      ensures Valid() && seen == []
    {
      absoluteBase, validBytes, nonAsciiBytes, carry, abandoned := 0, 0, 0, [], false;
      seen := [];
    }

    method ObserveValid(bytes: seq<Byte>)
      modifies this`validBytes, this`nonAsciiBytes
      ensures validBytes == SaturatingAdd(old(validBytes), |bytes|)
      ensures nonAsciiBytes == SaturatingAdd(old(nonAsciiBytes), NonAscii(bytes))
    {
      validBytes := SaturatingAdd(validBytes, |bytes|);
      nonAsciiBytes := SaturatingAdd(nonAsciiBytes, NonAscii(bytes));
    }

    /** Reports the conflict of everything pushed so far, whatever the chunking. */
    method Push(input: seq<Byte>) returns (r: Option<nat>)
      requires Valid() && |seen| + |input| <= WORD_MAX
      modifies this
      ensures seen == old(seen) + input
      ensures r == Conflict(seen) && Counted()
      ensures r.None? ==> Valid()
    {
      hide ScanOf, NonAscii;
      seen := seen + input;
      if abandoned {
        ConflictIsPermanent(old(seen), input);
        return None;
      }
      PushFacts(old(seen), input);
      var combined := carry + input;
      carry := [];
      var scan := ScanOf(combined);
      ObserveValid(combined[..scan.valid]);
      if scan.end == Broken {
        var conflict := SaturatingAdd(absoluteBase, scan.valid);
        if validBytes >= SEGMENT_MIN_BYTES && nonAsciiBytes >= SEGMENT_MIN_NON_ASCII {
          return Some(conflict / 16 + 1);
        }
        abandoned := true;
        return None;
      }
      absoluteBase := SaturatingAdd(absoluteBase, scan.valid);
      carry := combined[scan.valid..];
      r := None;
    }

    /** At the end of the file, a character cut off behind a strong prefix is a conflict too. */
    method Finish() returns (r: Option<nat>)
      requires Valid() && |seen| <= WORD_MAX
      modifies this
      ensures seen == old(seen) && Counted()
      ensures r == ConflictAtEnd(seen)
    {
      hide NonAscii;
      CutIsUnfinished(seen);
      if abandoned || carry == [] { return None; }
      var rest := ScanOf(carry);
      if rest.end == Clean { return None; }
      assert carry[..rest.valid] == [];
      ObserveValid(carry[..rest.valid]);
      r := if validBytes >= SEGMENT_MIN_BYTES && nonAsciiBytes >= SEGMENT_MIN_NON_ASCII
           then Some((absoluteBase + rest.valid) / 16 + 1) else None;
    }
  }

  /** What the scanner concludes when a file ends after `b` and no conflict was met in it. */
  function ConflictAtEnd(b: seq<Byte>): Option<nat> {
    var scan := ScanOf(b);
    if scan.end == Cut && StrongPrefix(b[..scan.valid]) then Some(scan.valid / 16 + 1) else None
  }

  /** How many bytes lie outside ASCII. */
  lemma {:induction false} NonAsciiIsCardinality(b: seq<Byte>)
    ensures NonAscii(b) == |set k | 0 <= k < |b| && b[k] >= 128|
  {
    var last := |b| - 1;
    var all := set k | 0 <= k < |b| && b[k] >= 128;
    if b == [] {
      assert all == {};
    } else {
      NonAsciiIsCardinality(b[..last]);
      var before := set k | 0 <= k < |b[..last]| && b[..last][k] >= 128;
      assert all == if b[last] >= 128 then before + {last} else before;
    }
  }

  /** At least 32 bytes of UTF-8 text, at least 8 of them outside ASCII. */
  ghost predicate StrongText(text: seq<Scalar>) {
    var b := EncodeAll(text);
    |b| >= 32 && |set k | 0 <= k < |b| && b[k] >= 128| >= 8
  }

  /**
   The conflict is the row behind strong text where something stands that no
   UTF-8 can start with or, at the end of the file, that is only the start of a
   character; without strong text there is none.
   */
  lemma {:induction false} ConflictIs(text: seq<Scalar>, tail: seq<Byte>)
    requires ScanOf(tail).valid == 0
    ensures var b, row := EncodeAll(text) + tail, |EncodeAll(text)| / 16 + 1;
      && Conflict(b) == (if StrongText(text) && ScanOf(tail).end == Broken then Some(row) else None)
      && ConflictAtEnd(b) == (if StrongText(text) && ScanOf(tail).end == Cut then Some(row) else None)
  {
    var b := EncodeAll(text);
    ScanPassesText(text, tail);
    NonAsciiIsCardinality(b);
    assert (b + tail)[..|b|] == b;
    hide ScanOf, NonAscii, EncodeAll;
  }

  /** The bytes behind the valid prefix of cut-off text hold no whole character. */
  lemma {:induction false} CutIsUnfinished(b: seq<Byte>)
    ensures var scan := ScanOf(b);
      && scan.valid <= |b| && (scan.end == Clean <==> b[scan.valid..] == [])
      && (scan.end == Cut ==> ScanOf(b[scan.valid..]) == Scan(0, [], Cut))
    ensures NonAscii([]) == 0
  {
    ScanIsExact(b);
  }

  lemma PushFacts(seen: seq<Byte>, input: seq<Byte>)
    requires ScanOf(seen).end != Broken
    ensures var v, combined, all := ScanOf(seen).valid, seen[ScanOf(seen).valid..] + input, seen + input;
      && ScanOf(all).valid == v + ScanOf(combined).valid && ScanOf(all).end == ScanOf(combined).end
      && NonAscii(all[..ScanOf(all).valid]) == NonAscii(seen[..v]) + NonAscii(combined[..ScanOf(combined).valid])
      && all[ScanOf(all).valid..] == combined[ScanOf(combined).valid..]
  {
    ScanOfAppend(seen, input);
    hide ScanOf;
    var v, all := ScanOf(seen).valid, seen + input;
    var combined := seen[v..] + input;
    var w := ScanOf(combined).valid;
    assert all == seen[..v] + combined;
    assert (seen[..v] + combined)[..v + w] == seen[..v] + combined[..w];
    assert (seen[..v] + combined)[v + w..] == combined[w..];
    NonAsciiOfAppend(seen[..v], combined[..w]);
  }
}

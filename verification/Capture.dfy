/**
 The streaming capture of `file_snapshot.rs`: while a file is read, a
 classifier looks for a proof that no unread byte could make it searchable.
 Legacy decoders and the label table are parameters; of a legacy decoder only
 its sticky "malformed" verdict is used.
 */
module Capture {
  import opened Wrappers
  import opened Utf8
  import opened StreamingDecode

  const PREFLIGHT_BYTES: nat := 8192
  const SNAPSHOT_CHUNK_BYTES: nat := 65536

  /** The encoding library: its labels, and for each decoder when input is malformed for good. */
  datatype Codecs = Codecs(
    kindOf: string -> Option<Kind>,
    bad: (string, seq<Byte>) -> bool,
    decode: (string, seq<Byte>) -> Option<Text>)

  /** A malformed prefix stays malformed, and nothing malformed decodes. */
  ghost predicate Lawful(codecs: Codecs) {
    && (forall name, b, rest :: codecs.bad(name, b) ==> codecs.bad(name, b + rest))
    && (forall name, b :: codecs.bad(name, b) ==> codecs.decode(name, b).None?)
  }

  function Malformed(codecs: Codecs, kind: Kind, b: seq<Byte>): bool {
    if kind.Foreign? then codecs.bad(kind.name, b) else Hopeless(kind, b)
  }

  function DecodeBytes(codecs: Codecs, kind: Kind, b: seq<Byte>): Option<Text> {
    if kind.Foreign? then codecs.decode(kind.name, b) else DecodeWhole(kind, b)
  }

  lemma {:induction false} MalformedIsPermanent(codecs: Codecs, kind: Kind, b: seq<Byte>, rest: seq<Byte>)
    requires Lawful(codecs) && Malformed(codecs, kind, b)
    ensures Malformed(codecs, kind, b + rest) && DecodeBytes(codecs, kind, b + rest).None?
  {
    if !kind.Foreign? { HopelessIsPermanent(kind, b, rest); }
  }

  // ----- byte-order marks

  const BOM_UTF32BE: seq<Byte> := [0x00, 0x00, 0xFE, 0xFF]
  const BOM_UTF32LE: seq<Byte> := [0xFF, 0xFE, 0x00, 0x00]
  const BOM_UTF8: seq<Byte> := [0xEF, 0xBB, 0xBF]
  const BOM_UTF16LE: seq<Byte> := [0xFF, 0xFE]
  const BOM_UTF16BE: seq<Byte> := [0xFE, 0xFF]

  datatype Bom = Bom(kind: Kind, length: nat, encoding: string)

  predicate StartsWith(b: seq<Byte>, prefix: seq<Byte>) {
    |prefix| <= |b| && b[..|prefix|] == prefix
  }

  /** Longer marks first: a UTF-32LE mark also starts with the UTF-16LE one. */
  function BomOf(b: seq<Byte>): Option<Bom> {
    if StartsWith(b, BOM_UTF32BE) then Some(Bom(Utf32(false), 4, "UTF-32BE"))
    else if StartsWith(b, BOM_UTF32LE) then Some(Bom(Utf32(true), 4, "UTF-32LE"))
    else if StartsWith(b, BOM_UTF8) then Some(Bom(Utf8Kind, 3, "UTF-8"))
    else if StartsWith(b, BOM_UTF16LE) then Some(Bom(Foreign("UTF-16LE"), 2, "UTF-16LE"))
    else if StartsWith(b, BOM_UTF16BE) then Some(Bom(Foreign("UTF-16BE"), 2, "UTF-16BE"))
    else None
  }

  /** The mark to strip when the caller names the encoding. */
  function MatchingBom(kind: Kind, b: seq<Byte>): (n: nat)
    ensures n <= |b| && n <= 4
  {
    match kind
    case Utf32(true) => if StartsWith(b, BOM_UTF32LE) then 4 else 0
    case Utf32(false) => if StartsWith(b, BOM_UTF32BE) then 4 else 0
    case Utf8Kind => if StartsWith(b, BOM_UTF8) then 3 else 0
    case Foreign(name) =>
      if name == "UTF-16LE" && StartsWith(b, BOM_UTF16LE) then 2
      else if name == "UTF-16BE" && StartsWith(b, BOM_UTF16BE) then 2
      else 0
  }

  /** Four bytes settle every mark. */
  lemma {:induction false} MarksAreSettled(kind: Kind, b: seq<Byte>, rest: seq<Byte>)
    requires |b| >= 4
    ensures BomOf(b + rest) == BomOf(b) && MatchingBom(kind, b + rest) == MatchingBom(kind, b)
    ensures BomOf(b).Some? ==> BomOf(b).value.length <= 4
    ensures BomOf(b).None? ==> MatchingBom(kind, b) == 0
  {
    PrefixIsSettled(b, rest, BOM_UTF32BE);
    PrefixIsSettled(b, rest, BOM_UTF32LE);
    PrefixIsSettled(b, rest, BOM_UTF8);
    PrefixIsSettled(b, rest, BOM_UTF16LE);
    PrefixIsSettled(b, rest, BOM_UTF16BE);
  }

  lemma PrefixIsSettled(b: seq<Byte>, rest: seq<Byte>, prefix: seq<Byte>)
    requires |prefix| <= |b|
    ensures StartsWith(b + rest, prefix) == StartsWith(b, prefix)
  {
    assert (b + rest)[..|prefix|] == b[..|prefix|];
  }

  // ----- binary signatures

  /** `detect_binary_type`: a known signature at the start, or a tar header. */
  predicate HasBinaryMagic(b: seq<Byte>) {
    || StartsWith(b, [0x50, 0x4B, 0x03, 0x04])
    || StartsWith(b, [0x1F, 0x8B])
    || StartsWith(b, [0x37, 0x7A, 0xBC, 0xAF, 0x27, 0x1C])
    || StartsWith(b, [0x28, 0xB5, 0x2F, 0xFD])
    || StartsWith(b, [0x7F, 0x45, 0x4C, 0x46])
    || StartsWith(b, [0x4D, 0x5A])
    || StartsWith(b, [0xFE, 0xED, 0xFA, 0xCE])
    || StartsWith(b, [0xFE, 0xED, 0xFA, 0xCF])
    || StartsWith(b, [0xCE, 0xFA, 0xED, 0xFE])
    || StartsWith(b, [0xCF, 0xFA, 0xED, 0xFE])
    || StartsWith(b, [0x53, 0x51, 0x4C, 0x69, 0x74, 0x65, 0x20, 0x66, 0x6F, 0x72, 0x6D, 0x61, 0x74, 0x20, 0x33, 0x00])
    || StartsWith(b, [0x00, 0x61, 0x73, 0x6D])
    || (|b| >= 262 && b[257..262] == [0x75, 0x73, 0x74, 0x61, 0x72])
  }

  // ----- the verdict as a function of the bytes

  datatype Fallback = Absent | PermanentlyMalformed

  datatype TerminalProof =
    | NulWithinFrozenProbe
    | BinaryMagicAfterUtf8Failure
    | ExplicitDecoderMalformed(encoding: string)
    | BomDecoderMalformed(encoding: string)
    | AutomaticRejected(conflictHexOffset: nat, fallback: Fallback)

  datatype Options = Options(explicit: Option<string>, fallback: Option<string>)

  function ProbeOf(b: seq<Byte>): seq<Byte> {
    b[..Min(|b|, PREFLIGHT_BYTES)]
  }

  predicate Settled(b: seq<Byte>) {
    |b| >= PREFLIGHT_BYTES
  }

  function BomVerdict(codecs: Codecs, bom: Bom, b: seq<Byte>): Option<TerminalProof>
    requires bom.length <= |b|
  {
    if bom.kind.Utf8Kind? && 0 in ProbeOf(b) then Some(NulWithinFrozenProbe)
    else if Malformed(codecs, bom.kind, b[bom.length..]) && (!bom.kind.Utf8Kind? || Settled(b)) then
      Some(BomDecoderMalformed(bom.encoding))
    else None
  }

  function AutomaticVerdict(codecs: Codecs, fallback: Option<Kind>, b: seq<Byte>): Option<TerminalProof> {
    if 0 in ProbeOf(b) then Some(NulWithinFrozenProbe)
    else if !Settled(b) then None
    else if Malformed(codecs, Utf8Kind, b) && HasBinaryMagic(ProbeOf(b)) then Some(BinaryMagicAfterUtf8Failure)
    else
      match Conflict(b)
      case None => None
      case Some(offset) =>
        match fallback
        case None => Some(AutomaticRejected(offset, Absent))
        case Some(kind) =>
          if Malformed(codecs, kind, b) then Some(AutomaticRejected(offset, PermanentlyMalformed)) else None
  }

  function ExplicitVerdict(codecs: Codecs, tag: string, b: seq<Byte>): Result<Option<TerminalProof>, string> {
    match codecs.kindOf(tag)
    case None => Err(tag)
    case Some(kind) =>
      if Malformed(codecs, kind, b[MatchingBom(kind, b)..]) then Ok(Some(ExplicitDecoderMalformed(tag)))
      else Ok(None)
  }

  /** What a capture that has read exactly `b` concludes; an error names a label that is not an encoding. */
  function Verdict(codecs: Codecs, options: Options, b: seq<Byte>): Result<Option<TerminalProof>, string> {
    if |b| < 4 then Ok(None)
    else
      match options.explicit
      case Some(tag) => ExplicitVerdict(codecs, tag, b)
      case None =>
        match BomOf(b)
        case Some(bom) => Ok(BomVerdict(codecs, bom, b))
        case None =>
          match options.fallback
          case None => Ok(AutomaticVerdict(codecs, None, b))
          case Some(tag) =>
            match codecs.kindOf(tag)
            case None => Err(tag)
            case Some(kind) => Ok(AutomaticVerdict(codecs, Some(kind), b))
  }

  // ----- a verdict is final

  lemma ProbeIsFrozen(b: seq<Byte>, rest: seq<Byte>)
    ensures 0 in ProbeOf(b) ==> 0 in ProbeOf(b + rest)
    ensures Settled(b) ==> ProbeOf(b + rest) == ProbeOf(b)
  {
    if Settled(b) {
      assert (b + rest)[..PREFLIGHT_BYTES] == b[..PREFLIGHT_BYTES];
    } else {
      assert ProbeOf(b) == b;
      assert forall k :: 0 <= k < |b| ==> ProbeOf(b + rest)[k] == b[k];
    }
  }

  lemma ConflictIsMalformed(codecs: Codecs, b: seq<Byte>)
    ensures Conflict(b).Some? ==> Malformed(codecs, Utf8Kind, b) && ScanOf(b).end == Broken
  {
  }

  lemma {:induction false} BomVerdictIsFinal(codecs: Codecs, bom: Bom, b: seq<Byte>, rest: seq<Byte>)
    requires Lawful(codecs) && bom.length <= |b| && BomVerdict(codecs, bom, b).Some?
    ensures BomVerdict(codecs, bom, b + rest) == BomVerdict(codecs, bom, b)
  {
    hide Lawful;
    ProbeIsFrozen(b, rest);
    assert (b + rest)[bom.length..] == b[bom.length..] + rest;
    if Malformed(codecs, bom.kind, b[bom.length..]) {
      MalformedIsPermanent(codecs, bom.kind, b[bom.length..], rest);
    }
  }

  lemma {:induction false} AutomaticVerdictIsFinal(
    codecs: Codecs, fallback: Option<Kind>, b: seq<Byte>, rest: seq<Byte>)
    requires Lawful(codecs) && AutomaticVerdict(codecs, fallback, b).Some?
    ensures AutomaticVerdict(codecs, fallback, b + rest) == AutomaticVerdict(codecs, fallback, b)
  {
    hide Lawful;
    ProbeIsFrozen(b, rest);
    ConflictIsMalformed(codecs, b);
    if Conflict(b).Some? { ConflictIsPermanent(b, rest); }
    if Malformed(codecs, Utf8Kind, b) { MalformedIsPermanent(codecs, Utf8Kind, b, rest); }
    if fallback.Some? && Malformed(codecs, fallback.value, b) {
      MalformedIsPermanent(codecs, fallback.value, b, rest);
    }
    hide HasBinaryMagic, Malformed, Conflict;
  }

  /** No unread suffix can overturn a proof, or an unknown tag, once it is found. */
  lemma {:induction false} VerdictIsFinal(codecs: Codecs, options: Options, b: seq<Byte>, rest: seq<Byte>)
    requires Lawful(codecs) && Verdict(codecs, options, b) != Ok(None)
    ensures Verdict(codecs, options, b + rest) == Verdict(codecs, options, b)
  {
    hide Lawful, BomVerdict, AutomaticVerdict, BomOf, MatchingBom, Malformed;
    MarksAreSettled(Utf8Kind, b, rest);
    match options.explicit
    case Some(tag) =>
      if codecs.kindOf(tag).Some? {
        var kind := codecs.kindOf(tag).value;
        MarksAreSettled(kind, b, rest);
        var n := MatchingBom(kind, b);
        assert (b + rest)[n..] == b[n..] + rest;
        MalformedIsPermanent(codecs, kind, b[n..], rest);
      }
    case None =>
      match BomOf(b)
      case Some(bom) => BomVerdictIsFinal(codecs, bom, b, rest);
      case None =>
        match options.fallback
        case None => AutomaticVerdictIsFinal(codecs, None, b, rest);
        case Some(tag) =>
          if codecs.kindOf(tag).Some? { AutomaticVerdictIsFinal(codecs, codecs.kindOf(tag), b, rest); }
  }

  /** A rejection is right: whatever the rest of the file holds, the rejected decoders fail on it. */
  lemma {:induction false} RejectionIsSound(codecs: Codecs, options: Options, b: seq<Byte>, rest: seq<Byte>)
    requires Lawful(codecs) && Verdict(codecs, options, b).Ok? && Verdict(codecs, options, b).value.Some?
    ensures match Verdict(codecs, options, b).value.value
            case NulWithinFrozenProbe => 0 in ProbeOf(b) && ProbeOf(b) <= ProbeOf(b + rest)
            case BinaryMagicAfterUtf8Failure =>
              HasBinaryMagic(ProbeOf(b)) && DecodeBytes(codecs, Utf8Kind, b + rest).None?
            case ExplicitDecoderMalformed(tag) =>
              && codecs.kindOf(tag).Some?
              && DecodeBytes(codecs, codecs.kindOf(tag).value, (b + rest)[MatchingBom(codecs.kindOf(tag).value, b)..]).None?
            case BomDecoderMalformed(_) =>
              BomOf(b).Some? && BomOf(b).value.length <= |b + rest| &&
              DecodeBytes(codecs, BomOf(b).value.kind, (b + rest)[BomOf(b).value.length..]).None?
            case AutomaticRejected(_, fallback) =>
              && DecodeBytes(codecs, Utf8Kind, b + rest).None?
              && (fallback.PermanentlyMalformed? ==>
                    && options.fallback.Some? && codecs.kindOf(options.fallback.value).Some?
                    && DecodeBytes(codecs, codecs.kindOf(options.fallback.value).value, b + rest).None?)
  {
    hide Lawful, BomOf, MatchingBom, Malformed, DecodeBytes, HasBinaryMagic, Conflict;
    MarksAreSettled(Utf8Kind, b, rest);
    ConflictIsMalformed(codecs, b);
    if Malformed(codecs, Utf8Kind, b) { MalformedIsPermanent(codecs, Utf8Kind, b, rest); }
    match options.explicit
    case Some(tag) =>
      var kind := codecs.kindOf(tag).value;
      MalformedAfterBom(codecs, kind, b, rest, MatchingBom(kind, b));
    case None =>
      match BomOf(b)
      case Some(bom) => MalformedAfterBom(codecs, bom.kind, b, rest, bom.length);
      case None =>
        if options.fallback.Some? && codecs.kindOf(options.fallback.value).Some? {
          MalformedAfterBom(codecs, codecs.kindOf(options.fallback.value).value, b, rest, 0);
          assert b[0..] == b && (b + rest)[0..] == b + rest;
        }
  }

  lemma MalformedAfterBom(codecs: Codecs, kind: Kind, b: seq<Byte>, rest: seq<Byte>, n: nat)
    requires Lawful(codecs) && n <= |b|
    ensures Malformed(codecs, kind, b[n..]) ==> DecodeBytes(codecs, kind, (b + rest)[n..]).None?
  {
    assert (b + rest)[n..] == b[n..] + rest;
    if Malformed(codecs, kind, b[n..]) { MalformedIsPermanent(codecs, kind, b[n..], rest); }
  }

  // ----- the strict validators

  /**
   `StrictStreamingValidator`: a chunk decoder whose output is thrown away.
   `carry` is the unfinished character; for a foreign decoder it stands for
   the state after the bytes fed so far.
   */
  datatype Validator = Validator(kind: Kind, carry: seq<Byte>, malformed: bool)

  /** The validator's state after it was fed exactly `fed`. */
  ghost predicate Validated(codecs: Codecs, v: Validator, kind: Kind, fed: seq<Byte>) {
    && v.kind == kind
    && v.malformed == Malformed(codecs, kind, fed)
    && (!v.malformed ==> v.carry == if kind.Foreign? then fed else CarryOf(kind, fed))
  }

  method FeedValidator(codecs: Codecs, v: Validator, input: seq<Byte>, ghost fed: seq<Byte>) returns (v': Validator)
    requires Lawful(codecs) && Validated(codecs, v, v.kind, fed)
    ensures Validated(codecs, v', v.kind, fed + input)
  {
    if v.malformed {
      MalformedIsPermanent(codecs, v.kind, fed, input);
      return v;
    }
    if v.kind.Foreign? {
      var all := v.carry + input;
      return v.(carry := all, malformed := codecs.bad(v.kind.name, all));
    }
    CarryIsEnough(v.kind, fed, input);
    var decoded, left := DecodeChunk(v.kind, v.carry, input, false);
    v' := Validator(v.kind, left, decoded.None?);
  }

  /** A validator started on nothing is valid; a decoder that refuses the empty input refuses everything. */
  method StartValidator(codecs: Codecs, kind: Kind, input: seq<Byte>) returns (v: Validator)
    requires Lawful(codecs)
    ensures Validated(codecs, v, kind, input)
  {
    hide *;
    if kind.Foreign? {
      v := Validator(kind, input, codecs.bad(kind.name, input));
      ForeignIsValidated(codecs, kind, input);
    } else {
      NewIsValidated(codecs, kind);
      assert [] + input == input;
      v := FeedValidator(codecs, Validator(kind, [], false), input, []);
    }
  }

  lemma ForeignIsValidated(codecs: Codecs, kind: Kind, input: seq<Byte>)
    requires kind.Foreign?
    ensures Validated(codecs, Validator(kind, input, codecs.bad(kind.name, input)), kind, input)
  {
  }

  lemma NewIsValidated(codecs: Codecs, kind: Kind)
    requires !kind.Foreign?
    ensures Validated(codecs, Validator(kind, [], false), kind, [])
  {
    hide Hopeless, CarryOf, TextOf;
    StartFacts(kind);
  }

  // ----- the classifier

  datatype Mode =
    | Explicit(encoding: string, decoder: Validator)
    | Marked(encoding: string, decoder: Validator)
    | Automatic(utf8: Validator, conflict: Option<nat>, fallback: Option<Validator>)

  /** What the mode must hold after exactly `b` was read. */
  ghost predicate ModeIs(codecs: Codecs, options: Options, mode: Mode, b: seq<Byte>) {
    |b| >= 4 &&
    match mode
    case Explicit(encoding, decoder) =>
      && options.explicit == Some(encoding) && codecs.kindOf(encoding) == Some(decoder.kind)
      && Validated(codecs, decoder, decoder.kind, b[MatchingBom(decoder.kind, b)..])
    case Marked(encoding, decoder) =>
      && options.explicit.None? && BomOf(b).Some? && BomOf(b).value.length <= |b|
      && encoding == BomOf(b).value.encoding
      && Validated(codecs, decoder, BomOf(b).value.kind, b[BomOf(b).value.length..])
    case Automatic(utf8, conflict, fallback) =>
      && options.explicit.None? && BomOf(b).None?
      && Validated(codecs, utf8, Utf8Kind, b)
      && conflict == Conflict(b)
      && (match options.fallback
          case None => fallback.None?
          case Some(tag) =>
            fallback.Some? && codecs.kindOf(tag) == Some(fallback.value.kind)
            && Validated(codecs, fallback.value, fallback.value.kind, b))
  }

  /** The proof a mode establishes; reads nothing but the probe and the flags. */
  function ProofOf(mode: Mode, probe: seq<Byte>): Option<TerminalProof> {
    match mode
    case Explicit(encoding, decoder) =>
      if decoder.malformed then Some(ExplicitDecoderMalformed(encoding)) else None
    case Marked(encoding, decoder) =>
      if decoder.kind.Utf8Kind? && 0 in probe then Some(NulWithinFrozenProbe)
      else if decoder.malformed && (!decoder.kind.Utf8Kind? || |probe| == PREFLIGHT_BYTES) then
        Some(BomDecoderMalformed(encoding))
      else None
    case Automatic(utf8, conflict, fallback) =>
      if 0 in probe then Some(NulWithinFrozenProbe)
      else if |probe| != PREFLIGHT_BYTES then None
      else if utf8.malformed && HasBinaryMagic(probe) then Some(BinaryMagicAfterUtf8Failure)
      else if conflict.None? then None
      else if fallback.None? then Some(AutomaticRejected(conflict.value, Absent))
      else if fallback.value.malformed then Some(AutomaticRejected(conflict.value, PermanentlyMalformed))
      else None
  }

  lemma ProofIsVerdict(codecs: Codecs, options: Options, mode: Mode, b: seq<Byte>)
    requires ModeIs(codecs, options, mode, b)
    ensures Verdict(codecs, options, b) == Ok(ProofOf(mode, ProbeOf(b)))
  {
    hide Malformed, HasBinaryMagic, Conflict, BomOf, MatchingBom;
  }

  class CaptureClassifier {
    const codecs: Codecs
    const options: Options
    const scanner: Utf8PrefixScanner
    var probe: seq<Byte>
    var mode: Option<Mode>
    /** Every byte fed so far. */
    ghost var seen: seq<Byte>

    ghost predicate Valid()
      reads this, scanner
    {
      && Lawful(codecs)
      && probe == ProbeOf(seen)
      && (match mode
          case None => |seen| < 4 && scanner.Valid() && scanner.seen == []
          case Some(m) =>
            ModeIs(codecs, options, m, seen) &&
            (m.Automatic? && m.conflict.None? ==> scanner.Valid() && scanner.seen == seen))
    }

    constructor (codecs: Codecs, options: Options)
      requires Lawful(codecs)
      ensures Valid() && seen == [] && this.codecs == codecs && this.options == options && fresh(scanner)
    {
      this.codecs, this.options := codecs, options;
      probe, mode := [], None;
      scanner := new Utf8PrefixScanner();
      seen := [];
    }

    /** The answer is that of all bytes fed so far, however they were divided. */
    method Feed(bytes: seq<Byte>) returns (r: Result<Option<TerminalProof>, string>)
      requires Valid() && |seen| + |bytes| <= WORD_MAX
      requires mode.None? ==> |seen| + |bytes| <= PREFLIGHT_BYTES
      modifies this, scanner
      ensures seen == old(seen) + bytes
      ensures r == Verdict(codecs, options, seen)
      ensures r.Ok? ==> Valid()
    {
      hide Lawful, ModeIs, Verdict;
      ProbeGrows(seen, bytes, probe);
      probe := probe + bytes[..Min(|bytes|, SaturatingSub(PREFLIGHT_BYTES, |probe|))];
      seen := seen + bytes;
      if mode.None? {
        assert probe == seen;
        if |probe| < 4 {
          VerdictOfShort(codecs, options, seen);
          return Ok(None);
        }
        var _ :- Initialize();
      } else {
        FeedInitialized(bytes);
      }
      ProofIsVerdict(codecs, options, mode.value, seen);
      r := Ok(TerminalProofNow());
    }

    /** The proof of the current state, if there is one. */
    function TerminalProofNow(): Option<TerminalProof>
      reads this
    {
      match mode
      case None => None
      case Some(m) => ProofOf(m, probe)
    }

    /** An incomplete final character is no proof: more bytes could have completed it. */
    method FinishEof() returns (proof: Option<TerminalProof>)
      requires Valid()
      ensures Verdict(codecs, options, seen) == Ok(proof)
    {
      if mode.None? { VerdictOfShort(codecs, options, seen); } else { ProofIsVerdict(codecs, options, mode.value, seen); }
      hide Verdict, ModeIs;
      proof := TerminalProofNow();
    }

    method Initialize() returns (r: Result<(), string>)
      requires Lawful(codecs) && mode.None? && probe == seen && |seen| >= 4 && |seen| <= PREFLIGHT_BYTES
      requires scanner.Valid() && scanner.seen == []
      modifies this`mode, scanner
      ensures r.Ok? ==> mode.Some? && ModeIs(codecs, options, mode.value, seen)
      ensures r.Ok? && mode.value.Automatic? && mode.value.conflict.None? ==> scanner.Valid() && scanner.seen == seen
      ensures r.Err? ==> Verdict(codecs, options, seen) == Err(r.error)
    {
      hide Lawful, Validated, Malformed, Conflict, BomOf, MatchingBom;
      MarksAreSettled(Utf8Kind, seen, []);
      if options.explicit.Some? {
        var tag := options.explicit.value;
        var kind := codecs.kindOf(tag);
        if kind.None? { return Err(tag); }
        var decoder := StartValidator(codecs, kind.value, probe[MatchingBom(kind.value, probe)..]);
        ValidatedKind(codecs, decoder, kind.value, probe[MatchingBom(kind.value, probe)..]);
        mode := Some(Explicit(tag, decoder));
        return Ok(());
      }
      var mark := BomOf(probe);
      if mark.Some? {
        var decoder := StartValidator(codecs, mark.value.kind, probe[mark.value.length..]);
        mode := Some(Marked(mark.value.encoding, decoder));
        return Ok(());
      }
      var utf8 := StartValidator(codecs, Utf8Kind, probe);
      assert [] + probe == probe;
      var conflict := scanner.Push(probe);
      var fallback: Option<Validator> := None;
      if options.fallback.Some? {
        var kind := codecs.kindOf(options.fallback.value);
        if kind.None? { return Err(options.fallback.value); }
        var started := StartValidator(codecs, kind.value, probe);
        ValidatedKind(codecs, started, kind.value, probe);
        fallback := Some(started);
      }
      mode := Some(Automatic(utf8, conflict, fallback));
      r := Ok(());
    }

    method FeedInitialized(bytes: seq<Byte>)
      requires Lawful(codecs) && mode.Some? && |bytes| <= |seen| <= WORD_MAX
      requires bytes == seen[|seen| - |bytes|..]
      requires ModeIs(codecs, options, mode.value, seen[..|seen| - |bytes|])
      requires mode.value.Automatic? && mode.value.conflict.None? ==>
                 scanner.Valid() && scanner.seen == seen[..|seen| - |bytes|]
      modifies this`mode, scanner
      ensures mode.Some? && ModeIs(codecs, options, mode.value, seen)
      ensures mode.value.Automatic? && mode.value.conflict.None? ==> scanner.Valid() && scanner.seen == seen
    {
      hide Lawful, Validated, Malformed, Conflict, BomOf, MatchingBom;
      ghost var before := seen[..|seen| - |bytes|];
      assert seen == before + bytes;
      MarksAreSettled(Utf8Kind, before, bytes);
      match mode.value {
        case Explicit(encoding, decoder) =>
          MarksAreSettled(decoder.kind, before, bytes);
          ghost var n := MatchingBom(decoder.kind, before);
          assert (before + bytes)[n..] == before[n..] + bytes;
          var fed := FeedValidator(codecs, decoder, bytes, before[n..]);
          ValidatedKind(codecs, fed, decoder.kind, seen[n..]);
          mode := Some(Explicit(encoding, fed));
        case Marked(encoding, decoder) =>
          ghost var n := BomOf(before).value.length;
          assert (before + bytes)[n..] == before[n..] + bytes;
          ValidatedKind(codecs, decoder, BomOf(before).value.kind, before[n..]);
          var fed := FeedValidator(codecs, decoder, bytes, before[n..]);
          mode := Some(Marked(encoding, fed));
        case Automatic(utf8, conflict, fallback) =>
          ValidatedKind(codecs, utf8, Utf8Kind, before);
          var utf8' := FeedValidator(codecs, utf8, bytes, before);
          var conflict' := conflict;
          if conflict.None? {
            conflict' := scanner.Push(bytes);
          } else {
            ConflictIsMalformed(codecs, before);
            ConflictIsPermanent(before, bytes);
          }
          var fallback' := fallback;
          if fallback.Some? {
            var fed := FeedValidator(codecs, fallback.value, bytes, before);
            ValidatedKind(codecs, fed, fallback.value.kind, seen);
            fallback' := Some(fed);
          }
          mode := Some(Automatic(utf8', conflict', fallback'));
      }
    }
  }

  lemma ValidatedKind(codecs: Codecs, v: Validator, kind: Kind, fed: seq<Byte>)
    requires Validated(codecs, v, kind, fed)
    ensures v.kind == kind
  {
  }

  lemma ProbeGrows(seen: seq<Byte>, bytes: seq<Byte>, probe: seq<Byte>)
    requires probe == ProbeOf(seen)
    ensures ProbeOf(seen + bytes) == probe + bytes[..Min(|bytes|, SaturatingSub(PREFLIGHT_BYTES, |probe|))]
    ensures |seen + bytes| <= PREFLIGHT_BYTES ==> ProbeOf(seen + bytes) == seen + bytes
  {
  }

  lemma VerdictOfShort(codecs: Codecs, options: Options, b: seq<Byte>)
    requires |b| < 4
    ensures Verdict(codecs, options, b) == Ok(None)
  {
  }

  // ----- the reader loop

  datatype CaptureRead = Terminal(proof: TerminalProof) | Complete(bytes: seq<Byte>)

  /** What a capture of a file with these bytes returns. */
  function CaptureOf(codecs: Codecs, options: Options, data: seq<Byte>): Result<CaptureRead, string> {
    match Verdict(codecs, options, data)
    case Err(tag) => Err(tag)
    case Ok(Some(proof)) => Ok(Terminal(proof))
    case Ok(None) => Ok(CaptureRead.Complete(data))
  }

  // ----- what is rejected, said of the bytes

  /** A NUL stands in the first 8192 bytes. */
  predicate EarlyNul(data: seq<Byte>) {
    exists k :: 0 <= k < |data| && k < 8192 && data[k] == 0
  }

  /** The first bytes are none of the five marks. */
  predicate Unmarked(data: seq<Byte>) {
    && !(|data| >= 4 && data[..4] == [0x00, 0x00, 0xFE, 0xFF])
    && !(|data| >= 3 && data[..3] == [0xEF, 0xBB, 0xBF])
    && !(|data| >= 2 && (data[..2] == [0xFF, 0xFE] || data[..2] == [0xFE, 0xFF]))
  }

  /** An executable, an archive, a database, a module: a known signature at the start of the file. */
  predicate Signed(data: seq<Byte>) {
    || (|data| >= 2 && data[..2] in [[0x1F, 0x8B], [0x4D, 0x5A]])
    || (|data| >= 4
        && data[..4] in [[0x50, 0x4B, 0x03, 0x04], [0x28, 0xB5, 0x2F, 0xFD], [0x7F, 0x45, 0x4C, 0x46], [0x00, 0x61, 0x73, 0x6D],
                         [0xFE, 0xED, 0xFA, 0xCE], [0xFE, 0xED, 0xFA, 0xCF], [0xCE, 0xFA, 0xED, 0xFE], [0xCF, 0xFA, 0xED, 0xFE]])
    || (|data| >= 6 && data[..6] == [0x37, 0x7A, 0xBC, 0xAF, 0x27, 0x1C])
    || (|data| >= 16 && data[..16] == [83, 81, 76, 105, 116, 101, 32, 102, 111, 114, 109, 97, 116, 32, 51, 0])
    || (|data| >= 262 && data[257..262] == [117, 115, 116, 97, 114])
  }

  /** UTF-8 text of at least 32 bytes, 8 of them not ASCII, and then a byte that cannot go on. */
  predicate BreaksOff(data: seq<Byte>) {
    && ScanOf(data).end == Broken
    && ScanOf(data).valid >= 32 && NonAscii(data[..ScanOf(data).valid]) >= 8
  }

  lemma EarlyNulIsProbed(data: seq<Byte>)
    ensures EarlyNul(data) <==> 0 in ProbeOf(data)
  {
    var probe := ProbeOf(data);
    assert forall k :: 0 <= k < |probe| ==> probe[k] == data[k];
    if EarlyNul(data) {
      var k :| 0 <= k < |data| && k < 8192 && data[k] == 0;
      assert probe[k] == 0;
    }
  }

  lemma SignedIsMagic(data: seq<Byte>)
    requires |data| >= 8192
    ensures Signed(data) <==> HasBinaryMagic(ProbeOf(data))
  {
    var probe := ProbeOf(data);
    assert probe[..2] == data[..2] && probe[..4] == data[..4] && probe[..6] == data[..6] && probe[..16] == data[..16];
    assert probe[257..262] == data[257..262];
  }

  lemma UnmarkedHasNoBom(data: seq<Byte>)
    requires |data| >= 4
    ensures Unmarked(data) <==> BomOf(data).None?
  {
    assert data[..4][..2] == data[..2];
  }

  lemma AutomaticProof(codecs: Codecs, fallback: Option<Kind>, data: seq<Byte>)
    ensures var r := AutomaticVerdict(codecs, fallback, data);
      var magic := |data| >= 8192 && ScanOf(data).end == Broken && Signed(data);
      var conflict := |data| >= 8192 && BreaksOff(data);
      var offset := ScanOf(data).valid / 16 + 1;
      var fallbackFails := fallback.Some? && Malformed(codecs, fallback.value, data);
      r == if EarlyNul(data) then Some(NulWithinFrozenProbe)
           else if magic then Some(BinaryMagicAfterUtf8Failure)
           else if conflict && fallback.None? then Some(AutomaticRejected(offset, Absent))
           else if conflict && fallbackFails then Some(AutomaticRejected(offset, PermanentlyMalformed))
           else None
  {
    hide EarlyNul, Signed, ProbeOf, HasBinaryMagic, ScanOf, Malformed, Conflict, BreaksOff;
    EarlyNulIsProbed(data);
    if |data| >= 8192 { SignedIsMagic(data); }
    BrokenUtf8(codecs, data);
  }

  lemma BrokenUtf8(codecs: Codecs, data: seq<Byte>)
    ensures Malformed(codecs, Utf8Kind, data) <==> ScanOf(data).end == Broken
    ensures Conflict(data) == if BreaksOff(data) then Some(ScanOf(data).valid / 16 + 1) else None
  {
    hide ScanOf, NonAscii;
  }

  /**
   Automatic mode, for a file without mark and with a known or no fallback: which
   files are rejected, for which reason, and that every other file is captured.
   */
  lemma {:induction false} AutomaticCapture(codecs: Codecs, options: Options, data: seq<Byte>)
    requires |data| >= 4 && options.explicit.None? && Unmarked(data)
    requires options.fallback.Some? ==> codecs.kindOf(options.fallback.value).Some?
    ensures var r := CaptureOf(codecs, options, data);
      var magic := |data| >= 8192 && ScanOf(data).end == Broken && Signed(data);
      var conflict := |data| >= 8192 && BreaksOff(data);
      var offset := ScanOf(data).valid / 16 + 1;
      var fallbackFails := options.fallback.Some? && Malformed(codecs, codecs.kindOf(options.fallback.value).value, data);
      && (r == Ok(Terminal(NulWithinFrozenProbe)) <==> EarlyNul(data))
      && (r == Ok(Terminal(BinaryMagicAfterUtf8Failure)) <==> !EarlyNul(data) && magic)
      && (r == Ok(Terminal(AutomaticRejected(offset, Absent))) <==>
            !EarlyNul(data) && !magic && conflict && options.fallback.None?)
      && (r == Ok(Terminal(AutomaticRejected(offset, PermanentlyMalformed))) <==>
            !EarlyNul(data) && !magic && conflict && fallbackFails)
      && (r == Ok(CaptureRead.Complete(data)) <==>
            !EarlyNul(data) && !magic && !(conflict && (options.fallback.None? || fallbackFails)))
  {
    UnmarkedHasNoBom(data);
    AutomaticProof(codecs, if options.fallback.None? then None else codecs.kindOf(options.fallback.value), data);
    hide EarlyNul, Unmarked, Signed, BreaksOff, BomOf, ScanOf, AutomaticVerdict, Malformed;
  }

  /** A file that starts with a mark, by the mark: a NUL rules out UTF-8, bytes that cannot be decoded behind it rule out the rest. */
  lemma {:induction false} MarkedCapture(codecs: Codecs, options: Options, data: seq<Byte>)
    requires |data| >= 4 && options.explicit.None? && !Unmarked(data)
    ensures var r := CaptureOf(codecs, options, data);
      && (data[..3] == [0xEF, 0xBB, 0xBF] ==>
            && (r == Ok(Terminal(NulWithinFrozenProbe)) <==> EarlyNul(data))
            && (r == Ok(Terminal(BomDecoderMalformed("UTF-8"))) <==>
                  !EarlyNul(data) && |data| >= 8192 && ScanOf(data[3..]).end == Broken)
            && (r == Ok(CaptureRead.Complete(data)) <==>
                  !EarlyNul(data) && !(|data| >= 8192 && ScanOf(data[3..]).end == Broken)))
      && (data[..4] == [0x00, 0x00, 0xFE, 0xFF] ==> Decides(r, data, Hopeless(Utf32(false), data[4..]), "UTF-32BE"))
      && (data[..4] == [0xFF, 0xFE, 0x00, 0x00] ==> Decides(r, data, Hopeless(Utf32(true), data[4..]), "UTF-32LE"))
      && (data[..2] == [0xFF, 0xFE] && data[..4] != [0xFF, 0xFE, 0x00, 0x00] ==>
            Decides(r, data, codecs.bad("UTF-16LE", data[2..]), "UTF-16LE"))
      && (data[..2] == [0xFE, 0xFF] ==> Decides(r, data, codecs.bad("UTF-16BE", data[2..]), "UTF-16BE"))
  {
    EarlyNulIsProbed(data);
    MarkIs(data);
    hide EarlyNul, Unmarked, ProbeOf, BomOf, ScanOf;
    VerdictOfMarked(codecs, options, data);
    hide Verdict;
  }

  lemma VerdictOfMarked(codecs: Codecs, options: Options, data: seq<Byte>)
    requires |data| >= 4 && options.explicit.None? && BomOf(data).Some? && BomOf(data).value.length <= |data|
    ensures Verdict(codecs, options, data) == Ok(BomVerdict(codecs, BomOf(data).value, data))
  {
  }

  /** A decoder whose mark was found decides alone. */
  predicate Decides(r: Result<CaptureRead, string>, data: seq<Byte>, malformed: bool, encoding: string) {
    r == if malformed then Ok(Terminal(BomDecoderMalformed(encoding))) else Ok(CaptureRead.Complete(data))
  }

  lemma MarkIs(data: seq<Byte>)
    requires |data| >= 4 && !Unmarked(data)
    ensures BomOf(data).Some?
    ensures data[..4] == [0x00, 0x00, 0xFE, 0xFF] ==> BomOf(data).value == Bom(Utf32(false), 4, "UTF-32BE")
    ensures data[..4] == [0xFF, 0xFE, 0x00, 0x00] ==> BomOf(data).value == Bom(Utf32(true), 4, "UTF-32LE")
    ensures data[..3] == [0xEF, 0xBB, 0xBF] ==> BomOf(data).value == Bom(Utf8Kind, 3, "UTF-8")
    ensures data[..2] == [0xFF, 0xFE] && data[..4] != [0xFF, 0xFE, 0x00, 0x00] ==>
              BomOf(data).value == Bom(Foreign("UTF-16LE"), 2, "UTF-16LE")
    ensures data[..2] == [0xFE, 0xFF] ==> BomOf(data).value == Bom(Foreign("UTF-16BE"), 2, "UTF-16BE")
  {
    assert data[..4][..2] == data[..2] && data[..3][..2] == data[..2] && data[..4][..3] == data[..3];
    assert data[..4][0] == data[0] && data[..3][0] == data[0] && data[..2][0] == data[0];
    assert data[..4][1] == data[1] && data[..3][1] == data[1] && data[..2][1] == data[1];
  }

  /** A named encoding decides alone, behind its own mark if the file starts with it. */
  lemma {:induction false} ExplicitCapture(codecs: Codecs, options: Options, data: seq<Byte>)
    requires |data| >= 4 && options.explicit.Some?
    ensures var r, tag := CaptureOf(codecs, options, data), options.explicit.value;
      && (codecs.kindOf(tag).None? ==> r == Err(tag))
      && (codecs.kindOf(tag).Some? ==>
            var kind := codecs.kindOf(tag).value;
            r == if Malformed(codecs, kind, data[OwnMark(kind, data)..]) then Ok(Terminal(ExplicitDecoderMalformed(tag)))
                 else Ok(CaptureRead.Complete(data)))
  {
    if codecs.kindOf(options.explicit.value).Some? { OwnMarkIsStripped(codecs.kindOf(options.explicit.value).value, data); }
    hide OwnMark, MatchingBom;
  }

  /** The length of the mark of this encoding, if the file starts with it. */
  function OwnMark(kind: Kind, data: seq<Byte>): (n: nat)
    requires |data| >= 4
    ensures n <= |data|
  {
    if kind == Utf8Kind && data[..3] == [239, 187, 191] then 3
    else if kind == Utf32(true) && data[..4] == [255, 254, 0, 0] then 4
    else if kind == Utf32(false) && data[..4] == [0, 0, 254, 255] then 4
    else if kind == Foreign("UTF-16LE") && data[..2] == [255, 254] then 2
    else if kind == Foreign("UTF-16BE") && data[..2] == [254, 255] then 2
    else 0
  }

  lemma OwnMarkIsStripped(kind: Kind, data: seq<Byte>)
    requires |data| >= 4
    ensures OwnMark(kind, data) == MatchingBom(kind, data)
  {
  }

  /** Too short to tell, and a fallback that is not an encoding: the two answers left. */
  lemma {:induction false} OtherCaptures(codecs: Codecs, options: Options, data: seq<Byte>)
    ensures |data| < 4 ==> CaptureOf(codecs, options, data) == Ok(CaptureRead.Complete(data))
    ensures |data| >= 4 && options.explicit.None? && Unmarked(data) && options.fallback.Some?
            && codecs.kindOf(options.fallback.value).None? ==>
              CaptureOf(codecs, options, data) == Err(options.fallback.value)
  {
    if |data| >= 4 { UnmarkedHasNoBom(data); }
    hide BomOf, Unmarked;
  }

  /** `Read::read`: some bytes if any are left, at most `maximum`; `wish` is what the system chose. */
  method ReadSome(data: seq<Byte>, at: nat, maximum: nat, wish: nat) returns (bytes: seq<Byte>)
    requires at <= |data| && maximum > 0
    ensures at + |bytes| <= |data| && bytes == data[at..at + |bytes|] && |bytes| <= maximum
    ensures bytes == [] <==> at == |data|
  {
    var count := Min(Min(Max(wish, 1), maximum), |data| - at);
    bytes := data[at..at + count];
  }

  /**
   The capture is a function of the bytes alone: `wishes` gives the size the
   system would like to return for each read, and has no influence.
   */
  method CaptureReader(codecs: Codecs, options: Options, data: seq<Byte>, wishes: nat -> nat)
    returns (r: Result<CaptureRead, string>)
    requires Lawful(codecs) && |data| <= WORD_MAX
    ensures r == CaptureOf(codecs, options, data)
  {
    hide Lawful, Verdict, CaptureClassifier.Valid;
    var classifier := new CaptureClassifier(codecs, options);
    var builder: seq<Byte> := [];
    var calls := 0;
    var reachedEof := false;
    VerdictOfShort(codecs, options, []);
    while |builder| < PREFLIGHT_BYTES && !reachedEof
      invariant fresh(classifier) && fresh(classifier.scanner)
      invariant classifier.codecs == codecs && classifier.options == options
      invariant classifier.Valid() && classifier.seen == builder
      invariant |builder| <= |data| && builder == data[..|builder|] && |builder| <= PREFLIGHT_BYTES
      invariant Verdict(codecs, options, builder) == Ok(None)
      invariant reachedEof ==> |builder| == |data|
      decreases |data| - |builder|, !reachedEof
    {
      var early;
      early, builder, reachedEof := ReadAndFeed(classifier, data, builder, PREFLIGHT_BYTES - |builder|, wishes(calls));
      if early.Some? { return early.value; }
      calls := calls + 1;
    }
    while !reachedEof
      invariant fresh(classifier) && fresh(classifier.scanner)
      invariant classifier.codecs == codecs && classifier.options == options
      invariant classifier.Valid() && classifier.seen == builder
      invariant |builder| <= |data| && builder == data[..|builder|]
      invariant Verdict(codecs, options, builder) == Ok(None)
      invariant reachedEof ==> |builder| == |data|
      invariant !reachedEof ==> |builder| >= PREFLIGHT_BYTES
      decreases |data| - |builder|, !reachedEof
    {
      var early;
      early, builder, reachedEof := ReadAndFeed(classifier, data, builder, SNAPSHOT_CHUNK_BYTES, wishes(calls));
      if early.Some? { return early.value; }
      calls := calls + 1;
    }
    assert builder == data;
    var atEof := classifier.FinishEof();
    r := Ok(match atEof case Some(proof) => Terminal(proof) case None => CaptureRead.Complete(builder));
  }

  /** One read of either loop: end of file, an early answer, or more bytes kept. */
  method ReadAndFeed(classifier: CaptureClassifier, data: seq<Byte>, builder: seq<Byte>, maximum: nat, wish: nat)
    returns (early: Option<Result<CaptureRead, string>>, builder': seq<Byte>, eof: bool)
    requires classifier.Valid() && classifier.seen == builder && |data| <= WORD_MAX && maximum > 0
    requires |builder| <= |data| && builder == data[..|builder|]
    requires |builder| >= PREFLIGHT_BYTES || |builder| + maximum <= PREFLIGHT_BYTES
    modifies classifier, classifier.scanner
    ensures early.Some? ==> early.value == CaptureOf(classifier.codecs, classifier.options, data)
    ensures early.None? ==> classifier.Valid() && classifier.seen == builder'
    ensures early.None? ==> |builder'| <= |data| && builder' == data[..|builder'|] && |builder'| <= |builder| + maximum
    ensures early.None? && eof ==> builder' == builder && |builder| == |data|
    ensures early.None? && !eof ==> |builder'| > |builder| && Verdict(classifier.codecs, classifier.options, builder') == Ok(None)
  {
    hide Lawful, Verdict;
    ModeNeedsFour(classifier);
    hide CaptureClassifier.Valid;
    var bytes := ReadSome(data, |builder|, maximum, wish);
    if bytes == [] { return None, builder, true; }
    var fed := classifier.Feed(bytes);
    builder' := builder + bytes;
    if fed != Ok(None) {
      FinalSoFar(classifier.codecs, classifier.options, data, builder');
      early := Some(match fed case Err(tag) => Err(tag) case Ok(proof) => Ok(Terminal(proof.value)));
      return early, builder', false;
    }
    return None, builder', false;
  }

  lemma ModeNeedsFour(classifier: CaptureClassifier)
    requires classifier.Valid()
    ensures Lawful(classifier.codecs) && (classifier.mode.None? ==> |classifier.seen| < 4)
  {
  }

  lemma FinalSoFar(codecs: Codecs, options: Options, data: seq<Byte>, read: seq<Byte>)
    requires Lawful(codecs) && |read| <= |data| && read == data[..|read|]
    requires Verdict(codecs, options, read) != Ok(None)
    ensures Verdict(codecs, options, data) == Verdict(codecs, options, read)
  {
    VerdictIsFinal(codecs, options, read, data[|read|..]);
    assert read + data[|read|..] == data;
  }
}

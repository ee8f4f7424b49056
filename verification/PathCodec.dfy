/**
 The Unix half of `path_codec.rs`: paths of arbitrary bytes shown as one safe
 line of text, and read back. Text is its UTF-8 bytes. Path splitting and
 pushing follow the standard library's rules for Unix paths.
 */
module PathCodec {
  import opened Wrappers
  import opened Utf8

  type Bytes = seq<Byte>

  const SLASH: Byte := 0x2F
  const BACKSLASH: Byte := 0x5C
  const COLON: Byte := 0x3A
  const TILDE: Byte := 0x7E
  const DOT: Bytes := [0x2E]
  const DOT_DOT: Bytes := [0x2E, 0x2E]

  /** "~fastctx~b" and "~fastctx~w" */
  const TOKEN_STEM: Bytes := [0x7E, 0x66, 0x61, 0x73, 0x74, 0x63, 0x74, 0x78, 0x7E]
  const BYTE_TOKEN_PREFIX: Bytes := TOKEN_STEM + [0x62]
  const WINDOWS_TOKEN_PREFIX: Bytes := TOKEN_STEM + [0x77]

  // ----- paths

  datatype Component = RootDir | CurDir | ParentDir | Normal(name: Bytes)

  function Split(raw: Bytes): (pieces: seq<Bytes>)
    ensures pieces != []
  {
    if raw == [] then [[]]
    else
      var rest := Split(raw[1..]);
      if raw[0] == SLASH then [[]] + rest else [[raw[0]] + rest[0]] + rest[1..]
  }

  /** Empty pieces and "." vanish; ".." goes up. */
  function ComponentsOf(pieces: seq<Bytes>): seq<Component> {
    if pieces == [] then []
    else
      var rest := ComponentsOf(pieces[1..]);
      if pieces[0] == [] || pieces[0] == DOT then rest
      else if pieces[0] == DOT_DOT then [ParentDir] + rest
      else [Normal(pieces[0])] + rest
  }

  predicate IsAbsolute(raw: Bytes) {
    raw != [] && raw[0] == SLASH
  }

  /** `Path::components`; two paths are equal when these are. */
  function Components(raw: Bytes): seq<Component> {
    if IsAbsolute(raw) then [RootDir] + ComponentsOf(Split(raw))
    else if Split(raw)[0] == DOT then [CurDir] + ComponentsOf(Split(raw))
    else ComponentsOf(Split(raw))
  }

  /** `PathBuf::push`. */
  function Push(buffer: Bytes, part: Bytes): Bytes {
    if IsAbsolute(part) then part
    else if buffer == [] || buffer[|buffer| - 1] == SLASH then buffer + part
    else buffer + [SLASH] + part
  }

  /** A file name: one that a path component can carry. */
  predicate IsName(name: Bytes) {
    name != [] && name != DOT && name != DOT_DOT && SLASH !in name && 0 !in name
  }

  // ----- characters

  /** `char::is_control`, line and paragraph separators, and the backslash. */
  predicate Unsafe(c: Scalar) {
    c <= 0x1F || 0x7F <= c <= 0x9F || c == 0x2028 || c == 0x2029 || c == BACKSLASH
  }

  /** Valid text without any character that could break a line or be taken for a separator. */
  predicate LineSafe(b: Bytes) {
    ScanOf(b).end == Clean && forall k :: 0 <= k < |ScanOf(b).text| ==> !Unsafe(ScanOf(b).text[k])
  }

  // ----- tokens

  predicate IsLowerHex(b: Byte) {
    0x30 <= b <= 0x39 || 0x61 <= b <= 0x66
  }

  datatype CanonicalToken = ByteToken(payload: Bytes) | WindowsToken(payload: Bytes)

  /** Between a prefix and the closing tilde: nonempty lower hex in whole groups. */
  function Payload(component: Bytes, prefix: Bytes, group: nat): (r: Option<Bytes>)
    requires group > 0
    ensures r.Some? ==> |r.value| % group == 0 && forall k :: 0 <= k < |r.value| ==> IsLowerHex(r.value[k])
  {
    if |component| <= |prefix| + 1 || component[..|prefix|] != prefix || component[|component| - 1] != TILDE then None
    else
      var payload := component[|prefix|..|component| - 1];
      if |payload| % group == 0 && forall k :: 0 <= k < |payload| ==> IsLowerHex(payload[k]) then Some(payload) else None
  }

  function CanonicalTokenOf(component: Bytes): Option<CanonicalToken> {
    match Payload(component, BYTE_TOKEN_PREFIX, 2)
    case Some(payload) => Some(ByteToken(payload))
    case None =>
      match Payload(component, WINDOWS_TOKEN_PREFIX, 4)
      case Some(payload) => Some(WindowsToken(payload))
      case None => None
  }

  function HexDigit(n: nat): (b: Byte)
    requires n < 16
    ensures IsLowerHex(b)
  {
    if n < 10 then 0x30 + n else 0x57 + n
  }

  function HexValue(b: Byte): (n: nat)
    requires IsLowerHex(b)
    ensures n < 16
  {
    if b <= 0x39 then b - 0x30 else b - 0x57
  }

  function HexOf(bytes: Bytes): (hex: Bytes)
    ensures |hex| == 2 * |bytes|
    ensures forall k :: 0 <= k < |hex| ==> IsLowerHex(hex[k])
  {
    if bytes == [] then []
    else
      var b: int := bytes[0];
      [HexDigit(b / 16), HexDigit(b % 16)] + HexOf(bytes[1..])
  }

  function FromHex(hex: Bytes): (bytes: Bytes)
    requires |hex| % 2 == 0 && forall k :: 0 <= k < |hex| ==> IsLowerHex(hex[k])
  {
    if hex == [] then [] else [HexValue(hex[0]) * 16 + HexValue(hex[1])] + FromHex(hex[2..])
  }

  lemma {:induction false} HexRoundTrip(bytes: Bytes)
    ensures FromHex(HexOf(bytes)) == bytes
  {
    if bytes != [] {
      HexRoundTrip(bytes[1..]);
      assert HexOf(bytes)[2..] == HexOf(bytes[1..]);
    }
  }

  /** "0123456789abcdef" */
  const DIGITS: Bytes := [48, 49, 50, 51, 52, 53, 54, 55, 56, 57, 97, 98, 99, 100, 101, 102]

  /** Every byte is written as two digits, the high one first. */
  lemma {:induction false} HexAt(bytes: Bytes, k: nat)
    requires k < |bytes|
    ensures HexOf(bytes)[2 * k] == DIGITS[bytes[k] / 16] && HexOf(bytes)[2 * k + 1] == DIGITS[bytes[k] % 16]
  {
    if k > 0 {
      HexAt(bytes[1..], k - 1);
      assert HexOf(bytes)[2..] == HexOf(bytes[1..]);
    }
  }

  function TokenOf(bytes: Bytes): Bytes {
    BYTE_TOKEN_PREFIX + HexOf(bytes) + [TILDE]
  }

  method AppendLowerHex(output: Bytes, bytes: Bytes) returns (extended: Bytes)
    ensures extended == output + HexOf(bytes)
  {
    extended := output;
    assert bytes[0..] == bytes;
    var k := 0;
    while k < |bytes|
      invariant k <= |bytes| && extended + HexOf(bytes[k..]) == output + HexOf(bytes)
    {
      var b: int := bytes[k];
      assert bytes[k..][1..] == bytes[k + 1..];
      extended := extended + [HexDigit(b / 16)];
      extended := extended + [HexDigit(b % 16)];
      k := k + 1;
    }
    assert bytes[|bytes|..] == [];
  }

  // ----- one component

  predicate ComponentIsSafe(name: Bytes) {
    LineSafe(name) && CanonicalTokenOf(name).None?
  }

  /** The component itself if it is safe text and does not look like a token; else its token. */
  function EncodeComponent(name: Bytes): Bytes {
    if ComponentIsSafe(name) then name else TokenOf(name)
  }

  /** Decodes a token once; anything else is taken as it is. */
  function DecodeComponent(component: Bytes): Option<Bytes> {
    if ScanOf(component).end != Clean then Some(component)
    else
      match CanonicalTokenOf(component)
      case None => Some(component)
      case Some(WindowsToken(_)) => None
      case Some(ByteToken(payload)) =>
        assert payload == Payload(component, BYTE_TOKEN_PREFIX, 2).value;
        var bytes := FromHex(payload);
        if TokenOf(bytes) == component && IsName(bytes) then Some(bytes) else None
  }

  lemma TokenIsCanonical(name: Bytes)
    requires name != []
    ensures CanonicalTokenOf(TokenOf(name)) == Some(ByteToken(HexOf(name)))
  {
    hide HexOf, IsLowerHex;
    var token := TokenOf(name);
    assert token[..|BYTE_TOKEN_PREFIX|] == BYTE_TOKEN_PREFIX;
    assert token[|BYTE_TOKEN_PREFIX|..|token| - 1] == HexOf(name);
  }

  /** Decoding what was encoded gives back the name, token-shaped names included. */
  lemma {:induction false} ComponentRoundTrip(name: Bytes)
    requires IsName(name)
    ensures DecodeComponent(EncodeComponent(name)) == Some(name)
  {
    if !ComponentIsSafe(name) {
      TokenIsCanonical(name);
      TokenIsLineSafe(name);
      HexRoundTrip(name);
    }
  }

  // ----- what is decoded, refused, or left alone

  lemma {:induction false} FromHexRoundTrip(hex: Bytes)
    requires |hex| % 2 == 0 && forall k :: 0 <= k < |hex| ==> IsLowerHex(hex[k])
    ensures HexOf(FromHex(hex)) == hex && |FromHex(hex)| * 2 == |hex|
  {
    if hex != [] {
      FromHexRoundTrip(hex[2..]);
      var b: int := HexValue(hex[0]) * 16 + HexValue(hex[1]);
      assert FromHex(hex)[0] == b && FromHex(hex)[1..] == FromHex(hex[2..]);
      assert hex == [hex[0], hex[1]] + hex[2..];
    }
  }

  /** "~fastctx~b", these bytes in lower-case hex, and "~". */
  predicate ByteTokenFor(component: Bytes, bytes: Bytes) {
    component == [126, 102, 97, 115, 116, 99, 116, 120, 126, 98] + HexOf(bytes) + [126] && bytes != []
  }

  /** "~fastctx~w", lower-case hex in groups of four, and "~". */
  ghost predicate WindowsTokenFor(component: Bytes, payload: Bytes) {
    && component == [126, 102, 97, 115, 116, 99, 116, 120, 126, 119] + payload + [126]
    && payload != [] && |payload| % 4 == 0 && forall k :: 0 <= k < |payload| ==> IsLowerHex(payload[k])
  }

  /** The bytes name no file: nothing, ".", "..", or a slash or a NUL among them. */
  predicate NamesNothing(bytes: Bytes) {
    bytes == [] || bytes == [46] || bytes == [46, 46] || 47 in bytes || 0 in bytes
  }

  /** A token stands for its bytes, and is refused if they name no file; a token of the other platform is refused. */
  lemma {:induction false} TokensAreDecoded(component: Bytes, bytes: Bytes)
    requires ByteTokenFor(component, bytes)
    ensures DecodeComponent(component) == if NamesNothing(bytes) then None else Some(bytes)
  {
    hide HexOf, FromHex, TokenOf, ByteTokenFor, CanonicalTokenOf, ScanOf;
    TokenForIsTokenOf(component, bytes);
    TokenIsCanonical(bytes);
    TokenIsLineSafe(bytes);
    HexRoundTrip(bytes);
  }

  lemma TokenForIsTokenOf(component: Bytes, bytes: Bytes)
    requires ByteTokenFor(component, bytes)
    ensures component == TokenOf(bytes) && bytes != []
  {
    hide HexOf;
  }

  lemma {:induction false} WindowsTokensAreRefused(component: Bytes, payload: Bytes)
    requires WindowsTokenFor(component, payload)
    ensures DecodeComponent(component).None?
  {
    PayloadOfWindowsToken(component, payload);
    forall k | 0 <= k < |component| ensures 0x20 <= component[k] <= 0x7E && component[k] != BACKSLASH {
      if 10 <= k < |component| - 1 { assert component[k] == payload[k - 10]; }
    }
    PlainIsLineSafe(component);
  }

  lemma PayloadOfWindowsToken(component: Bytes, payload: Bytes)
    requires WindowsTokenFor(component, payload)
    ensures CanonicalTokenOf(component) == Some(WindowsToken(payload))
  {
    assert component[..|WINDOWS_TOKEN_PREFIX|] == WINDOWS_TOKEN_PREFIX;
    assert component[|WINDOWS_TOKEN_PREFIX|..|component| - 1] == payload;
    assert component[9] != BYTE_TOKEN_PREFIX[9];
    assert Payload(component, BYTE_TOKEN_PREFIX, 2).None? by {
      if |component| > |BYTE_TOKEN_PREFIX| { assert component[..|BYTE_TOKEN_PREFIX|][9] == component[9]; }
    }
  }

  lemma PayloadIsByteToken(component: Bytes)
    requires Payload(component, BYTE_TOKEN_PREFIX, 2).Some?
    ensures ByteTokenFor(component, FromHex(Payload(component, BYTE_TOKEN_PREFIX, 2).value))
  {
    FromHexRoundTrip(Payload(component, BYTE_TOKEN_PREFIX, 2).value);
    assert component == component[..10] + component[10..|component| - 1] + [component[|component| - 1]];
    hide FromHex, HexOf;
  }

  lemma PayloadIsWindowsToken(component: Bytes)
    requires Payload(component, WINDOWS_TOKEN_PREFIX, 4).Some?
    ensures WindowsTokenFor(component, Payload(component, WINDOWS_TOKEN_PREFIX, 4).value)
  {
    assert component == component[..10] + component[10..|component| - 1] + [component[|component| - 1]];
  }

  /** A control character, a line or paragraph separator, or a backslash. */
  predicate Hidden(c: Scalar) {
    c < 32 || 127 <= c < 160 || c == 0x2028 || c == 0x2029 || c == 92
  }

  /** A name is shown as it is exactly if it is text without such characters and no token; any other is shown as a token. */
  lemma {:induction false} PlainNamesAreShown(name: Bytes)
    requires name != []
    ensures var plain :=
              && (exists text :: name == EncodeAll(text) && forall k :: 0 <= k < |text| ==> !Hidden(text[k]))
              && (forall bytes :: !ByteTokenFor(name, bytes)) && (forall payload :: !WindowsTokenFor(name, payload));
            && (plain ==> EncodeComponent(name) == name)
            && (!plain ==> ByteTokenFor(EncodeComponent(name), name))
  {
    SafeIsText(name);
    TokensAreTokens(name);
    TokenIsForName(name);
    hide LineSafe, TokenOf, Hidden, CanonicalTokenOf, ByteTokenFor, WindowsTokenFor, EncodeAll;
  }

  lemma TokensAreTokens(name: Bytes)
    ensures CanonicalTokenOf(name).None? <==>
            (forall bytes :: !ByteTokenFor(name, bytes)) && (forall payload :: !WindowsTokenFor(name, payload))
  {
    forall bytes | ByteTokenFor(name, bytes) ensures CanonicalTokenOf(name).Some? {
      TokenIsCanonical(bytes);
      assert name == TokenOf(bytes);
    }
    forall payload | WindowsTokenFor(name, payload) ensures CanonicalTokenOf(name).Some? {
      PayloadOfWindowsToken(name, payload);
    }
    hide HexOf, ByteTokenFor, WindowsTokenFor, Payload;
    if Payload(name, BYTE_TOKEN_PREFIX, 2).Some? { PayloadIsByteToken(name); }
    if Payload(name, WINDOWS_TOKEN_PREFIX, 4).Some? { PayloadIsWindowsToken(name); }
  }

  lemma TokenIsForName(name: Bytes)
    requires name != []
    ensures ByteTokenFor(TokenOf(name), name)
  {
    hide HexOf;
  }

  lemma SafeIsText(name: Bytes)
    ensures LineSafe(name) <==> exists text :: name == EncodeAll(text) && forall k :: 0 <= k < |text| ==> !Hidden(text[k])
  {
    forall text ensures ScanOf(name).end == Clean && ScanOf(name).text == text <==> name == EncodeAll(text) {
      CleanIsEncoded(name, text);
    }
    hide ScanOf, EncodeAll;
    if LineSafe(name) { assert forall k :: 0 <= k < |ScanOf(name).text| ==> !Hidden(ScanOf(name).text[k]); }
  }

  /** Everything else is taken as it is. */
  lemma {:induction false} OthersAreKept(component: Bytes)
    requires forall bytes :: !ByteTokenFor(component, bytes)
    requires forall payload :: !WindowsTokenFor(component, payload)
    ensures DecodeComponent(component) == Some(component)
  {
    hide ByteTokenFor, WindowsTokenFor, Payload, LineSafe;
    if Payload(component, BYTE_TOKEN_PREFIX, 2).Some? { PayloadIsByteToken(component); }
    if Payload(component, WINDOWS_TOKEN_PREFIX, 4).Some? { PayloadIsWindowsToken(component); }
  }

  // ----- safe text

  lemma AsciiIsLineSafe(b: Byte)
    requires 0x20 <= b <= 0x7E && b != BACKSLASH
    ensures LineSafe([b])
  {
    assert ScanOf([b][1..]) == Scan(0, [], Clean);
  }

  /** Safe pieces make safe text. */
  lemma {:induction false} LineSafeAppend(a: Bytes, b: Bytes)
    requires LineSafe(a) && LineSafe(b)
    ensures LineSafe(a + b)
  {
    ScanIsExact(a);
    ScanOfAppend(a, b);
    assert a[ScanOf(a).valid..] + b == b;
  }

  lemma {:induction false} PlainIsLineSafe(b: Bytes)
    requires forall k :: 0 <= k < |b| ==> 0x20 <= b[k] <= 0x7E && b[k] != BACKSLASH
    ensures LineSafe(b)
  {
    if b != [] {
      AsciiIsLineSafe(b[0]);
      PlainIsLineSafe(b[1..]);
      LineSafeAppend([b[0]], b[1..]);
      assert b == [b[0]] + b[1..];
    }
  }

  lemma TokenIsLineSafe(name: Bytes)
    ensures LineSafe(TokenOf(name))
  {
    PlainIsLineSafe(TokenOf(name));
  }

  lemma EncodedIsLineSafe(name: Bytes)
    ensures LineSafe(EncodeComponent(name))
  {
    TokenIsLineSafe(name);
  }

  lemma AsciiStandsAlone(c: Scalar, k: nat)
    requires k < |Encode(c)| && Encode(c)[k] < 0x80
    ensures Encode(c)[k] == c
  {
  }

  /** A byte below 0x80 in UTF-8 text is a character of its own. */
  lemma {:induction false} AsciiByteIsChar(text: seq<Scalar>, k: nat)
    requires k < |EncodeAll(text)| && EncodeAll(text)[k] < 0x80
    ensures EncodeAll(text)[k] in text
  {
    var n := |Encode(text[0])|;
    if k < n {
      AsciiStandsAlone(text[0], k);
    } else {
      AsciiByteIsChar(text[1..], k - n);
    }
  }

  lemma SafeHasNoBackslash(b: Bytes)
    requires LineSafe(b)
    ensures BACKSLASH !in b && 0 !in b
  {
    ScanIsExact(b);
    assert b[..|b|] == b;
    forall k | 0 <= k < |b| ensures b[k] != BACKSLASH && b[k] != 0 {
      if b[k] < 0x80 { AsciiByteIsChar(ScanOf(b).text, k); }
    }
  }

  // ----- whole paths

  /** `append_display_component`. */
  function AppendDisplay(display: Bytes, component: Bytes): Bytes {
    (if display != [] && display[|display| - 1] != SLASH then display + [SLASH] else display) + component
  }

  function ShowNext(display: Bytes, component: Component): Bytes {
    match component
    case RootDir => if display != [] && display[|display| - 1] == SLASH then display else display + [SLASH]
    case CurDir => AppendDisplay(display, DOT)
    case ParentDir => AppendDisplay(display, DOT_DOT)
    case Normal(name) => AppendDisplay(display, EncodeComponent(name))
  }

  function Display(components: seq<Component>): Bytes {
    if components == [] then []
    else ShowNext(Display(components[..|components| - 1]), components[|components| - 1])
  }

  method DisplayPath(raw: Bytes) returns (display: Bytes)
    ensures display == Display(Components(raw))
  {
    display := [];
    var components := Components(raw);
    for k := 0 to |components|
      invariant display == Display(components[..k])
    {
      assert components[..k + 1][..k] == components[..k];
      display := ShowNext(display, components[k]);
    }
    assert components[..|components|] == components;
  }

  /** What an input names: a path, a URI for another parser, or nothing acceptable. */
  datatype Parsed = Path(raw: Bytes) | FileUri | UnsupportedScheme | BadComponent

  function FirstColon(input: Bytes): Option<nat> {
    if input == [] then None
    else if input[0] == COLON then Some(0)
    else match FirstColon(input[1..]) case None => None case Some(k) => Some(k + 1)
  }

  predicate IsAlpha(b: Byte) {
    0x41 <= b <= 0x5A || 0x61 <= b <= 0x7A
  }

  predicate IsSchemeByte(b: Byte) {
    IsAlpha(b) || 0x30 <= b <= 0x39 || b == 0x2B || b == 0x2D || b == 0x2E
  }

  /** The URI scheme of an input; one letter is a drive, not a scheme. */
  function UriScheme(input: Bytes): Option<Bytes> {
    match FirstColon(input)
    case None => None
    case Some(end) =>
      if 2 <= end <= |input| && IsAlpha(input[0]) && forall k :: 0 <= k < end ==> IsSchemeByte(input[k]) then Some(input[..end])
      else None
  }

  predicate IsFile(scheme: Bytes) {
    && |scheme| == 4
    && scheme[0] in [0x46, 0x66] && scheme[1] in [0x49, 0x69] && scheme[2] in [0x4C, 0x6C] && scheme[3] in [0x45, 0x65]
  }

  /** Either separator is accepted on input. */
  function ForwardSlashes(input: Bytes): (r: Bytes)
    ensures |r| == |input|
    ensures forall k :: 0 <= k < |r| ==> r[k] == if input[k] == BACKSLASH then SLASH else input[k]
  {
    seq(|input|, k requires 0 <= k < |input| => if input[k] == BACKSLASH then SLASH else input[k])
  }

  function ReadNext(buffer: Bytes, component: Component): Option<Bytes> {
    match component
    case RootDir => Some(Push(buffer, [SLASH]))
    case CurDir => Some(Push(buffer, DOT))
    case ParentDir => Some(Push(buffer, DOT_DOT))
    case Normal(name) =>
      match DecodeComponent(name)
      case None => None
      case Some(decoded) => Some(Push(buffer, decoded))
  }

  function Rebuild(components: seq<Component>): Option<Bytes> {
    if components == [] then Some([])
    else
      match Rebuild(components[..|components| - 1])
      case None => None
      case Some(buffer) => ReadNext(buffer, components[|components| - 1])
  }

  function Parse(input: Bytes): Parsed {
    match UriScheme(input)
    case Some(scheme) => if IsFile(scheme) then FileUri else UnsupportedScheme
    case None =>
      match Rebuild(Components(ForwardSlashes(input)))
      case None => BadComponent
      case Some(raw) => Path(raw)
  }

  lemma {:induction false} RebuildFails(components: seq<Component>, k: nat)
    requires k <= |components| && Rebuild(components[..k]).None?
    ensures Rebuild(components).None?
  {
    if k < |components| {
      assert components[..|components| - 1][..k] == components[..k];
      RebuildFails(components[..|components| - 1], k);
    } else {
      assert components[..k] == components;
    }
  }

  method ParseInputPath(input: Bytes) returns (parsed: Parsed)
    ensures parsed == Parse(input)
  {
    var scheme := UriScheme(input);
    if scheme.Some? { return if IsFile(scheme.value) then FileUri else UnsupportedScheme; }
    var components := Components(ForwardSlashes(input));
    var decoded: Bytes := [];
    for k := 0 to |components|
      invariant Rebuild(components[..k]) == Some(decoded)
    {
      assert components[..k + 1][..k] == components[..k];
      var next := ReadNext(decoded, components[k]);
      if next.None? {
        RebuildFails(components, k + 1);
        return BadComponent;
      }
      decoded := next.value;
    }
    assert components[..|components|] == components;
    parsed := Path(decoded);
  }

  // ----- bases and segments

  predicate IsSegment(s: Bytes) {
    s != [] && s != DOT && SLASH !in s
  }

  function ComponentOf(s: Bytes): Component {
    if s == DOT_DOT then ParentDir else Normal(s)
  }

  /** What a path may start from: nothing, the current directory, or the root. */
  predicate IsBase(base: Bytes) {
    base == [] || base == DOT || base == [SLASH]
  }

  function Lead(base: Bytes): seq<Component> {
    if base == [SLASH] then [RootDir] else if base == DOT then [CurDir] else []
  }

  /** The path made of these segments below a base. */
  function Under(base: Bytes, segments: seq<Bytes>): Bytes {
    if segments == [] then base
    else AppendDisplay(Under(base, segments[..|segments| - 1]), segments[|segments| - 1])
  }

  lemma UnderShape(base: Bytes, segments: seq<Bytes>)
    requires IsBase(base) && forall k :: 0 <= k < |segments| ==> IsSegment(segments[k])
    ensures IsAbsolute(Under(base, segments)) <==> base == [SLASH]
    ensures segments != [] ==> var p := Under(base, segments); p != [] && p[|p| - 1] != SLASH
  {
    if segments != [] {
      var last := segments[|segments| - 1];
      assert IsSegment(last) && last[|last| - 1] in last && last[0] in last;
      UnderShape(base, segments[..|segments| - 1]);
    }
  }

  lemma {:induction false} SplitSegment(s: Bytes)
    requires SLASH !in s
    ensures Split(s) == [s]
  {
    if s != [] {
      SplitSegment(s[1..]);
      assert s == [s[0]] + s[1..];
    }
  }

  /** A slash and a segment add one piece. */
  lemma {:induction false} SplitAppend(a: Bytes, s: Bytes)
    requires SLASH !in s
    ensures Split(a + [SLASH] + s) == Split(a) + [s]
  {
    var whole := a + [SLASH] + s;
    if a == [] {
      assert whole[1..] == s;
      SplitSegment(s);
    } else {
      assert whole[1..] == a[1..] + [SLASH] + s;
      SplitAppend(a[1..], s);
    }
  }

  lemma {:induction false} ComponentsOfAppend(pieces: seq<Bytes>, s: Bytes)
    requires IsSegment(s)
    ensures ComponentsOf(pieces + [s]) == ComponentsOf(pieces) + [ComponentOf(s)]
  {
    if pieces == [] {
      assert (pieces + [s])[1..] == [];
    } else {
      assert (pieces + [s])[1..] == pieces[1..] + [s];
      ComponentsOfAppend(pieces[1..], s);
    }
  }

  function Named(segments: seq<Bytes>): seq<Component> {
    seq(|segments|, k requires 0 <= k < |segments| => ComponentOf(segments[k]))
  }

  lemma NoSegments(base: Bytes)
    requires IsBase(base)
    ensures Components(base) == Lead(base)
  {
    assert [SLASH][1..] == [] && DOT[1..] == [];
    var pieces: seq<Bytes> := [[], []];
    assert Split([SLASH]) == pieces && pieces[1..] == [[]] && [[]][1..] == pieces[2..];
    SplitSegment(DOT);
    assert [DOT][1..] == [];
  }

  lemma FirstSegment(s: Bytes)
    requires IsSegment(s)
    ensures Components(s) == [ComponentOf(s)] && AppendDisplay([], s) == s
  {
    assert s[0] in s;
    SplitSegment(s);
    ComponentsOfAppend([], s);
    assert [] + [s] == [s] && [] + [ComponentOf(s)] == [ComponentOf(s)] && [] + s == s;
    hide Split;
  }

  lemma AppendBehindSlash(front: Bytes, s: Bytes)
    requires IsSegment(s)
    ensures Components(front + [SLASH] + s) == Components(front + [SLASH]) + [ComponentOf(s)]
  {
    SplitAppend(front, []);
    SplitAppend(front, s);
    assert front + [SLASH] + [] == front + [SLASH];
    ComponentsOfAppend(Split(front), s);
    EmptyPiece(Split(front));
    var a, b := front + [SLASH], front + [SLASH] + s;
    assert IsAbsolute(a) == IsAbsolute(b) && Split(a)[0] == Split(front)[0] == Split(b)[0];
    hide Split, ComponentsOf, IsSegment, ComponentOf, IsAbsolute;
  }

  lemma AppendBehindName(path: Bytes, s: Bytes)
    requires IsSegment(s) && path != []
    ensures Components(path + [SLASH] + s) == Components(path) + [ComponentOf(s)]
  {
    SplitAppend(path, s);
    ComponentsOfAppend(Split(path), s);
    hide Split, ComponentsOf, IsSegment, ComponentOf;
  }

  /** One more segment is one more component. */
  lemma ComponentsAppend(path: Bytes, s: Bytes)
    requires IsSegment(s)
    ensures Components(AppendDisplay(path, s)) == Components(path) + [ComponentOf(s)]
  {
    hide Components, IsSegment, ComponentOf;
    if path == [] {
      FirstSegment(s);
      NoSegments([]);
      assert Lead([]) + [ComponentOf(s)] == [ComponentOf(s)];
    } else if path[|path| - 1] == SLASH {
      assert path == path[..|path| - 1] + [SLASH];
      AppendBehindSlash(path[..|path| - 1], s);
    } else {
      AppendBehindName(path, s);
    }
  }

  lemma {:induction false} EmptyPiece(pieces: seq<Bytes>)
    ensures ComponentsOf(pieces + [[]]) == ComponentsOf(pieces)
  {
    var none: seq<Bytes> := [[]];
    if pieces == [] {
      assert pieces + none == none && none[1..] == [];
    } else {
      assert (pieces + none)[1..] == pieces[1..] + none;
      EmptyPiece(pieces[1..]);
    }
  }

  lemma NamedLast(segments: seq<Bytes>)
    requires segments != []
    ensures Named(segments) == Named(segments[..|segments| - 1]) + [ComponentOf(segments[|segments| - 1])]
  {
    hide ComponentOf;
  }

  /** Splitting a path gives back its base and its segments. */
  lemma {:induction false} UnderComponents(base: Bytes, segments: seq<Bytes>)
    requires IsBase(base) && forall k :: 0 <= k < |segments| ==> IsSegment(segments[k])
    ensures Components(Under(base, segments)) == Lead(base) + Named(segments)
  {
    if segments == [] {
      NoSegments(base);
    } else {
      var before, last := segments[..|segments| - 1], segments[|segments| - 1];
      assert IsSegment(last);
      UnderComponents(base, before);
      NamedLast(segments);
      hide IsSegment, Components, Named, ComponentOf, AppendDisplay, IsBase;
      ComponentsAppend(Under(base, before), last);
    }
  }

  // ----- the round trip

  predicate Ordinary(c: Component) {
    c.ParentDir? || (c.Normal? && IsName(c.name))
  }

  /** The segment of a component as it is, and as it is shown. */
  function PlainSegment(c: Component): Bytes
    requires Ordinary(c)
  {
    if c.ParentDir? then DOT_DOT else c.name
  }

  function ShownSegment(c: Component): Bytes
    requires Ordinary(c)
  {
    if c.ParentDir? then DOT_DOT else EncodeComponent(c.name)
  }

  ghost predicate AllOrdinary(components: seq<Component>) {
    forall k :: 0 <= k < |components| ==> Ordinary(components[k])
  }

  function Plain(components: seq<Component>): seq<Bytes>
    requires AllOrdinary(components)
  {
    seq(|components|, k requires 0 <= k < |components| => PlainSegment(components[k]))
  }

  function Shown(components: seq<Component>): seq<Bytes>
    requires AllOrdinary(components)
  {
    seq(|components|, k requires 0 <= k < |components| => ShownSegment(components[k]))
  }

  lemma {:induction false} SplitPieces(raw: Bytes)
    requires 0 !in raw
    ensures forall k :: 0 <= k < |Split(raw)| ==> SLASH !in Split(raw)[k] && 0 !in Split(raw)[k]
  {
    if raw != [] {
      assert forall b :: b in raw[1..] ==> b in raw;
      SplitPieces(raw[1..]);
    }
  }

  lemma {:induction false} PiecesAreOrdinary(pieces: seq<Bytes>)
    requires forall k :: 0 <= k < |pieces| ==> SLASH !in pieces[k] && 0 !in pieces[k]
    ensures AllOrdinary(ComponentsOf(pieces))
  {
    if pieces != [] { PiecesAreOrdinary(pieces[1..]); }
  }

  lemma SegmentsAreSegments(c: Component)
    requires Ordinary(c)
    ensures IsSegment(PlainSegment(c)) && IsSegment(ShownSegment(c)) && LineSafe(ShownSegment(c))
    ensures ComponentOf(PlainSegment(c)) == c
    ensures ComponentOf(ShownSegment(c)) == if c.ParentDir? then ParentDir else Normal(EncodeComponent(c.name))
  {
    PlainIsLineSafe(DOT_DOT);
    if c.Normal? {
      EncodedIsLineSafe(c.name);
      TokenHasNoSlash(c.name);
    }
  }

  lemma TokenHasNoSlash(name: Bytes)
    ensures SLASH !in TokenOf(name) && |TokenOf(name)| > 2
  {
  }

  lemma SegmentLists(rest: seq<Component>)
    requires AllOrdinary(rest)
    ensures forall k :: 0 <= k < |rest| ==> IsSegment(Shown(rest)[k]) && IsSegment(Plain(rest)[k]) && LineSafe(Shown(rest)[k])
  {
    forall k | 0 <= k < |rest|
      ensures IsSegment(Shown(rest)[k]) && IsSegment(Plain(rest)[k]) && LineSafe(Shown(rest)[k])
    {
      SegmentsAreSegments(rest[k]);
    }
  }

  lemma ShowOrdinary(display: Bytes, c: Component)
    requires Ordinary(c)
    ensures ShowNext(display, c) == AppendDisplay(display, ShownSegment(c))
  {
  }

  lemma UnderLast(base: Bytes, segments: seq<Bytes>, s: Bytes)
    ensures Under(base, segments + [s]) == AppendDisplay(Under(base, segments), s)
  {
    assert (segments + [s])[..|segments|] == segments;
  }

  lemma LastComponent(base: Bytes, rest: seq<Component>)
    requires rest != [] && AllOrdinary(rest)
    ensures var before, last := rest[..|rest| - 1], rest[|rest| - 1];
      && AllOrdinary(before) && Ordinary(last)
      && Lead(base) + rest == Lead(base) + before + [last]
      && Shown(rest) == Shown(before) + [ShownSegment(last)]
      && Lead(base) + Named(Shown(rest)) == Lead(base) + Named(Shown(before)) + [ComponentOf(ShownSegment(last))]
      && Plain(rest) == Plain(before) + [PlainSegment(last)]
  {
    hide ComponentOf, ShownSegment, PlainSegment, Ordinary, Lead;
  }

  lemma DisplayLast(components: seq<Component>, c: Component)
    ensures Display(components + [c]) == ShowNext(Display(components), c)
  {
    assert (components + [c])[..|components|] == components;
  }

  lemma BaseAlone(base: Bytes)
    requires IsBase(base)
    ensures Display(Lead(base)) == base && Rebuild(Lead(base)) == Some(base)
  {
    assert [RootDir][..0] == [] && [CurDir][..0] == [];
    assert [] + DOT == DOT && [] + [SLASH] == [SLASH];
  }

  /** A path is shown as its encoded segments below its base. */
  lemma {:induction false} DisplayIsUnder(base: Bytes, rest: seq<Component>)
    requires IsBase(base) && AllOrdinary(rest)
    ensures Display(Lead(base) + rest) == Under(base, Shown(rest))
  {
    if rest == [] {
      BaseAlone(base);
      assert Lead(base) + rest == Lead(base);
    } else {
      var before, last := rest[..|rest| - 1], rest[|rest| - 1];
      LastComponent(base, rest);
      hide *;
      DisplayIsUnder(base, before);
      DisplayLast(Lead(base) + before, last);
      ShowOrdinary(Under(base, Shown(before)), last);
      UnderLast(base, Shown(before), ShownSegment(last));
    }
  }

  /** Pushing a segment while reading is what appending it was while showing. */
  lemma ReadOrdinary(buffer: Bytes, c: Component)
    requires Ordinary(c)
    ensures ReadNext(buffer, ComponentOf(ShownSegment(c))) == Some(AppendDisplay(buffer, PlainSegment(c)))
  {
    SegmentsAreSegments(c);
    assert PlainSegment(c)[0] in PlainSegment(c);
    if c.Normal? { ComponentRoundTrip(c.name); }
    hide DecodeComponent, EncodeComponent;
  }

  lemma RebuildStep(components: seq<Component>, buffer: Bytes, c: Component)
    requires Rebuild(components) == Some(buffer)
    ensures Rebuild(components + [c]) == ReadNext(buffer, c)
  {
    assert (components + [c])[..|components|] == components;
  }

  /** Reading the shown components back rebuilds the plain segments. */
  lemma {:induction false} RebuildIsUnder(base: Bytes, rest: seq<Component>)
    requires IsBase(base) && AllOrdinary(rest)
    ensures Rebuild(Lead(base) + Named(Shown(rest))) == Some(Under(base, Plain(rest)))
  {
    if rest == [] {
      BaseAlone(base);
      assert Lead(base) + Named(Shown(rest)) == Lead(base);
    } else {
      var before, last := rest[..|rest| - 1], rest[|rest| - 1];
      LastComponent(base, rest);
      hide *;
      RebuildIsUnder(base, before);
      ReadOrdinary(Under(base, Plain(before)), last);
      RebuildStep(Lead(base) + Named(Shown(before)), Under(base, Plain(before)), ComponentOf(ShownSegment(last)));
      UnderLast(base, Plain(before), PlainSegment(last));
    }
  }

  lemma AppendIsLineSafe(a: Bytes, b: Bytes)
    requires LineSafe(a) && LineSafe(b)
    ensures LineSafe(AppendDisplay(a, b))
  {
    assert LineSafe([SLASH]) by { AsciiIsLineSafe(SLASH); }
    hide LineSafe;
    LineSafeAppend(a, [SLASH]);
    LineSafeAppend(a, b);
    LineSafeAppend(a + [SLASH], b);
  }

  lemma {:induction false} UnderIsLineSafe(base: Bytes, segments: seq<Bytes>)
    requires IsBase(base) && forall k :: 0 <= k < |segments| ==> LineSafe(segments[k])
    ensures LineSafe(Under(base, segments))
  {
    if segments == [] {
      PlainIsLineSafe(base);
    } else {
      hide LineSafe, AppendDisplay, IsBase;
      UnderIsLineSafe(base, segments[..|segments| - 1]);
      AppendIsLineSafe(Under(base, segments[..|segments| - 1]), segments[|segments| - 1]);
    }
  }

  /** What a path without NUL looks like, and how it is shown. */
  lemma PathShape(raw: Bytes) returns (base: Bytes, rest: seq<Component>)
    requires 0 !in raw
    ensures IsBase(base) && AllOrdinary(rest) && Components(raw) == Lead(base) + rest
    ensures base == [SLASH] <==> IsAbsolute(raw)
    ensures Display(Components(raw)) == Under(base, Shown(rest))
    ensures forall k :: 0 <= k < |rest| ==> IsSegment(Shown(rest)[k]) && IsSegment(Plain(rest)[k]) && LineSafe(Shown(rest)[k])
  {
    rest := ComponentsOf(Split(raw));
    base := if IsAbsolute(raw) then [SLASH] else if Split(raw)[0] == DOT then DOT else [];
    assert Components(raw) == Lead(base) + rest;
    SplitPieces(raw);
    PiecesAreOrdinary(Split(raw));
    DisplayIsUnder(base, rest);
    SegmentLists(rest);
  }

  /** A display is one safe line: no control character, separator or backslash. */
  lemma {:induction false} DisplayIsLineSafe(raw: Bytes)
    requires 0 !in raw
    ensures LineSafe(Display(Components(raw))) && BACKSLASH !in Display(Components(raw))
    ensures exists text :: Display(Components(raw)) == EncodeAll(text) && forall k :: 0 <= k < |text| ==> !Hidden(text[k])
  {
    var base, rest := PathShape(raw);
    UnderIsLineSafe(base, Shown(rest));
    SafeHasNoBackslash(Under(base, Shown(rest)));
    SafeIsText(Display(Components(raw)));
    hide LineSafe, Components, Display, EncodeAll;
  }

  lemma AbsoluteHasNoScheme(input: Bytes)
    requires IsAbsolute(input)
    ensures UriScheme(input).None?
  {
  }

  lemma PlainNames(rest: seq<Component>)
    requires AllOrdinary(rest)
    ensures Named(Plain(rest)) == rest
  {
    forall k | 0 <= k < |rest| ensures Named(Plain(rest))[k] == rest[k] {
      SegmentsAreSegments(rest[k]);
    }
  }

  /** Splitting a display and decoding its components gives an equal path, whatever the bytes. */
  lemma {:induction false} DisplayDecodes(raw: Bytes)
    requires 0 !in raw
    ensures ForwardSlashes(Display(Components(raw))) == Display(Components(raw))
    ensures Rebuild(Components(Display(Components(raw)))).Some?
    ensures Components(Rebuild(Components(Display(Components(raw)))).value) == Components(raw)
  {
    var base, rest := PathShape(raw);
    DisplayIsLineSafe(raw);
    assert ForwardSlashes(Display(Components(raw))) == Display(Components(raw));
    hide *;
    UnderComponents(base, Shown(rest));
    RebuildIsUnder(base, rest);
    UnderComponents(base, Plain(rest));
    PlainNames(rest);
  }

  /**
   Reading a display gives an equal path, whatever its bytes, if and only if
   the display is not taken for a URI; that of an absolute path never is.
   */
  lemma {:induction false} ParseDisplayRoundTrip(raw: Bytes)
    requires 0 !in raw
    ensures UriScheme(Display(Components(raw))).None? <==>
            Parse(Display(Components(raw))).Path? && Components(Parse(Display(Components(raw))).raw) == Components(raw)
    ensures IsAbsolute(raw) ==> UriScheme(Display(Components(raw))).None?
  {
    DisplayDecodes(raw);
    var base, rest := PathShape(raw);
    UnderShape(base, Shown(rest));
    if IsAbsolute(raw) { AbsoluteHasNoScheme(Display(Components(raw))); }
    hide UriScheme, Display, Components, ForwardSlashes, Rebuild;
  }

  lemma {:induction false} ColonOfAppend(a: Bytes, b: Bytes)
    ensures FirstColon(a).Some? ==> FirstColon(a).value < |a| && FirstColon(a + b) == FirstColon(a)
    ensures FirstColon(a).None? && FirstColon(a + b).Some? ==> FirstColon(a + b).value >= |a|
  {
    if a == [] {
      assert a + b == b;
    } else {
      assert (a + b)[1..] == a[1..] + b;
      ColonOfAppend(a[1..], b);
    }
  }

  /** What follows a slash has no part in a scheme. */
  lemma SchemeOfAppend(display: Bytes, s: Bytes)
    requires display != [] && display[|display| - 1] != SLASH
    ensures UriScheme(AppendDisplay(display, s)).Some? <==> UriScheme(display).Some?
  {
    var whole := display + ([SLASH] + s);
    assert AppendDisplay(display, s) == whole;
    ColonOfAppend(display, [SLASH] + s);
    hide FirstColon;
    assert whole[|display|] == SLASH && !IsSchemeByte(SLASH);
    assert FirstColon(display).None? && FirstColon(whole).Some? ==> FirstColon(whole).value != |display| by {
      ColonIsColon(whole);
    }
    assert forall k :: 0 <= k < |display| ==> whole[k] == display[k];
  }

  lemma {:induction false} ColonIsColon(b: Bytes)
    ensures FirstColon(b).Some? ==> FirstColon(b).value < |b| && b[FirstColon(b).value] == COLON
  {
    if b != [] { ColonIsColon(b[1..]); }
  }

  /** The first segment, with its base, decides whether there is a scheme. */
  lemma {:induction false} SchemeIsFirst(base: Bytes, segments: seq<Bytes>)
    requires IsBase(base) && segments != [] && forall k :: 0 <= k < |segments| ==> IsSegment(segments[k])
    ensures UriScheme(Under(base, segments)).Some? <==> base == [] && UriScheme(segments[0]).Some?
  {
    var before, last := segments[..|segments| - 1], segments[|segments| - 1];
    if before == [] {
      assert Under(base, before) == base;
      assert base == [] ==> AppendDisplay(base, last) == last;
    } else {
      UnderShape(base, before);
      SchemeIsFirst(base, before);
      hide *;
      SchemeOfAppend(Under(base, before), last);
      UnderLast(base, before, last);
      assert segments == before + [last];
    }
  }

  /** A scheme is what stands before the first colon: two or more letters, digits, "+", "-" or ".", a letter first. */
  lemma {:induction false} SchemeIs(input: Bytes, scheme: Bytes)
    ensures UriScheme(input) == Some(scheme) <==>
            && |scheme| >= 2 && scheme + [58] <= input
            && (65 <= scheme[0] <= 90 || 97 <= scheme[0] <= 122)
            && forall k :: 0 <= k < |scheme| ==>
                 || 65 <= scheme[k] <= 90 || 97 <= scheme[k] <= 122 || 48 <= scheme[k] <= 57
                 || scheme[k] == 43 || scheme[k] == 45 || scheme[k] == 46
  {
    ColonIsColon(input);
    if |scheme| < |input| && scheme + [58] <= input && forall k :: 0 <= k < |scheme| ==> scheme[k] != COLON {
      FirstColonAt(input, |scheme|);
    }
    hide FirstColon;
    if UriScheme(input) == Some(scheme) {
      assert input[..|scheme| + 1] == scheme + [58];
      assert forall k :: 0 <= k < |scheme| ==> scheme[k] == input[k];
    }
    if scheme + [58] <= input {
      assert input[..|scheme|] == scheme;
      assert forall k :: 0 <= k < |scheme| ==> scheme[k] == input[k];
    }
  }

  lemma {:induction false} FirstColonAt(input: Bytes, n: nat)
    requires n < |input| && input[n] == COLON && forall k :: 0 <= k < n ==> input[k] != COLON
    ensures FirstColon(input) == Some(n)
  {
    if n > 0 { FirstColonAt(input[1..], n - 1); }
  }

  /** An input with a scheme is a file URI exactly if the scheme reads "file" in either case, and else refused. */
  lemma {:induction false} SchemesAreTold(input: Bytes)
    requires UriScheme(input).Some?
    ensures Parse(input) == if LowerCase(UriScheme(input).value) == [102, 105, 108, 101] then FileUri else UnsupportedScheme
  {
    var scheme := UriScheme(input).value;
    hide UriScheme;
    if |scheme| == 4 {
      assert LowerCase(scheme) == [LowerCase(scheme)[0], LowerCase(scheme)[1], LowerCase(scheme)[2], LowerCase(scheme)[3]];
    }
  }

  function LowerCase(b: Bytes): (r: Bytes)
    ensures |r| == |b|
  {
    seq(|b|, k requires 0 <= k < |b| => if 65 <= b[k] <= 90 then b[k] + 32 else b[k])
  }

  /** A path is taken for a URI exactly if its first component is a plain name that starts like one. */
  lemma {:induction false} OnlyFirstNameReadsAsUri(raw: Bytes)
    requires 0 !in raw
    ensures UriScheme(Display(Components(raw))).Some? <==>
            && Components(raw) != [] && Components(raw)[0].Normal?
            && ComponentIsSafe(Components(raw)[0].name) && UriScheme(Components(raw)[0].name).Some?
  {
    var base, rest := PathShape(raw);
    if rest == [] {
      assert Under(base, Shown(rest)) == base;
    } else {
      SchemeIsFirst(base, Shown(rest));
      hide Components, Display, Under, Ordinary, IsSegment, LineSafe;
      assert Shown(rest)[0] == ShownSegment(rest[0]);
      TokenHasNoScheme(rest[0]);
    }
  }

  lemma TokenHasNoScheme(c: Component)
    requires Ordinary(c)
    ensures UriScheme(ShownSegment(c)).Some? <==> c.Normal? && ComponentIsSafe(c.name) && UriScheme(c.name).Some?
  {
    hide LineSafe;
    if c.Normal? && !ComponentIsSafe(c.name) { assert TokenOf(c.name)[0] == TILDE; }
  }

  /** A safe name on its own is shown as it is. */
  lemma LoneNameIsShown(name: Bytes)
    requires IsSegment(name) && name != DOT_DOT && ComponentIsSafe(name)
    ensures Components(name) == [Normal(name)] && Display(Components(name)) == name
  {
    FirstSegment(name);
    hide IsSegment, ComponentIsSafe, Components;
    DisplayLast([], Normal(name));
    assert [] + [Normal(name)] == [Normal(name)] && Display([]) == [];
  }

  lemma SchemeOfWitness(b: Bytes)
    requires b == [0x61, 0x62, COLON, 0x63]
    ensures UriScheme(b) == Some(b[..2])
  {
    assert FirstColon(b[1..][1..]) == Some(0) && FirstColon(b[1..]) == Some(1);
    assert FirstColon(b) == Some(2);
    hide FirstColon;
  }

  /** A relative path can be taken for a URI: "ab:c" is shown as it is, and refused as a scheme. */
  lemma RelativePathMayReadAsUri()
    ensures var raw: Bytes := [0x61, 0x62, COLON, 0x63];
      Components(raw) == [Normal(raw)] && Display(Components(raw)) == raw && Parse(raw) == UnsupportedScheme
  {
    var raw: Bytes := [0x61, 0x62, COLON, 0x63];
    PlainIsLineSafe(raw);
    hide FirstColon, LineSafe, UriScheme, Components, Display;
    LoneNameIsShown(raw);
    SchemeOfWitness(raw);
  }

  /** Different paths are never shown alike. */
  lemma {:induction false} DisplayIsInjective(a: Bytes, b: Bytes)
    requires 0 !in a && 0 !in b
    requires Display(Components(a)) == Display(Components(b))
    ensures Components(a) == Components(b)
  {
    DisplayDecodes(a);
    DisplayDecodes(b);
  }
}

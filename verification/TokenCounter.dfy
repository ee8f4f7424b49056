/**
 Exact incremental token counting, after `budget.rs`. The tokenizer is a
 parameter: how it splits text into pieces and counts a piece is unknown. What
 the counting needs is said cut by cut: text that is appended there changes no
 piece but the last.
 */
module TokenCounter {
  import opened Wrappers

  datatype Tokenizer = Tokenizer(
    split: string -> seq<string>,
    count: string -> nat,
    normalize: string -> string)

  function Flat(pieces: seq<string>): string {
    if pieces == [] then "" else pieces[0] + Flat(pieces[1..])
  }

  function Init<T>(s: seq<T>): seq<T>
    requires s != []
  {
    s[..|s| - 1]
  }

  function Last<T>(s: seq<T>): T
    requires s != []
  {
    s[|s| - 1]
  }

  /** Splitting loses nothing. */
  ghost predicate Lawful(tok: Tokenizer) {
    (forall s :: Flat(tok.split(s)) == s) && tok.split("") == []
  }

  /** Appending `t` to `s` reopens the last piece of `s` and no other. */
  ghost predicate Cut(tok: Tokenizer, s: string, t: string) {
    tok.split(s) != [] ==> tok.split(s + t) == Init(tok.split(s)) + tok.split(Last(tok.split(s)) + t)
  }

  /** A place in a text where the renderers cut it: an end, or next to a line feed. */
  predicate IsBreak(text: string, at: nat) {
    at <= |text| && (at == 0 || at == |text| || text[at - 1] == '\n' || text[at] == '\n')
  }

  /** The text may be counted in the parts that the renderers make of it. */
  ghost predicate CutsWell(tok: Tokenizer, text: string) {
    forall i: nat, j: nat :: i <= j && IsBreak(text, i) && IsBreak(text, j) ==> Cut(tok, text[..i], text[i..j])
  }

  lemma CutApart(tok: Tokenizer, text: string, s: string, t: string)
    requires CutsWell(tok, text) && s + t <= text && IsBreak(text, |s|) && IsBreak(text, |s + t|)
    ensures Cut(tok, s, t)
  {
    assert text[..|s|] == s && text[|s|..|s + t|] == t by {
      assert text[..|s + t|] == s + t;
    }
  }

  /** The locked tokenizer leaves text as it is. */
  ghost predicate Plain(tok: Tokenizer) {
    forall s :: tok.normalize(s) == s
  }

  function Sum(tok: Tokenizer, pieces: seq<string>): nat {
    if pieces == [] then 0 else Sum(tok, Init(pieces)) + tok.count(Last(pieces))
  }

  /** `estimate_tokens`: the count of the whole text, tokenized in one go. */
  function FullCount(tok: Tokenizer, text: string): nat {
    Sum(tok, tok.split(text))
  }

  datatype TokenCheckpoint = TokenCheckpoint(committedTokens: nat, unresolvedTail: string)

  datatype TokenCountError = Overflow | UnsupportedNormalization

  /** What the counter must hold after exactly `text`: all pieces but the last are committed. */
  function CheckpointOf(tok: Tokenizer, text: string): TokenCheckpoint {
    var pieces := tok.split(text);
    if pieces == [] then TokenCheckpoint(0, "") else TokenCheckpoint(Sum(tok, Init(pieces)), Last(pieces))
  }

  lemma {:induction false} SumOfAppend(tok: Tokenizer, a: seq<string>, b: seq<string>)
    ensures Sum(tok, a + b) == Sum(tok, a) + Sum(tok, b)
  {
    if b == [] {
      assert a + b == a;
    } else {
      assert Init(a + b) == a + Init(b);
      SumOfAppend(tok, a, Init(b));
    }
  }

  lemma NonemptySplits(tok: Tokenizer, s: string)
    requires Lawful(tok)
    ensures tok.split(s) == [] <==> s == ""
  {
    assert Flat(tok.split(s)) == s;
  }

  /** Re-splitting only the tail is enough to split the longer text. */
  lemma SplitOfAppend(tok: Tokenizer, text: string, suffix: string)
    requires Lawful(tok) && Cut(tok, text, suffix)
    ensures var tail := CheckpointOf(tok, text).unresolvedTail;
      tok.split(text + suffix) ==
      (if tok.split(text) == [] then [] else Init(tok.split(text))) + tok.split(tail + suffix)
  {
    NonemptySplits(tok, text);
    if text == "" { assert text + suffix == suffix && "" + suffix == suffix; }
  }

  /** Committed tokens plus the count of the tail and a suffix count the whole text exactly. */
  lemma {:induction false} CountWithSuffixIsExact(tok: Tokenizer, text: string, suffix: string)
    requires Lawful(tok) && Cut(tok, text, suffix)
    ensures var checkpoint := CheckpointOf(tok, text);
      checkpoint.committedTokens + FullCount(tok, checkpoint.unresolvedTail + suffix) == FullCount(tok, text + suffix)
  {
    SplitOfAppend(tok, text, suffix);
    var pieces := tok.split(text);
    SumOfAppend(tok, if pieces == [] then [] else Init(pieces), tok.split(CheckpointOf(tok, text).unresolvedTail + suffix));
  }

  /** A checkpoint alone is enough to continue: equal checkpoints have equal continuations. */
  lemma {:induction false} CheckpointOfAppend(tok: Tokenizer, text: string, fragment: string)
    requires Lawful(tok) && Cut(tok, text, fragment) && fragment != ""
    ensures var checkpoint := CheckpointOf(tok, text);
      var pieces := tok.split(checkpoint.unresolvedTail + fragment);
      && pieces != []
      && CheckpointOf(tok, text + fragment)
         == TokenCheckpoint(checkpoint.committedTokens + Sum(tok, Init(pieces)), Last(pieces))
  {
    var tail := CheckpointOf(tok, text).unresolvedTail;
    var pieces := tok.split(tail + fragment);
    SplitOfAppend(tok, text, fragment);
    NonemptySplits(tok, tail + fragment);
    var before := if tok.split(text) == [] then [] else Init(tok.split(text));
    assert Init(before + pieces) == before + Init(pieces);
    SumOfAppend(tok, before, Init(pieces));
  }

  /** Committed tokens only grow, and never exceed the full count. */
  lemma {:induction false} CommittedGrows(tok: Tokenizer, text: string, fragment: string)
    requires Lawful(tok) && Cut(tok, text, fragment)
    ensures CheckpointOf(tok, text).committedTokens <= CheckpointOf(tok, text + fragment).committedTokens
    ensures CheckpointOf(tok, text + fragment).committedTokens <= FullCount(tok, text + fragment)
  {
    if fragment == "" {
      assert text + fragment == text;
    } else {
      CheckpointOfAppend(tok, text, fragment);
    }
    hide Lawful;
  }

  /** The count of a text that must fit the machine word and survive normalization unchanged. */
  function Counted(tok: Tokenizer, text: string): Result<nat, TokenCountError> {
    if tok.normalize(text) != text then Err(UnsupportedNormalization)
    else if FullCount(tok, text) > WORD_MAX then Err(Overflow)
    else Ok(FullCount(tok, text))
  }

  /** The outcome of counting `suffix` behind a checkpoint. */
  function CountedBehind(tok: Tokenizer, checkpoint: TokenCheckpoint, suffix: string): Result<nat, TokenCountError> {
    match Counted(tok, checkpoint.unresolvedTail + suffix)
    case Err(error) => Err(error)
    case Ok(more) =>
      if checkpoint.committedTokens + more > WORD_MAX then Err(Overflow) else Ok(checkpoint.committedTokens + more)
  }

  /** Counting behind a checkpoint counts the whole text. */
  lemma {:induction false} CountedBehindIsExact(tok: Tokenizer, prefix: string, suffix: string)
    requires Lawful(tok) && Cut(tok, prefix, suffix)
    ensures var r := CountedBehind(tok, CheckpointOf(tok, prefix), suffix);
      && (r.Ok? ==> r.value == FullCount(tok, prefix + suffix))
      && (Plain(tok) ==> r == if FullCount(tok, prefix + suffix) > WORD_MAX then Err(Overflow)
                              else Ok(FullCount(tok, prefix + suffix)))
  {
    CountWithSuffixIsExact(tok, prefix, suffix);
  }

  /** `count_exact_pieces`. */
  method CountExactPieces(tok: Tokenizer, text: string) returns (r: Result<nat, TokenCountError>)
    ensures r == Counted(tok, text)
  {
    if tok.normalize(text) != text { return Err(UnsupportedNormalization); }
    var pieces := tok.split(text);
    var total := 0;
    for k := 0 to |pieces|
      invariant total == Sum(tok, pieces[..k]) <= WORD_MAX
    {
      assert Init(pieces[..k + 1]) == pieces[..k];
      SumGrows(tok, pieces, k + 1);
      if total + tok.count(pieces[k]) > WORD_MAX { return Err(Overflow); }
      total := total + tok.count(pieces[k]);
    }
    assert pieces[..|pieces|] == pieces;
    r := Ok(total);
  }

  lemma {:induction false} SumGrows(tok: Tokenizer, pieces: seq<string>, k: nat)
    requires k <= |pieces|
    ensures Sum(tok, pieces[..k]) <= Sum(tok, pieces)
  {
    SumOfAppend(tok, pieces[..k], pieces[k..]);
    assert pieces == pieces[..k] + pieces[k..];
  }

  /** A checkpoint after one more fragment: pieces it closes are committed, the last one stays open. */
  function Appended(tok: Tokenizer, checkpoint: TokenCheckpoint, fragment: string): Result<TokenCheckpoint, TokenCountError> {
    var combined := checkpoint.unresolvedTail + fragment;
    var pieces := tok.split(combined);
    if fragment == "" then Ok(checkpoint)
    else if tok.normalize(combined) != combined then Err(UnsupportedNormalization)
    else if pieces == [] then Ok(TokenCheckpoint(checkpoint.committedTokens, ""))
    else if |pieces| > 1 && checkpoint.committedTokens + Sum(tok, Init(pieces)) > WORD_MAX then Err(Overflow)
    else Ok(TokenCheckpoint(checkpoint.committedTokens + Sum(tok, Init(pieces)), Last(pieces)))
  }

  /** Appending to the checkpoint of a text gives the checkpoint of the longer text, if that fits the machine word. */
  lemma {:induction false} AppendedIsExact(tok: Tokenizer, text: string, fragment: string)
    requires Lawful(tok) && Cut(tok, text, fragment)
    ensures var r := Appended(tok, CheckpointOf(tok, text), fragment);
      && (r.Ok? ==> r.value == CheckpointOf(tok, text + fragment))
      && (r.Err? && Plain(tok) ==> r.error == Overflow && CheckpointOf(tok, text + fragment).committedTokens > WORD_MAX)
  {
    if fragment == "" {
      assert text + fragment == text;
    } else {
      CheckpointOfAppend(tok, text, fragment);
    }
    hide Lawful, Cut, Sum, CheckpointOf;
  }

  // ----- which pieces are counted

  /** A checkpoint before its pieces are counted: those closed so far, and the open end. */
  datatype OpenPrefix = OpenPrefix(closed: seq<string>, tail: string)

  function OpenOf(tok: Tokenizer, text: string): OpenPrefix {
    var pieces := tok.split(text);
    if pieces == [] then OpenPrefix([], "") else OpenPrefix(Init(pieces), Last(pieces))
  }

  /** One more fragment closes all pieces but the last of tail and fragment. */
  function Reopened(tok: Tokenizer, open: OpenPrefix, fragment: string): OpenPrefix {
    var pieces := tok.split(open.tail + fragment);
    if fragment == "" then open
    else if pieces == [] then OpenPrefix(open.closed, "")
    else OpenPrefix(open.closed + Init(pieces), Last(pieces))
  }

  /** Every piece that is counted when `suffix` is counted behind the prefix. */
  function Behind(tok: Tokenizer, open: OpenPrefix, suffix: string): seq<string> {
    open.closed + tok.split(open.tail + suffix)
  }

  function CheckpointAt(tok: Tokenizer, open: OpenPrefix): TokenCheckpoint {
    TokenCheckpoint(Sum(tok, open.closed), open.tail)
  }

  lemma OpenCheckpoint(tok: Tokenizer, text: string)
    ensures CheckpointOf(tok, text) == CheckpointAt(tok, OpenOf(tok, text))
  {
  }

  /** Appending counts exactly the pieces that it closes. */
  lemma AppendedCounts(tok: Tokenizer, open: OpenPrefix, fragment: string)
    ensures var r, after := Appended(tok, CheckpointAt(tok, open), fragment), Reopened(tok, open, fragment);
      && (r.Ok? ==> r.value == CheckpointAt(tok, after))
      && (r.Err? && Plain(tok) ==> r.error == Overflow && Sum(tok, after.closed) > WORD_MAX)
      && Sum(tok, open.closed) <= Sum(tok, after.closed)
  {
    var pieces := tok.split(open.tail + fragment);
    if pieces != [] { SumOfAppend(tok, open.closed, Init(pieces)); }
  }

  /** Counting behind a checkpoint counts exactly these pieces. */
  lemma {:induction false} CountedBehindCounts(tok: Tokenizer, open: OpenPrefix, suffix: string)
    ensures var r, total := CountedBehind(tok, CheckpointAt(tok, open), suffix), Sum(tok, Behind(tok, open, suffix));
      && (r.Ok? ==> r.value == total)
      && (Plain(tok) ==> r == if total > WORD_MAX then Err(Overflow) else Ok(total))
  {
    SumOfAppend(tok, open.closed, tok.split(open.tail + suffix));
  }

  /** The same splitting with other counts per piece. */
  function With(tok: Tokenizer, count: string -> nat): Tokenizer {
    tok.(count := count)
  }

  /** However pieces are counted, both lists come to the same sum. */
  ghost predicate SameSums(tok: Tokenizer, a: seq<string>, b: seq<string>) {
    forall count: string -> nat :: Sum(With(tok, count), a) == Sum(With(tok, count), b)
  }

  function Unit(piece: string): string -> nat {
    (s: string) => if s == piece then 1 else 0
  }

  lemma {:induction false} UnitCounts(tok: Tokenizer, pieces: seq<string>, piece: string)
    ensures Sum(With(tok, Unit(piece)), pieces) == multiset(pieces)[piece]
  {
    if pieces != [] {
      UnitCounts(tok, Init(pieces), piece);
      assert pieces == Init(pieces) + [Last(pieces)];
    }
  }

  lemma TakeOut<X>(b: seq<X>, x: X) returns (front: seq<X>, back: seq<X>)
    requires x in multiset(b)
    ensures b == front + [x] + back && multiset(front + back) == multiset(b) - multiset{x}
  {
    var k :| 0 <= k < |b| && b[k] == x;
    front, back := b[..k], b[k + 1..];
    assert b == front + [x] + back;
  }

  lemma {:induction false} SumOfPermutation(tok: Tokenizer, a: seq<string>, b: seq<string>)
    requires multiset(a) == multiset(b)
    ensures Sum(tok, a) == Sum(tok, b)
    decreases |a|
  {
    if a == [] {
      assert |multiset(b)| == |b| && |multiset(a)| == |a|;
    } else {
      var x := Last(a);
      assert a == Init(a) + [x];
      assert x in multiset(a);
      var front, back := TakeOut(b, x);
      assert multiset(front + back) == multiset(Init(a)) by { assert multiset(Init(a)) == multiset(a) - multiset{x}; }
      SumOfPermutation(tok, Init(a), front + back);
      SumOfAppend(tok, front, back);
      SumOfAppend(tok, front + [x], back);
      assert Init(front + [x]) == front;
    }
  }

  /** Two lists have the same sum for all counts if and only if they hold the same pieces. */
  lemma {:induction false} SumsAgree(tok: Tokenizer, a: seq<string>, b: seq<string>)
    ensures SameSums(tok, a, b) <==> multiset(a) == multiset(b)
  {
    if multiset(a) == multiset(b) {
      forall count: string -> nat ensures Sum(With(tok, count), a) == Sum(With(tok, count), b) {
        SumOfPermutation(With(tok, count), a, b);
      }
    }
    if SameSums(tok, a, b) {
      forall piece: string ensures multiset(a)[piece] == multiset(b)[piece] {
        UnitCounts(tok, a, piece);
        UnitCounts(tok, b, piece);
        assert Sum(With(tok, Unit(piece)), a) == Sum(With(tok, Unit(piece)), b);
      }
    }
  }

  /** Counting behind the checkpoint of `text` is exact for these counts. */
  ghost predicate ExactBehind(tok: Tokenizer, text: string, suffix: string) {
    var checkpoint := CheckpointOf(tok, text);
    checkpoint.committedTokens + FullCount(tok, checkpoint.unresolvedTail + suffix) == FullCount(tok, text + suffix)
  }

  /**
   Counting behind a checkpoint is exact however pieces are counted, if and
   only if re-splitting the tail with the suffix gives the pieces of the whole.
   */
  lemma {:induction false} CountWithSuffixIsExactIff(tok: Tokenizer, text: string, suffix: string)
    ensures (forall count: string -> nat :: ExactBehind(With(tok, count), text, suffix)) <==>
            multiset(Behind(tok, OpenOf(tok, text), suffix)) == multiset(tok.split(text + suffix))
  {
    var counted, whole := Behind(tok, OpenOf(tok, text), suffix), tok.split(text + suffix);
    forall count: string -> nat
      ensures ExactBehind(With(tok, count), text, suffix) <==> Sum(With(tok, count), counted) == Sum(With(tok, count), whole)
    {
      var open := OpenOf(tok, text);
      SumOfAppend(With(tok, count), open.closed, tok.split(open.tail + suffix));
    }
    SumsAgree(tok, counted, whole);
    hide OpenOf, Behind, ExactBehind;
    assert SameSums(tok, counted, whole) <==> forall count: string -> nat :: ExactBehind(With(tok, count), text, suffix);
  }

  /** Exact state of one rendered prefix. `text` is the prefix it stands for. */
  class ExactPrefixCounter {
    const tok: Tokenizer
    var committedTokens: nat
    var unresolvedTail: string
    ghost var text: string

    ghost predicate Valid()
      reads this
    {
      Lawful(tok) && TokenCheckpoint(committedTokens, unresolvedTail) == CheckpointOf(tok, text)
    }

    constructor (tok: Tokenizer)
      requires Lawful(tok)
      ensures Valid() && text == "" && this.tok == tok && Checkpoint() == TokenCheckpoint(0, "")
    {
      this.tok := tok;
      committedTokens, unresolvedTail, text := 0, "", "";
    }

    /** Restores the state of an earlier prefix. */
    constructor FromCheckpoint(tok: Tokenizer, checkpoint: TokenCheckpoint, ghost prefix: string)
      requires Lawful(tok)
      ensures Checkpoint() == checkpoint && text == prefix && this.tok == tok
      ensures checkpoint == CheckpointOf(tok, prefix) ==> Valid()
    {
      this.tok := tok;
      committedTokens, unresolvedTail, text := checkpoint.committedTokens, checkpoint.unresolvedTail, prefix;
    }

    function Checkpoint(): TokenCheckpoint
      reads this
    {
      TokenCheckpoint(committedTokens, unresolvedTail)
    }

    /** Commits every piece that the fragment closes; keeps the last one open. */
    method Append(fragment: string) returns (r: Result<(), TokenCountError>)
      requires Lawful(tok)
      modifies this
      ensures text == old(text) + fragment
      ensures match Appended(tok, old(Checkpoint()), fragment)
              case Ok(after) => r == Ok(()) && Checkpoint() == after
              case Err(error) => r == Err(error)
      ensures old(Valid()) && Cut(tok, old(text), fragment) ==>
                && (r.Ok? ==> Valid())
                && (r.Err? && Plain(tok) ==> r.error == Overflow && CheckpointOf(tok, text).committedTokens > WORD_MAX)
    {
      if Valid() && Cut(tok, text, fragment) { AppendedIsExact(tok, text, fragment); }
      hide Lawful, Sum, Plain, Cut, CheckpointOf;
      text := text + fragment;
      if fragment == "" {
        assert text == old(text);
        return Ok(());
      }
      var combined := unresolvedTail + fragment;
      if tok.normalize(combined) != combined {
        return Err(UnsupportedNormalization);
      }
      var pieces := tok.split(combined);
      NonemptySplits(tok, combined);
      var pending := pieces[0];
      NothingCloses(tok, pieces);
      ghost var before := committedTokens;
      for k := 1 to |pieces|
        invariant pending == pieces[k - 1] && text == old(text) + fragment
        invariant committedTokens == before + Sum(tok, pieces[..k - 1])
        invariant k > 1 ==> committedTokens <= WORD_MAX
      {
        PieceCloses(tok, pieces, k);
        if committedTokens + tok.count(pending) > WORD_MAX { return Err(Overflow); }
        committedTokens := committedTokens + tok.count(pending);
        pending := pieces[k];
      }
      unresolvedTail := pending;
      r := Ok(());
    }
  }

  lemma NothingCloses(tok: Tokenizer, pieces: seq<string>)
    requires pieces != []
    ensures Sum(tok, pieces[..0]) == 0
    ensures pieces[..|pieces| - 1] == Init(pieces)
  {
  }

  lemma PieceCloses(tok: Tokenizer, pieces: seq<string>, k: nat)
    requires 0 < k < |pieces|
    ensures Sum(tok, pieces[..k]) == Sum(tok, pieces[..k - 1]) + tok.count(pieces[k - 1])
    ensures Sum(tok, pieces[..k]) <= Sum(tok, Init(pieces))
  {
    assert Init(pieces[..k]) == pieces[..k - 1];
    SumGrows(tok, Init(pieces), k);
    assert Init(pieces)[..k] == pieces[..k];
  }

  /** Counts a suffix behind a checkpoint without looking at the prefix again. */
  method CountWithSuffix(tok: Tokenizer, checkpoint: TokenCheckpoint, suffix: string)
    returns (r: Result<nat, TokenCountError>)
    ensures r == CountedBehind(tok, checkpoint, suffix)
  {
    var more :- CountExactPieces(tok, checkpoint.unresolvedTail + suffix);
    if checkpoint.committedTokens + more > WORD_MAX { return Err(Overflow); }
    r := Ok(checkpoint.committedTokens + more);
  }

  lemma Regroup(a: string, b: string, c: string)
    ensures a + (b + c) == a + b + c
  {
  }

  /** Every fragment is cut off well from those before it. */
  ghost predicate CutsApart(tok: Tokenizer, fragments: seq<string>) {
    forall k :: 0 <= k < |fragments| ==> Cut(tok, Flat(fragments[..k]), fragments[k])
  }

  lemma {:induction false} FlatNext(fragments: seq<string>, k: nat)
    requires k < |fragments|
    ensures Flat(fragments[..k + 1]) == Flat(fragments[..k]) + fragments[k]
  {
    if k == 0 {
      assert fragments[..1][1..] == [] && fragments[0] + "" == fragments[0] && "" + fragments[0] == fragments[0];
    } else {
      FlatNext(fragments[1..], k - 1);
      assert fragments[..k + 1][1..] == fragments[1..][..k] && fragments[..k][1..] == fragments[1..][..k - 1];
      Regroup(fragments[0], Flat(fragments[1..][..k - 1]), fragments[k]);
    }
  }

  /** After any sequence of appends the state is that of the concatenation, however it was cut up. */
  method AppendAll(tok: Tokenizer, fragments: seq<string>) returns (r: Result<TokenCheckpoint, TokenCountError>)
    requires Lawful(tok) && CutsApart(tok, fragments)
    ensures r.Ok? ==> r.value == CheckpointOf(tok, Flat(fragments))
    ensures r.Err? && Plain(tok) ==> r.error == Overflow
  {
    hide Lawful, CheckpointOf, Cut, Plain;
    var counter := new ExactPrefixCounter(tok);
    for k := 0 to |fragments|
      invariant fresh(counter) && counter.Valid() && counter.tok == tok
      invariant counter.text == Flat(fragments[..k])
    {
      FlatNext(fragments, k);
      var appended :- counter.Append(fragments[k]);
    }
    assert fragments[..|fragments|] == fragments;
    r := Ok(counter.Checkpoint());
  }
}

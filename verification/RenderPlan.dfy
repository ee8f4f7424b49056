/**
 The render graphs of `render_plan.rs`: lines, a shared prefix trie of line
 views, and diagnostic details, each with a tokenizer checkpoint per prefix.
 A probe must count exactly the text that `finish` will assemble.
 */
module RenderPlan {
  import opened Wrappers
  import opened TokenCounter

  datatype RenderPlanError =
    | Token(error: TokenCountError)
    | InvalidPrefix(shown: nat, available: nat)
    | InvalidTerminal
    | CountMismatch(incremental: nat, full: nat)
    | OverBudget(tokens: nat, budget: nat)

  datatype VerifiedRender = VerifiedRender(text: string, tokens: nat)

  // ----- the text that is shown

  /** Lines separated by line feeds. */
  function Joined(lines: seq<string>): string {
    if lines == [] then ""
    else if |lines| == 1 then lines[0]
    else Joined(Init(lines)) + "\n" + Last(lines)
  }

  /** What stands between existing text and a further note. */
  function Separator(hasBody: bool, existingNotes: nat): string {
    if existingNotes > 0 then "\n" else if hasBody then "\n\n" else ""
  }

  /** Notes below a body, as one suffix. */
  function Continuation(hasBody: bool, existingNotes: nat, notes: seq<string>): string {
    if notes == [] then "" else Separator(hasBody, existingNotes) + Joined(notes)
  }

  /** The whole response: body lines, then notes. */
  function Assembled(lines: seq<string>, notes: seq<string>): string {
    Joined(lines) + Continuation(lines != [], 0, notes)
  }

  lemma {:induction false} JoinedSplits(a: seq<string>, b: seq<string>)
    requires a != [] && b != []
    ensures Joined(a + b) == Joined(a) + "\n" + Joined(b)
  {
    JoinedLast(a + b);
    if |b| == 1 {
      assert Init(a + b) == a;
    } else {
      hide Joined;
      JoinedLast(b);
      assert Init(a + b) == a + Init(b) && Last(a + b) == Last(b);
      JoinedSplits(a, Init(b));
      var front, back := Joined(a) + "\n", Joined(Init(b));
      Regroup(front, back, "\n");
      Regroup(front, back + "\n", Last(b));
    }
  }

  lemma JoinedLast(lines: seq<string>)
    requires |lines| >= 2
    ensures Joined(lines) == Joined(Init(lines)) + "\n" + Last(lines)
  {
  }

  /** Notes can be appended in two goes. */
  lemma {:induction false} ContinuationSplits(hasBody: bool, a: seq<string>, b: seq<string>)
    ensures Continuation(hasBody, 0, a + b) == Continuation(hasBody, 0, a) + Continuation(hasBody, |a|, b)
  {
    if a == [] {
      assert a + b == b;
    } else if b == [] {
      assert a + b == a;
    } else {
      JoinedSplits(a, b);
    }
  }

  lemma ContinuationNext(hasBody: bool, notes: seq<string>, k: nat)
    requires k < |notes|
    ensures Continuation(hasBody, 0, notes[..k + 1])
         == Continuation(hasBody, 0, notes[..k]) + (Separator(hasBody, k) + notes[k])
  {
    assert notes[..k + 1] == notes[..k] + [notes[k]];
    ContinuationSplits(hasBody, notes[..k], [notes[k]]);
  }

  lemma NothingJoined()
    ensures Joined([]) == ""
  {
  }

  lemma {:induction false} JoinedPrefix(lines: seq<string>, k: nat)
    requires k <= |lines|
    ensures Joined(lines[..k]) <= Joined(lines)
    decreases |lines| - k
  {
    if k < |lines| {
      JoinedNext(lines, k);
      JoinedPrefix(lines, k + 1);
    } else {
      assert lines[..k] == lines;
    }
  }

  lemma {:induction false} ContinuationPrefix(hasBody: bool, notes: seq<string>, k: nat)
    requires k <= |notes|
    ensures Continuation(hasBody, 0, notes[..k]) <= Continuation(hasBody, 0, notes)
    decreases |notes| - k
  {
    if k < |notes| {
      ContinuationNext(hasBody, notes, k);
      ContinuationPrefix(hasBody, notes, k + 1);
      hide Continuation;
    } else {
      assert notes[..k] == notes;
    }
  }

  lemma JoinedNext(lines: seq<string>, k: nat)
    requires k < |lines|
    ensures Joined(lines[..k + 1]) == Joined(lines[..k]) + (if k > 0 then "\n" else "") + lines[k]
  {
    assert Init(lines[..k + 1]) == lines[..k];
  }

  /** `render_notes_suffix` and `render_continuation_suffix`. */
  method RenderContinuation(hasBody: bool, existingNotes: nat, lines: seq<string>) returns (suffix: string)
    ensures suffix == Continuation(hasBody, existingNotes, lines)
  {
    if lines == [] { return ""; }
    suffix := Separator(hasBody, existingNotes);
    for k := 0 to |lines|
      invariant suffix == Separator(hasBody, existingNotes) + Joined(lines[..k])
    {
      JoinedNext(lines, k);
      if k > 0 { suffix := suffix + "\n"; }
      suffix := suffix + lines[k];
    }
    assert lines[..|lines|] == lines;
  }

  /** The final text, pushed piece by piece. */
  method AssembleText(lines: seq<string>, notes: seq<string>) returns (text: string)
    ensures text == Assembled(lines, notes)
  {
    text := "";
    for k := 0 to |lines|
      invariant text == Joined(lines[..k])
    {
      JoinedNext(lines, k);
      if k > 0 { text := text + "\n"; }
      text := text + lines[k];
    }
    assert lines[..|lines|] == lines;
    if notes != [] {
      if lines != [] { text := text + "\n\n"; }
      for k := 0 to |notes|
        invariant text == Joined(lines) + Separator(lines != [], 0) + Joined(notes[..k])
      {
        JoinedNext(notes, k);
        if k > 0 { text := text + "\n"; }
        text := text + notes[k];
      }
      assert notes[..|notes|] == notes;
    }
  }

  /** The text was counted in full and fits, whatever the tokenizer does at cuts. */
  ghost predicate Verified(tok: Tokenizer, text: string, budget: nat, render: VerifiedRender) {
    render.text == text && render.tokens == FullCount(tok, text) <= budget
  }

  /** What every `finish` answers about its assembled text: one independent count decides. */
  function Finished(tok: Tokenizer, text: string, incremental: nat, budget: nat): Result<VerifiedRender, RenderPlanError> {
    var full := FullCount(tok, text);
    if full != incremental then Err(CountMismatch(incremental, full))
    else if full > budget then Err(OverBudget(full, budget))
    else Ok(VerifiedRender(text, full))
  }

  method FinishText(tok: Tokenizer, text: string, incremental: nat, budget: nat)
    returns (r: Result<VerifiedRender, RenderPlanError>)
    ensures r == Finished(tok, text, incremental, budget)
  {
    var full := FullCount(tok, text);
    if full != incremental { return Err(CountMismatch(incremental, full)); }
    if full > budget { return Err(OverBudget(full, budget)); }
    r := Ok(VerifiedRender(text, full));
  }

  // ----- where the text is cut

  /** Each prefix of the lines ends at a break of the whole, and so does the line feed behind it. */
  lemma LineBreak(lines: seq<string>, k: nat)
    requires k <= |lines|
    ensures Joined(lines[..k]) <= Joined(lines) && IsBreak(Joined(lines), |Joined(lines[..k])|)
    ensures 0 < k < |lines| ==>
              && Joined(lines[..k]) + "\n" <= Joined(lines)
              && IsBreak(Joined(lines), |Joined(lines[..k]) + "\n"|)
  {
    JoinedPrefix(lines, k);
    assert lines[..|lines|] == lines;
    hide Joined;
    NothingJoined();
    if 0 < k < |lines| {
      JoinedNext(lines, k);
      JoinedPrefix(lines, k + 1);
    }
  }

  /** So does each prefix of the notes below a body, with or without the separator that follows. */
  lemma NoteBreak(body: string, hasBody: bool, notes: seq<string>, k: nat)
    requires k <= |notes| && (hasBody || body == "")
    ensures var whole, part := body + Continuation(hasBody, 0, notes), body + Continuation(hasBody, 0, notes[..k]);
      && part <= whole && IsBreak(whole, |part|)
      && (k < |notes| ==> part + Separator(hasBody, k) <= whole && IsBreak(whole, |part + Separator(hasBody, k)|))
  {
    ContinuationPrefix(hasBody, notes, k);
    assert notes[..|notes|] == notes;
    if k < |notes| {
      NoteNext(body, hasBody, notes, k);
      assert Continuation(hasBody, 0, notes[..0]) == "";
      hide Continuation;
    }
  }

  /** A body may be cut wherever the text with notes below it may be cut. */
  lemma BodyCutsWell(tok: Tokenizer, body: string, hasBody: bool, notes: seq<string>)
    requires CutsWell(tok, body + Continuation(hasBody, 0, notes)) && (hasBody || body == "")
    ensures CutsWell(tok, body)
  {
    var whole := body + Continuation(hasBody, 0, notes);
    NoteBreak(body, hasBody, notes, 0);
    assert notes[..0] == [] && body + Continuation(hasBody, 0, []) == body;
    hide Continuation;
    forall i: nat, j: nat | i <= j && IsBreak(body, i) && IsBreak(body, j) ensures Cut(tok, body[..i], body[i..j]) {
      assert IsBreak(whole, i) && IsBreak(whole, j);
      assert whole[..i] == body[..i] && whole[i..j] == body[i..j];
    }
  }

  // ----- probes

  /** A probe of `text`: its full count, or the tokenizer's own failure. */
  ghost predicate Probes(tok: Tokenizer, text: string, r: Result<nat, RenderPlanError>) {
    && (r.Ok? ==> r.value == FullCount(tok, text))
    && (r.Err? ==> r.error.Token?)
    && (Plain(tok) ==> r == if FullCount(tok, text) > WORD_MAX then Err(Token(Overflow)) else Ok(FullCount(tok, text)))
  }

  function SuffixProbe(tok: Tokenizer, checkpoint: TokenCheckpoint, suffix: string): Result<nat, RenderPlanError> {
    match CountedBehind(tok, checkpoint, suffix)
    case Ok(n) => Ok(n)
    case Err(error) => Err(Token(error))
  }

  lemma SuffixProbeIsExact(tok: Tokenizer, prefix: string, suffix: string)
    requires Lawful(tok) && Cut(tok, prefix, suffix)
    ensures Probes(tok, prefix + suffix, SuffixProbe(tok, CheckpointOf(tok, prefix), suffix))
  {
    CountedBehindIsExact(tok, prefix, suffix);
  }

  method ProbeSuffix(tok: Tokenizer, checkpoint: TokenCheckpoint, suffix: string) returns (r: Result<nat, RenderPlanError>)
    ensures r == SuffixProbe(tok, checkpoint, suffix)
  {
    var counted := CountWithSuffix(tok, checkpoint, suffix);
    r := match counted case Ok(n) => Ok(n) case Err(error) => Err(Token(error));
  }

  /** A plain tokenizer fails only if the text being built counts past the machine word. */
  ghost predicate Excused(tok: Tokenizer, whole: string, error: RenderPlanError) {
    && error.Token?
    && (Plain(tok) ==> error == Token(Overflow) && FullCount(tok, whole) > WORD_MAX)
  }

  lemma OverflowExcused(tok: Tokenizer, text: string, whole: string)
    requires Lawful(tok) && CutsWell(tok, whole) && text <= whole && IsBreak(whole, |text|)
    requires CheckpointOf(tok, text).committedTokens > WORD_MAX
    ensures FullCount(tok, whole) > WORD_MAX
  {
    assert text + whole[|text|..] == whole;
    CutApart(tok, whole, text, whole[|text|..]);
    CommittedGrows(tok, text, whole[|text|..]);
  }

  /** A fragment that ends at breaks of the text being built. */
  ghost predicate Fits(tok: Tokenizer, whole: string, text: string, fragment: string) {
    && CutsWell(tok, whole) && text + fragment <= whole
    && IsBreak(whole, |text|) && IsBreak(whole, |text + fragment|)
  }

  /** Appending such a fragment to the checkpoint is exact, or the whole text counts past the machine word. */
  lemma StepIsExact(tok: Tokenizer, whole: string, text: string, fragment: string)
    requires Lawful(tok) && Fits(tok, whole, text, fragment)
    ensures Cut(tok, text, fragment)
    ensures var r := Appended(tok, CheckpointOf(tok, text), fragment);
      && (r.Ok? ==> r.value == CheckpointOf(tok, text + fragment))
      && (r.Err? ==> Excused(tok, whole, Token(r.error)))
  {
    CutApart(tok, whole, text, fragment);
    AppendedIsExact(tok, text, fragment);
    if CheckpointOf(tok, text + fragment).committedTokens > WORD_MAX { OverflowExcused(tok, text + fragment, whole); }
    hide Lawful, CutsWell, Cut, Appended, CheckpointOf, FullCount;
  }

  /** `append_text`. */
  method AppendTo(counter: ExactPrefixCounter, fragment: string, ghost whole: string) returns (r: Result<(), RenderPlanError>)
    requires Lawful(counter.tok)
    modifies counter
    ensures counter.text == old(counter.text) + fragment
    ensures match Appended(counter.tok, old(counter.Checkpoint()), fragment)
            case Ok(after) => r == Ok(()) && counter.Checkpoint() == after
            case Err(error) => r == Err(Token(error))
    ensures old(counter.Valid()) && Fits(counter.tok, whole, old(counter.text), fragment) ==>
              (r.Ok? ==> counter.Valid()) && (r.Err? ==> Excused(counter.tok, whole, r.error))
  {
    ghost var tok := counter.tok;
    if counter.Valid() && Fits(tok, whole, counter.text, fragment) { StepIsExact(tok, whole, counter.text, fragment); }
    hide Lawful, CheckpointOf, FullCount, Plain, Appended, Cut, Excused, Fits;
    var appended := counter.Append(fragment);
    r := match appended case Ok(_) => Ok(()) case Err(error) => Err(Token(error));
  }

  // ----- lines

  /** Immutable lines with a checkpoint after each prefix. */
  datatype LineRenderGraph = LineRenderGraph(lines: seq<string>, checkpoints: seq<TokenCheckpoint>)

  ghost predicate LineGraphOk(tok: Tokenizer, graph: LineRenderGraph) {
    && |graph.checkpoints| == |graph.lines| + 1
    && (forall k :: 0 <= k <= |graph.lines| ==> graph.checkpoints[k] == CheckpointOf(tok, Joined(graph.lines[..k])))
  }

  /** Every checkpoint is the one that its prefix leads to. */
  ghost predicate LineGraphBuilt(tok: Tokenizer, graph: LineRenderGraph) {
    && |graph.checkpoints| == |graph.lines| + 1
    && (forall k :: 0 <= k <= |graph.lines| ==> LinesState(tok, graph.lines[..k]) == Ok(graph.checkpoints[k]))
  }

  /** The checkpoint after one more line. */
  function LineStep(tok: Tokenizer, checkpoint: TokenCheckpoint, first: bool, line: string)
    : Result<TokenCheckpoint, TokenCountError>
  {
    match if first then Ok(checkpoint) else Appended(tok, checkpoint, "\n")
    case Err(error) => Err(error)
    case Ok(after) => Appended(tok, after, line)
  }

  /** The checkpoint that lines lead to when they are appended one by one. */
  function LinesState(tok: Tokenizer, lines: seq<string>): Result<TokenCheckpoint, TokenCountError> {
    if lines == [] then Ok(TokenCheckpoint(0, ""))
    else
      match LinesState(tok, Init(lines))
      case Err(error) => Err(error)
      case Ok(checkpoint) => LineStep(tok, checkpoint, |lines| == 1, Last(lines))
  }

  lemma StateNext(tok: Tokenizer, lines: seq<string>, k: nat)
    requires k < |lines| && LinesState(tok, lines[..k]).Ok?
    ensures LinesState(tok, lines[..k + 1]) == LineStep(tok, LinesState(tok, lines[..k]).value, k == 0, lines[k])
  {
    assert Init(lines[..k + 1]) == lines[..k];
  }

  /** A failure on the way is the failure of the whole. */
  lemma {:induction false} StateFails(tok: Tokenizer, lines: seq<string>, k: nat)
    requires k <= |lines| && LinesState(tok, lines[..k]).Err?
    ensures LinesState(tok, lines) == LinesState(tok, lines[..k])
    decreases |lines| - k
  {
    if k == |lines| {
      assert lines[..k] == lines;
    } else {
      assert Init(lines[..k + 1]) == lines[..k];
      StateFails(tok, lines, k + 1);
    }
  }

  /** The checkpoint of the lines is that of their joined text. */
  lemma {:induction false} StateIsExact(tok: Tokenizer, lines: seq<string>, k: nat)
    requires Lawful(tok) && CutsWell(tok, Joined(lines)) && k <= |lines|
    ensures var r := LinesState(tok, lines[..k]);
      && (r.Ok? ==> r.value == CheckpointOf(tok, Joined(lines[..k])))
      && (r.Err? ==> Excused(tok, Joined(lines), Token(r.error)))
  {
    if k > 0 {
      StateIsExact(tok, lines, k - 1);
      if LinesState(tok, lines[..k - 1]).Ok? {
        StateNext(tok, lines, k - 1);
        hide LinesState;
        LineStepIsExact(tok, lines, k - 1);
      } else {
        assert Init(lines[..k]) == lines[..k - 1];
        hide LineStep;
      }
    }
  }

  /** What is appended for one line, as fragments of the joined text. */
  lemma LineFits(tok: Tokenizer, lines: seq<string>, k: nat)
    requires CutsWell(tok, Joined(lines)) && k < |lines|
    ensures var whole, before := Joined(lines), Joined(lines[..k]);
      && (k == 0 ==> Fits(tok, whole, before, lines[k]) && before + lines[k] == Joined(lines[..k + 1]))
      && (k > 0 ==>
            && Fits(tok, whole, before, "\n") && Fits(tok, whole, before + "\n", lines[k])
            && before + "\n" + lines[k] == Joined(lines[..k + 1]))
  {
    hide CutsWell, Joined, IsBreak;
    LineBreak(lines, k);
    LineBreak(lines, k + 1);
    JoinedNext(lines, k);
    assert Joined(lines[..k]) + "" == Joined(lines[..k]);
  }

  lemma LineStepIsExact(tok: Tokenizer, lines: seq<string>, k: nat)
    requires Lawful(tok) && CutsWell(tok, Joined(lines)) && k < |lines|
    ensures var r := LineStep(tok, CheckpointOf(tok, Joined(lines[..k])), k == 0, lines[k]);
      && (r.Ok? ==> r.value == CheckpointOf(tok, Joined(lines[..k + 1])))
      && (r.Err? ==> Excused(tok, Joined(lines), Token(r.error)))
  {
    hide Lawful, CutsWell, Joined, Appended, CheckpointOf, Excused, Fits;
    LineFits(tok, lines, k);
    var whole, before := Joined(lines), Joined(lines[..k]);
    if k > 0 {
      StepIsExact(tok, whole, before, "\n");
      StepIsExact(tok, whole, before + "\n", lines[k]);
    } else {
      StepIsExact(tok, whole, before, lines[k]);
    }
  }

  /** Appends the line feed, except before the first line, and the line. */
  method AppendLine(counter: ExactPrefixCounter, first: bool, line: string, ghost whole: string)
    returns (r: Result<(), RenderPlanError>)
    requires Lawful(counter.tok)
    modifies counter
    ensures match LineStep(counter.tok, old(counter.Checkpoint()), first, line)
            case Ok(after) => r == Ok(()) && counter.Checkpoint() == after
            case Err(error) => r == Err(Token(error))
  {
    hide Lawful, Appended;
    if !first {
      var broken := AppendTo(counter, "\n", whole);
      if broken.Err? { return broken; }
    }
    r := AppendTo(counter, line, whole);
  }

  method NewLineGraph(tok: Tokenizer, lines: seq<string>) returns (r: Result<LineRenderGraph, RenderPlanError>)
    requires Lawful(tok)
    ensures r.Ok? <==> LinesState(tok, lines).Ok?
    ensures r.Ok? ==> r.value.lines == lines && LineGraphBuilt(tok, r.value)
    ensures CutsWell(tok, Joined(lines)) ==>
              (r.Ok? ==> LineGraphOk(tok, r.value)) && (r.Err? ==> Excused(tok, Joined(lines), r.error))
  {
    hide Lawful, CheckpointOf, Excused, Joined, CutsWell, LineStep;
    var counter := new ExactPrefixCounter(tok);
    var checkpoints := [counter.Checkpoint()];
    for k := 0 to |lines|
      invariant fresh(counter) && counter.tok == tok && LinesState(tok, lines[..k]) == Ok(counter.Checkpoint())
      invariant |checkpoints| == k + 1
      invariant forall j :: 0 <= j <= k ==> LinesState(tok, lines[..j]) == Ok(checkpoints[j])
    {
      StateNext(tok, lines, k);
      var appended := AppendLine(counter, k == 0, lines[k], Joined(lines));
      if appended.Err? {
        StateFails(tok, lines, k + 1);
        if CutsWell(tok, Joined(lines)) { StateIsExact(tok, lines, k + 1); }
        return Err(appended.error);
      }
      checkpoints := checkpoints + [counter.Checkpoint()];
    }
    assert lines[..|lines|] == lines;
    r := Ok(LineRenderGraph(lines, checkpoints));
    if CutsWell(tok, Joined(lines)) {
      forall k | 0 <= k <= |lines| ensures checkpoints[k] == CheckpointOf(tok, Joined(lines[..k])) {
        StateIsExact(tok, lines, k);
      }
    }
  }

  function LineProbe(tok: Tokenizer, graph: LineRenderGraph, shown: nat, notes: seq<string>): Result<nat, RenderPlanError> {
    if shown >= |graph.checkpoints| then Err(InvalidPrefix(shown, |graph.lines|))
    else SuffixProbe(tok, graph.checkpoints[shown], Continuation(shown > 0, 0, notes))
  }

  // ----- which pieces a probe counts

  /** The pieces closed, and the end left open, when lines are appended one by one. */
  function LinesOpen(tok: Tokenizer, lines: seq<string>): OpenPrefix {
    if lines == [] then OpenPrefix([], "")
    else
      var before := LinesOpen(tok, Init(lines));
      Reopened(tok, if |lines| == 1 then before else Reopened(tok, before, "\n"), Last(lines))
  }

  /** The state of the lines counts exactly the pieces that they closed; it fails only if those overflow. */
  lemma {:induction false} StateCounts(tok: Tokenizer, lines: seq<string>)
    ensures var r, open := LinesState(tok, lines), LinesOpen(tok, lines);
      && (r.Ok? ==> r.value == CheckpointAt(tok, open))
      && (r.Err? && Plain(tok) ==> r.error == Overflow && Sum(tok, open.closed) > WORD_MAX)
  {
    if lines != [] {
      StateCounts(tok, Init(lines));
      var before := LinesOpen(tok, Init(lines));
      var broken := if |lines| == 1 then before else Reopened(tok, before, "\n");
      AppendedCounts(tok, before, "\n");
      AppendedCounts(tok, broken, Last(lines));
    }
    hide Plain, Sum, Appended, Reopened;
  }

  /** The pieces that a probe of these lines and notes counts. */
  function ProbePieces(tok: Tokenizer, lines: seq<string>, notes: seq<string>): seq<string> {
    Behind(tok, LinesOpen(tok, lines), Continuation(lines != [], 0, notes))
  }

  /** A probe counts exactly these pieces, whether or not they are those of the text. */
  lemma {:induction false} ProbeCounts(tok: Tokenizer, lines: seq<string>, notes: seq<string>)
    requires LinesState(tok, lines).Ok?
    ensures var r := SuffixProbe(tok, LinesState(tok, lines).value, Continuation(lines != [], 0, notes));
      var total := Sum(tok, ProbePieces(tok, lines, notes));
      && (r.Ok? ==> r.value == total)
      && (Plain(tok) ==> r == if total > WORD_MAX then Err(Token(Overflow)) else Ok(total))
  {
    StateCounts(tok, lines);
    CountedBehindCounts(tok, LinesOpen(tok, lines), Continuation(lines != [], 0, notes));
    hide LinesState, LinesOpen, Sum, Plain, Continuation;
  }

  lemma {:induction false} SplitsAlike(tok: Tokenizer, lines: seq<string>, count: string -> nat)
    ensures LinesOpen(With(tok, count), lines) == LinesOpen(tok, lines)
  {
    if lines != [] { SplitsAlike(tok, Init(lines), count); }
  }

  /** The sum a probe comes to is the full count of its text, for these counts per piece. */
  ghost predicate ExactProbe(tok: Tokenizer, lines: seq<string>, notes: seq<string>) {
    Sum(tok, ProbePieces(tok, lines, notes)) == FullCount(tok, Assembled(lines, notes))
  }

  /** A probe is exact however pieces are counted if and only if the pieces it counts are those of its text. */
  lemma {:induction false} ProbeIsExactIff(tok: Tokenizer, lines: seq<string>, notes: seq<string>)
    ensures (forall count: string -> nat :: ExactProbe(With(tok, count), lines, notes)) <==>
            multiset(ProbePieces(tok, lines, notes)) == multiset(tok.split(Assembled(lines, notes)))
  {
    var counted, whole := ProbePieces(tok, lines, notes), tok.split(Assembled(lines, notes));
    forall count: string -> nat
      ensures ExactProbe(With(tok, count), lines, notes) <==> Sum(With(tok, count), counted) == Sum(With(tok, count), whole)
    {
      SplitsAlike(tok, lines, count);
    }
    SumsAgree(tok, counted, whole);
    hide ProbePieces, Assembled, ExactProbe;
    assert SameSums(tok, counted, whole) <==> forall count: string -> nat :: ExactProbe(With(tok, count), lines, notes);
  }

  lemma BodyCut(tok: Tokenizer, lines: seq<string>, notes: seq<string>)
    requires CutsWell(tok, Assembled(lines, notes))
    ensures Cut(tok, Joined(lines), Continuation(lines != [], 0, notes))
  {
    var body := Joined(lines);
    NoteBreak(body, lines != [], notes, 0);
    assert body + Continuation(lines != [], 0, []) == body && notes[..0] == [];
    hide Continuation, Joined;
    CutApart(tok, Assembled(lines, notes), body, Continuation(lines != [], 0, notes));
  }

  /** A line probe counts the text that finishing the same selection assembles. */
  lemma {:induction false} LineProbeIsExact(tok: Tokenizer, graph: LineRenderGraph, shown: nat, notes: seq<string>)
    requires Lawful(tok) && LineGraphOk(tok, graph)
    ensures shown > |graph.lines| ==> LineProbe(tok, graph, shown, notes) == Err(InvalidPrefix(shown, |graph.lines|))
    ensures shown <= |graph.lines| && CutsWell(tok, Assembled(graph.lines[..shown], notes)) ==>
              Probes(tok, Assembled(graph.lines[..shown], notes), LineProbe(tok, graph, shown, notes))
  {
    if shown <= |graph.lines| && CutsWell(tok, Assembled(graph.lines[..shown], notes)) {
      BodyCut(tok, graph.lines[..shown], notes);
      SuffixProbeIsExact(tok, Joined(graph.lines[..shown]), Continuation(shown > 0, 0, notes));
    }
  }

  /** Whatever the tokenizer does at cuts, a line probe counts the pieces of its parts. */
  lemma {:induction false} LineProbeCounts(tok: Tokenizer, graph: LineRenderGraph, shown: nat, notes: seq<string>)
    requires LineGraphBuilt(tok, graph) && shown <= |graph.lines|
    ensures var r, total := LineProbe(tok, graph, shown, notes), Sum(tok, ProbePieces(tok, graph.lines[..shown], notes));
      && (r.Ok? ==> r.value == total)
      && (Plain(tok) ==> r == if total > WORD_MAX then Err(Token(Overflow)) else Ok(total))
  {
    ProbeCounts(tok, graph.lines[..shown], notes);
    hide ProbePieces, SuffixProbe, LinesState, Sum, Plain;
  }

  method ProbeLines(tok: Tokenizer, graph: LineRenderGraph, shown: nat, notes: seq<string>)
    returns (r: Result<nat, RenderPlanError>)
    ensures r == LineProbe(tok, graph, shown, notes)
  {
    if shown >= |graph.checkpoints| { return Err(InvalidPrefix(shown, |graph.lines|)); }
    var trailer := RenderContinuation(shown > 0, 0, notes);
    r := ProbeSuffix(tok, graph.checkpoints[shown], trailer);
  }

  method FinishLines(tok: Tokenizer, graph: LineRenderGraph, shown: nat, notes: seq<string>, incremental: nat, budget: nat)
    returns (r: Result<VerifiedRender, RenderPlanError>)
    ensures shown > |graph.lines| ==> r == Err(InvalidPrefix(shown, |graph.lines|))
    ensures shown <= |graph.lines| && incremental == FullCount(tok, Assembled(graph.lines[..shown], notes)) ==>
              r == if incremental <= budget then Ok(VerifiedRender(Assembled(graph.lines[..shown], notes), incremental))
                   else Err(OverBudget(incremental, budget))
    ensures shown <= |graph.lines| && incremental != FullCount(tok, Assembled(graph.lines[..shown], notes)) ==>
              r == Err(CountMismatch(incremental, FullCount(tok, Assembled(graph.lines[..shown], notes))))
    ensures r.Ok? ==> shown <= |graph.lines| && Verified(tok, Assembled(graph.lines[..shown], notes), budget, r.value)
    ensures shown <= |graph.lines| ==> r == Finished(tok, Assembled(graph.lines[..shown], notes), incremental, budget)
  {
    if shown > |graph.lines| { return Err(InvalidPrefix(shown, |graph.lines|)); }
    var text := AssembleText(graph.lines[..shown], notes);
    r := FinishText(tok, text, incremental, budget);
  }

  // ----- details

  /** Checkpoints after each prefix of the detail lines, below a fixed body and fixed notes. */
  datatype DetailRenderGraph = DetailRenderGraph(
    hasBody: bool, fixed: nat, details: nat, checkpoints: seq<TokenCheckpoint>)

  ghost predicate DetailGraphOk(
    tok: Tokenizer, graph: DetailRenderGraph, body: string, fixed: seq<string>, details: seq<string>)
  {
    && graph.fixed == |fixed| && graph.details == |details| && |graph.checkpoints| == |details| + 1
    && (forall k :: 0 <= k <= |details| ==>
          graph.checkpoints[k] == CheckpointOf(tok, body + Continuation(graph.hasBody, 0, fixed + details[..k])))
  }

  /** The checkpoint after one more note. */
  function NoteStep(tok: Tokenizer, checkpoint: TokenCheckpoint, hasBody: bool, existingNotes: nat, line: string)
    : Result<TokenCheckpoint, TokenCountError>
  {
    match Appended(tok, checkpoint, Separator(hasBody, existingNotes))
    case Err(error) => Err(error)
    case Ok(after) => Appended(tok, after, line)
  }

  /** The checkpoint that notes lead to when they are appended one by one below a body. */
  function NotesState(tok: Tokenizer, checkpoint: TokenCheckpoint, hasBody: bool, notes: seq<string>)
    : Result<TokenCheckpoint, TokenCountError>
  {
    if notes == [] then Ok(checkpoint)
    else
      match NotesState(tok, checkpoint, hasBody, Init(notes))
      case Err(error) => Err(error)
      case Ok(before) => NoteStep(tok, before, hasBody, |notes| - 1, Last(notes))
  }

  lemma NotesNext(tok: Tokenizer, checkpoint: TokenCheckpoint, hasBody: bool, notes: seq<string>, k: nat)
    requires k < |notes|
    ensures var before := NotesState(tok, checkpoint, hasBody, notes[..k]);
      NotesState(tok, checkpoint, hasBody, notes[..k + 1])
      == if before.Err? then before else NoteStep(tok, before.value, hasBody, k, notes[k])
  {
    assert Init(notes[..k + 1]) == notes[..k];
  }

  /** The pieces closed, and the end left open, when notes are appended one by one. */
  function NotesOpen(tok: Tokenizer, open: OpenPrefix, hasBody: bool, notes: seq<string>): OpenPrefix {
    if notes == [] then open
    else
      var before := NotesOpen(tok, open, hasBody, Init(notes));
      Reopened(tok, Reopened(tok, before, Separator(hasBody, |notes| - 1)), Last(notes))
  }

  /** The state of the notes counts exactly the pieces that they and the body closed. */
  lemma {:induction false} NotesCount(tok: Tokenizer, open: OpenPrefix, hasBody: bool, notes: seq<string>)
    ensures var r, after := NotesState(tok, CheckpointAt(tok, open), hasBody, notes), NotesOpen(tok, open, hasBody, notes);
      && (r.Ok? ==> r.value == CheckpointAt(tok, after))
      && (r.Err? && Plain(tok) ==> r.error == Overflow && Sum(tok, after.closed) > WORD_MAX)
  {
    if notes != [] {
      NotesCount(tok, open, hasBody, Init(notes));
      var before := NotesOpen(tok, open, hasBody, Init(notes));
      AppendedCounts(tok, before, Separator(hasBody, |notes| - 1));
      AppendedCounts(tok, Reopened(tok, before, Separator(hasBody, |notes| - 1)), Last(notes));
    }
    hide Plain, Sum, Appended, Reopened, Separator;
  }

  lemma {:induction false} NotesFail(tok: Tokenizer, checkpoint: TokenCheckpoint, hasBody: bool, notes: seq<string>, k: nat)
    requires k <= |notes| && NotesState(tok, checkpoint, hasBody, notes[..k]).Err?
    ensures NotesState(tok, checkpoint, hasBody, notes) == NotesState(tok, checkpoint, hasBody, notes[..k])
    decreases |notes| - k
  {
    if k == |notes| {
      assert notes[..k] == notes;
    } else {
      NotesNext(tok, checkpoint, hasBody, notes, k);
      hide NotesState;
      NotesFail(tok, checkpoint, hasBody, notes, k + 1);
    }
  }

  /** The checkpoint of the notes is that of body and notes, if the text may be cut where it is. */
  lemma {:induction false} NotesStateIsExact(tok: Tokenizer, body: string, hasBody: bool, notes: seq<string>, k: nat)
    requires Lawful(tok) && k <= |notes| && (hasBody || body == "")
    requires CutsWell(tok, body + Continuation(hasBody, 0, notes))
    ensures var r := NotesState(tok, CheckpointOf(tok, body), hasBody, notes[..k]);
      && (r.Ok? ==> r.value == CheckpointOf(tok, body + Continuation(hasBody, 0, notes[..k])))
      && (r.Err? ==> Excused(tok, body + Continuation(hasBody, 0, notes), Token(r.error)))
  {
    if k == 0 {
      assert notes[..0] == [] && body + Continuation(hasBody, 0, []) == body;
    } else {
      NotesStateIsExact(tok, body, hasBody, notes, k - 1);
      NotesNext(tok, CheckpointOf(tok, body), hasBody, notes, k - 1);
      hide *;
      NoteStepIsExact(tok, body, hasBody, notes, k - 1);
    }
  }

  lemma NoteFits(tok: Tokenizer, body: string, hasBody: bool, notes: seq<string>, k: nat)
    requires k < |notes| && (hasBody || body == "")
    requires CutsWell(tok, body + Continuation(hasBody, 0, notes))
    ensures var whole, part := body + Continuation(hasBody, 0, notes), body + Continuation(hasBody, 0, notes[..k]);
      Fits(tok, whole, part, Separator(hasBody, k)) && Fits(tok, whole, part + Separator(hasBody, k), notes[k])
  {
    hide CutsWell, Continuation, Separator, IsBreak;
    NoteNext(body, hasBody, notes, k);
    NoteBreak(body, hasBody, notes, k);
    NoteBreak(body, hasBody, notes, k + 1);
  }

  lemma NoteStepIsExact(tok: Tokenizer, body: string, hasBody: bool, notes: seq<string>, k: nat)
    requires Lawful(tok) && k < |notes| && (hasBody || body == "")
    requires CutsWell(tok, body + Continuation(hasBody, 0, notes))
    ensures var r := NoteStep(tok, CheckpointOf(tok, body + Continuation(hasBody, 0, notes[..k])), hasBody, k, notes[k]);
      && (r.Ok? ==> r.value == CheckpointOf(tok, body + Continuation(hasBody, 0, notes[..k + 1])))
      && (r.Err? ==> Excused(tok, body + Continuation(hasBody, 0, notes), Token(r.error)))
  {
    hide Lawful, CutsWell, Continuation, Separator, Appended, CheckpointOf, Excused, Fits;
    var whole, part := body + Continuation(hasBody, 0, notes), body + Continuation(hasBody, 0, notes[..k]);
    NoteNext(body, hasBody, notes, k);
    NoteFits(tok, body, hasBody, notes, k);
    StepIsExact(tok, whole, part, Separator(hasBody, k));
    StepIsExact(tok, whole, part + Separator(hasBody, k), notes[k]);
  }

  method AppendNoteLine(counter: ExactPrefixCounter, line: string, hasBody: bool, existingNotes: nat, ghost whole: string)
    returns (r: Result<(), RenderPlanError>)
    requires Lawful(counter.tok)
    modifies counter
    ensures match NoteStep(counter.tok, old(counter.Checkpoint()), hasBody, existingNotes, line)
            case Ok(after) => r == Ok(()) && counter.Checkpoint() == after
            case Err(error) => r == Err(Token(error))
    ensures r.Ok? ==> counter.text == old(counter.text) + Separator(hasBody, existingNotes) + line
    ensures old(counter.Valid()) && Fits(counter.tok, whole, old(counter.text), Separator(hasBody, existingNotes))
            && Fits(counter.tok, whole, old(counter.text) + Separator(hasBody, existingNotes), line) ==>
              (r.Ok? ==> counter.Valid()) && (r.Err? ==> Excused(counter.tok, whole, r.error))
  {
    hide Lawful, CheckpointOf, Excused, Fits;
    assert counter.text + "" == counter.text;
    assert Appended(counter.tok, counter.Checkpoint(), "") == Ok(counter.Checkpoint());
    hide Appended;
    if existingNotes > 0 {
      var broken := AppendTo(counter, "\n", whole);
      if broken.Err? { return broken; }
    } else if hasBody {
      var broken := AppendTo(counter, "\n\n", whole);
      if broken.Err? { return broken; }
    }
    r := AppendTo(counter, line, whole);
  }

  method AppendFixedNotes(counter: ExactPrefixCounter, hasBody: bool, fixed: seq<string>) returns (r: Result<(), RenderPlanError>)
    requires Lawful(counter.tok)
    modifies counter
    ensures match NotesState(counter.tok, old(counter.Checkpoint()), hasBody, fixed)
            case Ok(after) => r == Ok(()) && counter.Checkpoint() == after
            case Err(error) => r == Err(Token(error))
  {
    ghost var tok, start := counter.tok, counter.Checkpoint();
    hide Lawful, NoteStep;
    for k := 0 to |fixed|
      invariant NotesState(tok, start, hasBody, fixed[..k]) == Ok(counter.Checkpoint())
    {
      NotesNext(tok, start, hasBody, fixed, k);
      var appended := AppendNoteLine(counter, fixed[k], hasBody, k, "");
      if appended.Err? {
        NotesFail(tok, start, hasBody, fixed, k + 1);
        return appended;
      }
    }
    assert fixed[..|fixed|] == fixed;
    r := Ok(());
  }

  /** The text with one more note, and its place in the text with all notes. */
  lemma NoteNext(body: string, hasBody: bool, notes: seq<string>, k: nat)
    requires k < |notes|
    ensures body + Continuation(hasBody, 0, notes[..k + 1])
         == body + Continuation(hasBody, 0, notes[..k]) + Separator(hasBody, k) + notes[k]
    ensures body + Continuation(hasBody, 0, notes[..k + 1]) <= body + Continuation(hasBody, 0, notes)
  {
    ContinuationNext(hasBody, notes, k);
    ContinuationPrefix(hasBody, notes, k + 1);
    hide Continuation, Separator;
    Regroup(body, Continuation(hasBody, 0, notes[..k]), Separator(hasBody, k) + notes[k]);
    Regroup(body + Continuation(hasBody, 0, notes[..k]), Separator(hasBody, k), notes[k]);
  }

  /** The checkpoint after these notes, where there is one. */
  function CheckpointAfter(tok: Tokenizer, checkpoint: TokenCheckpoint, hasBody: bool, notes: seq<string>): TokenCheckpoint {
    match NotesState(tok, checkpoint, hasBody, notes)
    case Ok(after) => after
    case Err(_) => checkpoint
  }

  function DetailGraphOf(
    tok: Tokenizer, checkpoint: TokenCheckpoint, hasBody: bool, fixed: seq<string>, details: seq<string>)
    : Result<DetailRenderGraph, RenderPlanError>
  {
    match NotesState(tok, checkpoint, hasBody, fixed + details)
    case Err(error) => Err(Token(error))
    case Ok(_) =>
      var checkpoints := seq(|details| + 1, k requires 0 <= k <= |details| =>
        CheckpointAfter(tok, checkpoint, hasBody, fixed + details[..k]));
      Ok(DetailRenderGraph(hasBody, |fixed|, |details|, checkpoints))
  }

  lemma CheckpointAfterIsExact(tok: Tokenizer, body: string, hasBody: bool, notes: seq<string>, k: nat)
    requires Lawful(tok) && (hasBody || body == "") && k <= |notes|
    requires CutsWell(tok, body + Continuation(hasBody, 0, notes))
    requires NotesState(tok, CheckpointOf(tok, body), hasBody, notes).Ok?
    ensures CheckpointAfter(tok, CheckpointOf(tok, body), hasBody, notes[..k])
         == CheckpointOf(tok, body + Continuation(hasBody, 0, notes[..k]))
  {
    NotesStateIsExact(tok, body, hasBody, notes, k);
    hide Lawful, CutsWell, Continuation, CheckpointOf, Excused, NotesState;
    if NotesState(tok, CheckpointOf(tok, body), hasBody, notes[..k]).Err? {
      NotesFail(tok, CheckpointOf(tok, body), hasBody, notes, k);
    }
  }

  /** If the text may be cut where it is, every checkpoint describes its prefix, or the whole overflows. */
  lemma {:induction false} DetailGraphIsExact(
    tok: Tokenizer, body: string, hasBody: bool, fixed: seq<string>, details: seq<string>)
    requires Lawful(tok) && (hasBody || body == "")
    requires CutsWell(tok, body + Continuation(hasBody, 0, fixed + details))
    ensures var r := DetailGraphOf(tok, CheckpointOf(tok, body), hasBody, fixed, details);
      && (r.Ok? ==> DetailGraphOk(tok, r.value, body, fixed, details))
      && (r.Err? ==> Excused(tok, body + Continuation(hasBody, 0, fixed + details), r.error))
  {
    hide *;
    var all, start := fixed + details, CheckpointOf(tok, body);
    assert all[..|all|] == all;
    NotesStateIsExact(tok, body, hasBody, all, |all|);
    GraphShape(tok, start, hasBody, fixed, details);
    var r := DetailGraphOf(tok, start, hasBody, fixed, details);
    if r.Ok? {
      forall k | 0 <= k <= |details|
        ensures r.value.checkpoints[k] == CheckpointOf(tok, body + Continuation(hasBody, 0, fixed + details[..k]))
      {
        assert all[..|fixed| + k] == fixed + details[..k];
        CheckpointAfterIsExact(tok, body, hasBody, all, |fixed| + k);
      }
      GraphOkByParts(tok, r.value, body, fixed, details);
    }
  }

  lemma GraphOkByParts(tok: Tokenizer, graph: DetailRenderGraph, body: string, fixed: seq<string>, details: seq<string>)
    requires graph.fixed == |fixed| && graph.details == |details| && |graph.checkpoints| == |details| + 1
    requires forall k :: 0 <= k <= |details| ==>
               graph.checkpoints[k] == CheckpointOf(tok, body + Continuation(graph.hasBody, 0, fixed + details[..k]))
    ensures DetailGraphOk(tok, graph, body, fixed, details)
  {
  }

  lemma GraphShape(tok: Tokenizer, checkpoint: TokenCheckpoint, hasBody: bool, fixed: seq<string>, details: seq<string>)
    ensures var r, state := DetailGraphOf(tok, checkpoint, hasBody, fixed, details),
                            NotesState(tok, checkpoint, hasBody, fixed + details);
      && (r.Ok? <==> state.Ok?) && (r.Err? ==> r.error == Token(state.error))
      && (r.Ok? ==>
            && r.value.hasBody == hasBody && r.value.fixed == |fixed| && r.value.details == |details|
            && |r.value.checkpoints| == |details| + 1
            && (forall k :: 0 <= k <= |details| ==>
                  r.value.checkpoints[k] == CheckpointAfter(tok, checkpoint, hasBody, fixed + details[..k])))
  {
    hide NotesState;
  }

  lemma GraphFromStates(
    tok: Tokenizer, checkpoint: TokenCheckpoint, hasBody: bool, fixed: seq<string>, details: seq<string>,
    checkpoints: seq<TokenCheckpoint>)
    requires |checkpoints| == |details| + 1
    requires forall k :: 0 <= k <= |details| ==>
               NotesState(tok, checkpoint, hasBody, fixed + details[..k]) == Ok(checkpoints[k])
    ensures DetailGraphOf(tok, checkpoint, hasBody, fixed, details)
         == Ok(DetailRenderGraph(hasBody, |fixed|, |details|, checkpoints))
  {
    GraphShape(tok, checkpoint, hasBody, fixed, details);
    hide NotesState, DetailGraphOf;
    assert details[..|details|] == details;
    assert DetailGraphOf(tok, checkpoint, hasBody, fixed, details).value.checkpoints == checkpoints;
  }

  method NewDetailGraph(
    tok: Tokenizer, checkpoint: TokenCheckpoint, ghost body: string, hasBody: bool, fixed: seq<string>,
    details: seq<string>) returns (r: Result<DetailRenderGraph, RenderPlanError>)
    requires Lawful(tok)
    ensures r == DetailGraphOf(tok, checkpoint, hasBody, fixed, details)
    ensures checkpoint == CheckpointOf(tok, body) && (hasBody || body == "")
            && CutsWell(tok, body + Continuation(hasBody, 0, fixed + details)) ==>
              && (r.Ok? ==> r.value.hasBody == hasBody && DetailGraphOk(tok, r.value, body, fixed, details))
              && (r.Err? ==> Excused(tok, body + Continuation(hasBody, 0, fixed + details), r.error))
  {
    hide *;
    GraphShape(tok, checkpoint, hasBody, fixed, details);
    if checkpoint == CheckpointOf(tok, body) && (hasBody || body == "")
       && CutsWell(tok, body + Continuation(hasBody, 0, fixed + details)) {
      DetailGraphIsExact(tok, body, hasBody, fixed, details);
    }
    var all := fixed + details;
    var counter := new ExactPrefixCounter.FromCheckpoint(tok, checkpoint, body);
    assert all[..|fixed|] == fixed && fixed + details[..0] == fixed;
    var appended := AppendFixedNotes(counter, hasBody, fixed);
    if appended.Err? {
      NotesFail(tok, checkpoint, hasBody, all, |fixed|);
      return Err(appended.error);
    }
    var checkpoints := [counter.Checkpoint()];
    for k := 0 to |details|
      invariant fresh(counter) && counter.tok == tok && |checkpoints| == k + 1
      invariant NotesState(tok, checkpoint, hasBody, fixed + details[..k]) == Ok(counter.Checkpoint())
      invariant forall j :: 0 <= j <= k ==> NotesState(tok, checkpoint, hasBody, fixed + details[..j]) == Ok(checkpoints[j])
    {
      assert all[..|fixed| + k] == fixed + details[..k] && all[..|fixed| + k + 1] == fixed + details[..k + 1];
      NotesNext(tok, checkpoint, hasBody, all, |fixed| + k);
      appended := AppendNoteLine(counter, details[k], hasBody, |fixed| + k, "");
      if appended.Err? {
        NotesFail(tok, checkpoint, hasBody, all, |fixed| + k + 1);
        return Err(appended.error);
      }
      checkpoints := checkpoints + [counter.Checkpoint()];
    }
    GraphFromStates(tok, checkpoint, hasBody, fixed, details, checkpoints);
    r := Ok(DetailRenderGraph(hasBody, |fixed|, |details|, checkpoints));
  }

  function TailProbe(tok: Tokenizer, graph: DetailRenderGraph, shown: nat, tail: seq<string>): Result<nat, RenderPlanError> {
    if shown >= |graph.checkpoints| then Err(InvalidPrefix(shown, graph.details))
    else SuffixProbe(tok, graph.checkpoints[shown], Continuation(graph.hasBody, graph.fixed + shown, tail))
  }

  /** The pieces that a tail probe counts. */
  function TailPieces(
    tok: Tokenizer, open: OpenPrefix, hasBody: bool, notes: seq<string>, tail: seq<string>): seq<string>
  {
    Behind(tok, NotesOpen(tok, open, hasBody, notes), Continuation(hasBody, |notes|, tail))
  }

  /** Whatever the tokenizer does at cuts, a tail probe counts the pieces of its parts. */
  lemma {:induction false} TailProbeCounts(
    tok: Tokenizer, open: OpenPrefix, hasBody: bool, fixed: seq<string>, details: seq<string>, shown: nat,
    tail: seq<string>)
    requires DetailGraphOf(tok, CheckpointAt(tok, open), hasBody, fixed, details).Ok? && shown <= |details|
    ensures var r := TailProbe(tok, DetailGraphOf(tok, CheckpointAt(tok, open), hasBody, fixed, details).value, shown, tail);
      var total := Sum(tok, TailPieces(tok, open, hasBody, fixed + details[..shown], tail));
      && (r.Ok? ==> r.value == total)
      && (Plain(tok) ==> r == if total > WORD_MAX then Err(Token(Overflow)) else Ok(total))
  {
    var all, notes := fixed + details, fixed + details[..shown];
    assert all[..|notes|] == notes;
    GraphShape(tok, CheckpointAt(tok, open), hasBody, fixed, details);
    if NotesState(tok, CheckpointAt(tok, open), hasBody, notes).Err? { NotesFail(tok, CheckpointAt(tok, open), hasBody, all, |notes|); }
    NotesCount(tok, open, hasBody, notes);
    CountedBehindCounts(tok, NotesOpen(tok, open, hasBody, notes), Continuation(hasBody, |notes|, tail));
    hide DetailGraphOf, NotesState, NotesOpen, Sum, Plain, Continuation, CountedBehind;
  }

  lemma TailCut(tok: Tokenizer, body: string, hasBody: bool, notes: seq<string>, tail: seq<string>)
    requires CutsWell(tok, body + Continuation(hasBody, 0, notes + tail)) && (hasBody || body == "")
    ensures Cut(tok, body + Continuation(hasBody, 0, notes), Continuation(hasBody, |notes|, tail))
  {
    hide CutsWell, Continuation, Cut;
    var all := notes + tail;
    assert all[..|notes|] == notes;
    NoteBreak(body, hasBody, all, |notes|);
    ContinuationSplits(hasBody, notes, tail);
    Regroup(body, Continuation(hasBody, 0, notes), Continuation(hasBody, |notes|, tail));
    CutApart(
      tok, body + Continuation(hasBody, 0, all), body + Continuation(hasBody, 0, notes), Continuation(hasBody, |notes|, tail));
  }

  /** A tail probe counts body, fixed notes, the shown details and the tail as one text. */
  lemma {:induction false} TailProbeIsExact(
    tok: Tokenizer, graph: DetailRenderGraph, shown: nat, tail: seq<string>, body: string, fixed: seq<string>,
    details: seq<string>)
    requires Lawful(tok) && DetailGraphOk(tok, graph, body, fixed, details) && shown <= |details|
    requires graph.hasBody || body == ""
    requires CutsWell(tok, body + Continuation(graph.hasBody, 0, fixed + details[..shown] + tail))
    ensures Probes(tok, body + Continuation(graph.hasBody, 0, fixed + details[..shown] + tail),
                   TailProbe(tok, graph, shown, tail))
  {
    var suffix := Continuation(graph.hasBody, graph.fixed + shown, tail);
    var notes := fixed + details[..shown];
    ContinuationSplits(graph.hasBody, notes, tail);
    Regroup(body, Continuation(graph.hasBody, 0, notes), suffix);
    TailCut(tok, body, graph.hasBody, notes, tail);
    SuffixProbeIsExact(tok, body + Continuation(graph.hasBody, 0, notes), suffix);
  }

  method ProbeTail(tok: Tokenizer, graph: DetailRenderGraph, shown: nat, tail: seq<string>)
    returns (r: Result<nat, RenderPlanError>)
    ensures r == TailProbe(tok, graph, shown, tail)
  {
    if shown >= |graph.checkpoints| { return Err(InvalidPrefix(shown, graph.details)); }
    var suffix := RenderContinuation(graph.hasBody, graph.fixed + shown, tail);
    r := ProbeSuffix(tok, graph.checkpoints[shown], suffix);
  }

  // ----- the shared trie of line views

  datatype Node = Node(checkpoint: TokenCheckpoint, children: map<string, nat>)

  datatype LineRenderView = LineRenderView(lines: seq<string>, checkpoint: TokenCheckpoint)

  ghost predicate ViewOk(tok: Tokenizer, view: LineRenderView) {
    view.checkpoint == CheckpointOf(tok, Joined(view.lines))
  }

  /** The view of these lines, as a graph without any cached prefix would prepare it. */
  function ViewOf(tok: Tokenizer, lines: seq<string>): Result<LineRenderView, RenderPlanError> {
    match LinesState(tok, lines)
    case Ok(checkpoint) => Ok(LineRenderView(lines, checkpoint))
    case Err(error) => Err(Token(error))
  }

  /** A view describes its lines, if they may be cut where they are. */
  lemma {:induction false} ViewIsExact(tok: Tokenizer, lines: seq<string>)
    requires Lawful(tok) && CutsWell(tok, Joined(lines))
    ensures ViewOf(tok, lines).Ok? ==> ViewOk(tok, ViewOf(tok, lines).value)
    ensures ViewOf(tok, lines).Err? ==> Excused(tok, Joined(lines), ViewOf(tok, lines).error)
  {
    StateIsExact(tok, lines, |lines|);
    assert lines[..|lines|] == lines;
    hide Lawful, CutsWell, Excused;
  }

  /** A trie whose nodes are the line prefixes seen so far; `paths` names them. */
  class SharedLineRenderGraph {
    const tok: Tokenizer
    var nodes: seq<Node>
    ghost var paths: seq<seq<string>>

    ghost predicate Valid()
      reads this
    {
      && Lawful(tok)
      && |paths| == |nodes| > 0 && paths[0] == []
      && (forall i :: 0 <= i < |nodes| ==> LinesState(tok, paths[i]) == Ok(nodes[i].checkpoint))
      && (forall i, line :: 0 <= i < |nodes| && line in nodes[i].children ==>
            nodes[i].children[line] < |nodes| && paths[nodes[i].children[line]] == paths[i] + [line])
    }

    constructor (tok: Tokenizer)
      requires Lawful(tok)
      ensures Valid() && this.tok == tok
    {
      this.tok := tok;
      nodes := [Node(TokenCheckpoint(0, ""), map[])];
      paths := [[]];
    }

    /**
     Walks or extends the trie along `lines`; only new edges are tokenized. What
     was prepared before has no influence on the answer.
     */
    method PrepareView(lines: seq<string>) returns (r: Result<LineRenderView, RenderPlanError>)
      requires Valid()
      modifies this
      ensures Valid()
      ensures |old(paths)| <= |paths| && paths[..|old(paths)|] == old(paths)
      ensures r == ViewOf(tok, lines)
    {
      hide Lawful, LinesState, LineStep, Joined;
      var at: nat := 0;
      for depth := 0 to |lines|
        invariant Valid() && at < |nodes| && paths[at] == lines[..depth]
        invariant |old(paths)| <= |paths| && paths[..|old(paths)|] == old(paths)
      {
        assert lines[..depth + 1] == lines[..depth] + [lines[depth]];
        if lines[depth] in nodes[at].children {
          at := nodes[at].children[lines[depth]];
        } else {
          var counter := new ExactPrefixCounter.FromCheckpoint(tok, nodes[at].checkpoint, Joined(paths[at]));
          StateNext(tok, lines, depth);
          var appended := AppendLine(counter, depth == 0, lines[depth], Joined(lines));
          if appended.Err? {
            StateFails(tok, lines, depth + 1);
            return Err(appended.error);
          }
          var child := |nodes|;
          AddChild(at, lines[depth], counter.Checkpoint());
          at := child;
        }
      }
      assert lines[..|lines|] == lines;
      r := Ok(LineRenderView(lines, nodes[at].checkpoint));
    }

    method AddChild(parent: nat, line: string, checkpoint: TokenCheckpoint)
      requires Valid() && parent < |nodes| && line !in nodes[parent].children
      requires LinesState(tok, paths[parent] + [line]) == Ok(checkpoint)
      modifies this
      ensures Valid() && paths == old(paths) + [old(paths)[parent] + [line]]
      ensures nodes[|old(nodes)|].checkpoint == checkpoint
    {
      hide Lawful, LinesState;
      nodes := nodes[parent := nodes[parent].(children := nodes[parent].children[line := |nodes|])]
        + [Node(checkpoint, map[])];
      paths := paths + [paths[parent] + [line]];
    }
  }

  function ViewProbe(tok: Tokenizer, view: LineRenderView, notes: seq<string>): Result<nat, RenderPlanError> {
    SuffixProbe(tok, view.checkpoint, Continuation(view.lines != [], 0, notes))
  }

  /** A view probe counts the text that finishing the same view assembles. */
  lemma {:induction false} ViewProbeIsExact(tok: Tokenizer, view: LineRenderView, notes: seq<string>)
    requires Lawful(tok) && ViewOk(tok, view) && CutsWell(tok, Assembled(view.lines, notes))
    ensures Probes(tok, Assembled(view.lines, notes), ViewProbe(tok, view, notes))
  {
    BodyCut(tok, view.lines, notes);
    SuffixProbeIsExact(tok, Joined(view.lines), Continuation(view.lines != [], 0, notes));
  }

  method ProbeView(tok: Tokenizer, view: LineRenderView, notes: seq<string>) returns (r: Result<nat, RenderPlanError>)
    ensures r == ViewProbe(tok, view, notes)
  {
    var suffix := RenderContinuation(|view.lines| > 0, 0, notes);
    r := ProbeSuffix(tok, view.checkpoint, suffix);
  }

  method FinishView(tok: Tokenizer, view: LineRenderView, notes: seq<string>, incremental: nat, budget: nat)
    returns (r: Result<VerifiedRender, RenderPlanError>)
    ensures incremental == FullCount(tok, Assembled(view.lines, notes)) ==>
              r == if incremental <= budget then Ok(VerifiedRender(Assembled(view.lines, notes), incremental))
                   else Err(OverBudget(incremental, budget))
    ensures incremental != FullCount(tok, Assembled(view.lines, notes)) ==>
              r == Err(CountMismatch(incremental, FullCount(tok, Assembled(view.lines, notes))))
    ensures r.Ok? ==> Verified(tok, Assembled(view.lines, notes), budget, r.value)
    ensures r == Finished(tok, Assembled(view.lines, notes), incremental, budget)
  {
    var text := AssembleText(view.lines, notes);
    r := FinishText(tok, text, incremental, budget);
  }
}

/**
 Pages with lines of blanks. Appended in parts, a line of blanks behind
 another line is counted apart from its line feed, although the text as a
 whole has one piece there: the probe counts one piece too many. How many such
 cuts a page has can be read off its characters, and decides what becomes of it.
 */
module BlankLines {
  import opened Wrappers
  import opened TokenCounter
  import opened RenderPlan
  import opened ResponseFit
  import opened LineTokenizers

  /** Every piece counts as one token. */
  function UnitTokenizer(cl: Classes): Tokenizer {
    LineTokenizer(cl, (piece: string) => 1)
  }

  lemma {:induction false} SumOfOnes(cl: Classes, pieces: seq<string>)
    ensures Sum(UnitTokenizer(cl), pieces) == |pieces|
  {
    if pieces != [] { SumOfOnes(cl, Init(pieces)); }
  }

  /** The pieces closed so far are `excess` more than those of the text, and none is wrong if that is none. */
  ghost predicate Follows(cl: Classes, text: string, open: OpenPrefix, excess: nat) {
    if text == "" then open == OpenPrefix([], "") && excess == 0
    else
      && Tracks(cl, text, open.tail) && |open.closed| + 1 == |Pieces(cl, text)| + excess
      && (excess == 0 ==> open == OpenPrefix(Init(Pieces(cl, text)), Last(Pieces(cl, text))))
  }

  lemma NothingReopens(cl: Classes, text: string)
    requires Proper(cl) && (text == "" || Last(text) == '\n')
    ensures !Reopens(cl, text)
  {
    if text != "" { assert !cl.blank(text[|text| - 1]); }
  }

  /** Counting a suffix behind the open end counts one piece too many for every bad cut. */
  lemma BehindFollows(cl: Classes, count: string -> nat, text: string, open: OpenPrefix, excess: nat, suffix: string)
    requires Proper(cl) && Follows(cl, text, open, excess) && AtBreak(text, suffix)
    ensures var counted, e := Behind(LineTokenizer(cl, count), open, suffix), excess + One(BadCut(cl, text, suffix));
      && |counted| == |Pieces(cl, text + suffix)| + e
      && (e == 0 ==> counted == Pieces(cl, text + suffix))
  {
    if text == "" {
      NothingReopens(cl, text);
      assert "" + suffix == suffix;
    } else {
      hide BadCut, AtBreak;
      CutCounts(cl, text, open.tail, suffix);
      hide Tracks, Pieces;
    }
  }

  lemma FirstFollows(cl: Classes, count: string -> nat, fragment: string)
    requires Proper(cl) && fragment != ""
    ensures Follows(cl, fragment, Reopened(LineTokenizer(cl, count), OpenPrefix([], ""), fragment), 0)
  {
    assert "" + fragment == fragment;
    LastAlone(cl, fragment);
    PiecesEnd(cl, fragment);
    hide Reopens, Pieces, Taken, Loose;
    assert [] + Init(Pieces(cl, fragment)) == Init(Pieces(cl, fragment));
  }

  lemma FollowsParts(cl: Classes, text: string, open: OpenPrefix, excess: nat)
    requires text != ""
    ensures Follows(cl, text, open, excess) <==>
            && Tracks(cl, text, open.tail) && |open.closed| + 1 == |Pieces(cl, text)| + excess
            && (excess == 0 ==> open == OpenPrefix(Init(Pieces(cl, text)), Last(Pieces(cl, text))))
    ensures Tracks(cl, text, open.tail) ==> Pieces(cl, text) != []
  {
  }

  lemma ReopenedParts(cl: Classes, count: string -> nat, open: OpenPrefix, fragment: string)
    requires fragment != "" && Pieces(cl, open.tail + fragment) != []
    ensures var counted := Pieces(cl, open.tail + fragment);
      Reopened(LineTokenizer(cl, count), open, fragment) == OpenPrefix(open.closed + Init(counted), Last(counted))
  {
    hide Pieces;
  }

  lemma NextFollows(cl: Classes, count: string -> nat, text: string, open: OpenPrefix, excess: nat, fragment: string)
    requires Proper(cl) && Follows(cl, text, open, excess) && AtBreak(text, fragment) && text != "" && fragment != ""
    ensures Follows(
              cl, text + fragment, Reopened(LineTokenizer(cl, count), open, fragment), excess + One(BadCut(cl, text, fragment)))
  {
    FollowsParts(cl, text, open, excess);
    assert One(true) == 1 && One(false) == 0;
    hide *;
    assert text + fragment != "";
    CutCounts(cl, text, open.tail, fragment);
    ReopenedParts(cl, count, open, fragment);
    FollowsParts(
      cl, text + fragment, Reopened(LineTokenizer(cl, count), open, fragment), excess + One(BadCut(cl, text, fragment)));
    InitOfAppend(Init(Pieces(cl, text)), Pieces(cl, open.tail + fragment));
  }

  lemma InitOfAppend(a: seq<string>, b: seq<string>)
    requires b != []
    ensures |Init(b)| == |b| - 1 && Init(a + b) == a + Init(b) && Last(a + b) == Last(b)
  {
  }

  lemma FragmentFollows(cl: Classes, count: string -> nat, text: string, open: OpenPrefix, excess: nat, fragment: string)
    requires Proper(cl) && Follows(cl, text, open, excess) && AtBreak(text, fragment)
    ensures Follows(
              cl, text + fragment, Reopened(LineTokenizer(cl, count), open, fragment), excess + One(BadCut(cl, text, fragment)))
  {
    hide AtBreak, Reopens, Pieces, Tracks;
    if fragment == "" {
      assert text + fragment == text;
    } else if text == "" {
      NothingReopens(cl, text);
      assert "" + fragment == fragment;
      FirstFollows(cl, count, fragment);
    } else {
      NextFollows(cl, count, text, open, excess, fragment);
    }
  }

  // ----- the bad cuts of a page

  /** How many line feeds between the lines stand behind a line of blanks that is behind another line. */
  function BadFeeds(cl: Classes, lines: seq<string>): nat {
    if |lines| <= 1 then 0 else BadFeeds(cl, Init(lines)) + One(BadCut(cl, Joined(Init(lines)), "\n"))
  }

  /** How many separators of the notes do. */
  function BadSeparators(cl: Classes, body: string, hasBody: bool, notes: seq<string>): nat {
    if notes == [] then 0
    else
      BadSeparators(cl, body, hasBody, Init(notes))
      + One(BadCut(cl, body + Continuation(hasBody, 0, Init(notes)), Separator(hasBody, |notes| - 1)))
  }

  /** How many cuts of a page are bad whose notes are appended one by one, and whose tail is counted as one suffix. */
  function Excess(cl: Classes, lines: seq<string>, notes: seq<string>, tail: seq<string>): nat {
    var body, hasBody := Joined(lines), lines != [];
    BadFeeds(cl, lines) + BadSeparators(cl, body, hasBody, notes)
    + One(BadCut(cl, body + Continuation(hasBody, 0, notes), Continuation(hasBody, |notes|, tail)))
  }

  lemma LastIsEnd(text: string, c: char)
    ensures text + [c] != "" && Last(text + [c]) == c
  {
  }

  lemma {:induction false} LinesFollow(cl: Classes, count: string -> nat, lines: seq<string>)
    requires Proper(cl)
    ensures Follows(cl, Joined(lines), LinesOpen(LineTokenizer(cl, count), lines), BadFeeds(cl, lines))
  {
    var tok := LineTokenizer(cl, count);
    if lines != [] {
      var before, text, open := Init(lines), Joined(Init(lines)), LinesOpen(tok, Init(lines));
      LinesFollow(cl, count, before);
      hide Follows, Reopened;
      if |lines| == 1 {
        assert before == [] && lines == [Last(lines)] && "" + Last(lines) == Last(lines);
        LineFollows(cl, count, "", open, 0, Last(lines));
      } else {
        FragmentFollows(cl, count, text, open, BadFeeds(cl, before), "\n");
        LastIsEnd(text, '\n');
        LineFollows(cl, count, text + "\n", Reopened(tok, open, "\n"), BadFeeds(cl, lines), Last(lines));
        JoinedLast(lines);
      }
    }
  }

  lemma SeparatorShape(body: string, hasBody: bool, notes: seq<string>)
    requires hasBody || body == ""
    ensures var text, sep := body + Continuation(hasBody, 0, notes), Separator(hasBody, |notes|);
      && AtBreak(text, sep)
      && (text + sep == "" || Last(text + sep) == '\n')
  {
  }

  lemma NotesLast(cl: Classes, tok: Tokenizer, body: string, open: OpenPrefix, hasBody: bool, notes: seq<string>)
    requires notes != []
    ensures var before, sep := Init(notes), Separator(hasBody, |notes| - 1);
      var text := body + Continuation(hasBody, 0, before);
      && |before| == |notes| - 1
      && NotesOpen(tok, open, hasBody, notes) == Reopened(tok, Reopened(tok, NotesOpen(tok, open, hasBody, before), sep), Last(notes))
      && BadSeparators(cl, body, hasBody, notes) == BadSeparators(cl, body, hasBody, before) + One(BadCut(cl, text, sep))
      && body + Continuation(hasBody, 0, notes) == text + sep + Last(notes)
  {
    NoteNext(body, hasBody, notes, |notes| - 1);
    assert notes[..|notes| - 1] == Init(notes) && notes[..|notes|] == notes;
    hide Continuation, Separator, Reopened;
  }

  lemma NoNotes(cl: Classes, tok: Tokenizer, body: string, open: OpenPrefix, hasBody: bool)
    ensures NotesOpen(tok, open, hasBody, []) == open && BadSeparators(cl, body, hasBody, []) == 0
    ensures body + Continuation(hasBody, 0, []) == body
  {
  }

  /** Behind a feed, or at the start, nothing is cut badly. */
  lemma LineFollows(cl: Classes, count: string -> nat, text: string, open: OpenPrefix, excess: nat, line: string)
    requires Proper(cl) && Follows(cl, text, open, excess) && (text == "" || Last(text) == '\n')
    ensures Follows(cl, text + line, Reopened(LineTokenizer(cl, count), open, line), excess)
  {
    NothingReopens(cl, text);
    hide Reopens, Follows, Reopened;
    FragmentFollows(cl, count, text, open, excess, line);
  }

  lemma {:induction false} NotesFollow(
    cl: Classes, count: string -> nat, body: string, open: OpenPrefix, excess: nat, hasBody: bool, notes: seq<string>)
    requires Proper(cl) && Follows(cl, body, open, excess) && (hasBody || body == "")
    ensures Follows(
              cl, body + Continuation(hasBody, 0, notes), NotesOpen(LineTokenizer(cl, count), open, hasBody, notes),
              excess + BadSeparators(cl, body, hasBody, notes))
    decreases |notes|
  {
    hide *;
    var tok := LineTokenizer(cl, count);
    if notes == [] {
      NoNotes(cl, tok, body, open, hasBody);
    } else {
      var before, sep := Init(notes), Separator(hasBody, |notes| - 1);
      var text, reached := body + Continuation(hasBody, 0, before), NotesOpen(tok, open, hasBody, before);
      NotesLast(cl, tok, body, open, hasBody, notes);
      NotesFollow(cl, count, body, open, excess, hasBody, before);
      SeparatorShape(body, hasBody, before);
      FragmentFollows(cl, count, text, reached, excess + BadSeparators(cl, body, hasBody, before), sep);
      LineFollows(
        cl, count, text + sep, Reopened(tok, reached, sep), excess + BadSeparators(cl, body, hasBody, notes), Last(notes));
    }
  }

  /** A probe counts one piece too many for every bad cut of the page, and exactly the pieces of its text if there is none. */
  lemma {:induction false} ProbeExceeds(
    cl: Classes, count: string -> nat, lines: seq<string>, notes: seq<string>, tail: seq<string>)
    requires Proper(cl)
    ensures var tok := LineTokenizer(cl, count);
      var counted := TailPieces(tok, LinesOpen(tok, lines), lines != [], notes, tail);
      var whole := tok.split(Assembled(lines, notes + tail));
      && |counted| == |whole| + Excess(cl, lines, notes, tail)
      && (Excess(cl, lines, notes, tail) == 0 ==> counted == whole)
  {
    hide *;
    var tok, body, hasBody := LineTokenizer(cl, count), Joined(lines), lines != [];
    PageParts(cl, count, lines, notes, tail);
    LinesFollow(cl, count, lines);
    NotesFollow(cl, count, body, LinesOpen(tok, lines), BadFeeds(cl, lines), hasBody, notes);
    SuffixAtBreak(body, hasBody, notes, tail);
    BehindFollows(
      cl, count, body + Continuation(hasBody, 0, notes), NotesOpen(tok, LinesOpen(tok, lines), hasBody, notes),
      BadFeeds(cl, lines) + BadSeparators(cl, body, hasBody, notes), Continuation(hasBody, |notes|, tail));
  }

  lemma PageParts(cl: Classes, count: string -> nat, lines: seq<string>, notes: seq<string>, tail: seq<string>)
    ensures var tok, body, hasBody := LineTokenizer(cl, count), Joined(lines), lines != [];
      var text, suffix := body + Continuation(hasBody, 0, notes), Continuation(hasBody, |notes|, tail);
      && (hasBody || body == "")
      && tok.split(Assembled(lines, notes + tail)) == Pieces(cl, text + suffix)
      && TailPieces(tok, LinesOpen(tok, lines), hasBody, notes, tail)
         == Behind(tok, NotesOpen(tok, LinesOpen(tok, lines), hasBody, notes), suffix)
      && Excess(cl, lines, notes, tail)
         == BadFeeds(cl, lines) + BadSeparators(cl, body, hasBody, notes) + One(BadCut(cl, text, suffix))
  {
    var body, hasBody := Joined(lines), lines != [];
    ContinuationSplits(hasBody, notes, tail);
    Regroup(body, Continuation(hasBody, 0, notes), Continuation(hasBody, |notes|, tail));
    hide Continuation, BadFeeds, BadSeparators, BadCut, LinesOpen, NotesOpen, Behind, Pieces;
  }

  lemma SuffixAtBreak(body: string, hasBody: bool, notes: seq<string>, tail: seq<string>)
    requires hasBody || body == ""
    ensures AtBreak(body + Continuation(hasBody, 0, notes), Continuation(hasBody, |notes|, tail))
  {
  }

  /** A probe is exact however pieces are counted if and only if its page has no bad cut. */
  lemma {:induction false} ProbeIsExactIffNoBadCut(
    cl: Classes, count: string -> nat, lines: seq<string>, notes: seq<string>, tail: seq<string>)
    requires Proper(cl)
    ensures var tok := LineTokenizer(cl, count);
      SameSums(
        tok, TailPieces(tok, LinesOpen(tok, lines), lines != [], notes, tail), tok.split(Assembled(lines, notes + tail)))
      <==> Excess(cl, lines, notes, tail) == 0
  {
    var tok := LineTokenizer(cl, count);
    var counted := TailPieces(tok, LinesOpen(tok, lines), lines != [], notes, tail);
    var whole := tok.split(Assembled(lines, notes + tail));
    ProbeExceeds(cl, count, lines, notes, tail);
    SumsAgree(tok, counted, whole);
    assert |multiset(counted)| == |counted| && |multiset(whole)| == |whole|;
  }

  // ----- what becomes of a page

  /** How many cuts are bad when this many details are shown below the lines. */
  function PageExcess(cl: Classes, lines: seq<string>, units: NoteUnits, terminal: string, shown: nat): nat
    requires shown <= |units.details| && WithSkips(terminal, units.clause(shown)).Some?
  {
    Excess(
      cl, lines, units.fixed + units.details[..shown], TailOf(units, WithSkips(terminal, units.clause(shown)).value))
  }

  /** What the selected notes were probed to cost exceeds the full count by exactly the bad cuts. */
  lemma {:induction false} SelectionExceeds(
    cl: Classes, lines: seq<string>, units: NoteUnits, terminal: string, budget: nat, notes: seq<string>, tokens: nat)
    returns (shown: nat)
    requires Proper(cl) && LinesState(UnitTokenizer(cl), lines).Ok?
    requires NotesSelected(UnitTokenizer(cl), LinesState(UnitTokenizer(cl), lines).value, |lines| > 0, units, terminal, budget)
          == Ok(Some((notes, tokens)))
    ensures NotesWith(units, terminal, shown, notes)
    ensures tokens == FullCount(UnitTokenizer(cl), Assembled(lines, notes)) + PageExcess(cl, lines, units, terminal, shown)
  {
    var tok, checkpoint, hasBody := UnitTokenizer(cl), LinesState(UnitTokenizer(cl), lines).value, |lines| > 0;
    var graph := DetailGraphOf(tok, checkpoint, hasBody, units.fixed, units.details).value;
    DetailsFacts(tok, graph, units, terminal, budget);
    shown := DetailsSelected(tok, graph, units, terminal, budget).value.value.0;
    ProbeNames(tok, graph, units, terminal, budget);
    StateCounts(tok, lines);
    hide DetailGraphOf, DetailsSelected, LinesState, WithSkips, Proper, LinesOpen, Excess, Assembled, TailProbe, Sum, Pieces;
    var t := WithSkips(terminal, units.clause(shown)).value;
    TailCounts(cl, lines, units, shown, t);
    assert units.fixed + units.details[..shown] + TailOf(units, t) == FinalNotes(units, shown, t);
  }

  lemma TailCounts(cl: Classes, lines: seq<string>, units: NoteUnits, shown: nat, terminal: string)
    requires Proper(cl) && shown <= |units.details|
    requires var tok := UnitTokenizer(cl);
      DetailGraphOf(tok, CheckpointAt(tok, LinesOpen(tok, lines)), |lines| > 0, units.fixed, units.details).Ok?
    ensures var tok, notes := UnitTokenizer(cl), units.fixed + units.details[..shown];
      var graph := DetailGraphOf(tok, CheckpointAt(tok, LinesOpen(tok, lines)), |lines| > 0, units.fixed, units.details).value;
      var r := TailProbe(tok, graph, shown, TailOf(units, terminal));
      r.Ok? ==> r.value == FullCount(tok, Assembled(lines, notes + TailOf(units, terminal)))
                           + Excess(cl, lines, notes, TailOf(units, terminal))
  {
    var tok, notes, tail := UnitTokenizer(cl), units.fixed + units.details[..shown], TailOf(units, terminal);
    var open := LinesOpen(tok, lines);
    TailProbeCounts(tok, open, |lines| > 0, units.fixed, units.details, shown, tail);
    ProbeExceeds(cl, (piece: string) => 1, lines, notes, tail);
    assert (|lines| > 0) == (lines != []);
    SumOfOnes(cl, TailPieces(tok, open, lines != [], notes, tail));
    SumOfOnes(cl, tok.split(Assembled(lines, notes + tail)));
    hide *;
  }

  /**
   A view with selected notes is shown if and only if its page has no bad cut;
   otherwise the finish reports both counts, which differ by the bad cuts.
   */
  lemma {:induction false} ViewIsShownIffNoBadCut(
    cl: Classes, lines: seq<string>, units: NoteUnits, terminal: string, budget: nat, notes: seq<string>, tokens: nat)
    returns (shown: nat)
    requires Proper(cl) && ViewOf(UnitTokenizer(cl), lines).Ok?
    requires NotesSelected(
               UnitTokenizer(cl), ViewOf(UnitTokenizer(cl), lines).value.checkpoint, |lines| > 0, units, terminal, budget)
          == Ok(Some((notes, tokens)))
    ensures NotesWith(units, terminal, shown, notes)
    ensures var full := FullCount(UnitTokenizer(cl), Assembled(lines, notes));
      var excess := PageExcess(cl, lines, units, terminal, shown);
      ViewFinished(UnitTokenizer(cl), ViewOf(UnitTokenizer(cl), lines).value, units, terminal, budget)
      == if excess == 0 then Ok(Some(Assembled(lines, notes))) else Err(CountMismatch(full + excess, full))
  {
    hide *;
    var tok := UnitTokenizer(cl);
    ViewParts(tok, lines);
    var view := ViewOf(tok, lines).value;
    shown := SelectionExceeds(cl, lines, units, terminal, budget, notes, tokens);
    SelectionShape(tok, view.checkpoint, |lines| > 0, units, terminal, budget);
    FinishedAt(tok, view, units, terminal, budget, notes, tokens);
  }

  lemma ViewParts(tok: Tokenizer, lines: seq<string>)
    requires ViewOf(tok, lines).Ok?
    ensures LinesState(tok, lines) == Ok(ViewOf(tok, lines).value.checkpoint) && ViewOf(tok, lines).value.lines == lines
  {
    hide LinesState;
  }

  lemma FinishedAt(
    tok: Tokenizer, view: LineRenderView, units: NoteUnits, terminal: string, budget: nat, notes: seq<string>, tokens: nat)
    requires NotesSelected(tok, view.checkpoint, |view.lines| > 0, units, terminal, budget) == Ok(Some((notes, tokens)))
    requires tokens <= budget
    ensures var full := FullCount(tok, Assembled(view.lines, notes));
      ViewFinished(tok, view, units, terminal, budget)
      == if tokens == full then Ok(Some(Assembled(view.lines, notes))) else Err(CountMismatch(tokens, full))
  {
    hide NotesSelected, FullCount, Assembled;
  }

  /** Without fixed notes and details, a view whose page was probed to fit gets its terminal, at that number. */
  lemma TerminalSelected(tok: Tokenizer, view: LineRenderView, units: NoteUnits, terminal: string, budget: nat)
    requires units.fixed == [] && units.details == [] && BaselineNotes(units, terminal).Ok?
    requires ViewProbe(tok, view, BaselineNotes(units, terminal).value).Ok?
    requires ViewProbe(tok, view, BaselineNotes(units, terminal).value).value <= budget
    ensures NotesSelected(tok, view.checkpoint, |view.lines| > 0, units, terminal, budget)
         == Ok(Some((BaselineNotes(units, terminal).value, ViewProbe(tok, view, BaselineNotes(units, terminal).value).value)))
  {
    var t, hasBody := WithSkips(terminal, units.clause(0)).value, |view.lines| > 0;
    assert FinalNotes(units, 0, t) == TailOf(units, t);
    GraphShape(tok, view.checkpoint, hasBody, units.fixed, units.details);
    assert NotesState(tok, view.checkpoint, hasBody, units.fixed + units.details) == Ok(view.checkpoint);
    hide WithSkips, DetailGraphOf, SuffixProbe, NotesState;
    var graph := DetailGraphOf(tok, view.checkpoint, hasBody, units.fixed, units.details).value;
    FirstGraphCheckpoint(tok, view.checkpoint, hasBody, units, terminal, budget);
    assert (|view.lines| > 0) == (view.lines != []);
    assert DetailProbe(tok, graph, units, terminal, budget, 0)
        == Ok(Some((0, t, ViewProbe(tok, view, BaselineNotes(units, terminal).value).value)));
    assert DetailsSelected(tok, graph, units, terminal, budget) == DetailProbe(tok, graph, units, terminal, budget, 0);
  }

  /**
   Content mode: a full page whose probe fits is shown if and only if it has no
   bad cut, and otherwise ends as a count mismatch.
   */
  lemma {:induction false} FullPageIsShownIffNoBadCut(cl: Classes, page: ContentPage, maximum: nat)
    requires Proper(cl) && page.tok == UnitTokenizer(cl) && page.units.fixed == [] && page.units.details == []
    requires maximum > 0 && RenderProbe(page, maximum, page.context, MAX_MATCH_CHARS).Ok?
    requires RenderProbe(page, maximum, page.context, MAX_MATCH_CHARS).value.Some?
    ensures page.lines(maximum, page.context, MAX_MATCH_CHARS).Ok? && BaselineNotes(page.units, page.terminals(maximum)).Ok?
    ensures var lines := page.lines(maximum, page.context, MAX_MATCH_CHARS).value;
      var notes := BaselineNotes(page.units, page.terminals(maximum)).value;
      var excess, full := Excess(cl, lines, [], notes), FullCount(page.tok, Assembled(lines, notes));
      ContentResponse(page, maximum)
      == if excess == 0 then Text(Assembled(lines, notes)) else Failure(CountMismatch(full + excess, full))
  {
    hide *;
    var c := RenderProbe(page, maximum, page.context, MAX_MATCH_CHARS).value.value;
    CandidateShape(page, maximum, page.context, MAX_MATCH_CHARS, c);
    CandidateView(page, maximum, page.context, MAX_MATCH_CHARS, c);
    FullPageFirst(page, maximum, c);
    ViewOutcome(cl, c.view, page.units, c.terminal, page.budget);
  }

  lemma FullPageFirst(page: ContentPage, maximum: nat, c: Candidate)
    requires maximum > 0 && RenderProbe(page, maximum, page.context, MAX_MATCH_CHARS) == Ok(Some(c))
    ensures var finished := ViewFinished(page.tok, c.view, page.units, c.terminal, page.budget);
      ContentResponse(page, maximum)
      == if finished.Err? then Failure(finished.error)
         else if finished.value.Some? then Text(finished.value.value) else BudgetTooSmall
  {
    LargestArises(page, maximum);
    ContentCases(page, maximum);
    hide RenderProbe, ContentResponse, Arises, NoRendering, DownwardClosed, Largest, ViewFinished;
    assert Passes(ByContext(Renders(page), maximum), page.context);
  }

  lemma ViewOutcome(cl: Classes, view: LineRenderView, units: NoteUnits, terminal: string, budget: nat)
    requires Proper(cl) && units.fixed == [] && units.details == []
    requires ViewOf(UnitTokenizer(cl), view.lines) == Ok(view) && BaselineNotes(units, terminal).Ok?
    requires ViewProbe(UnitTokenizer(cl), view, BaselineNotes(units, terminal).value).Ok?
    requires ViewProbe(UnitTokenizer(cl), view, BaselineNotes(units, terminal).value).value <= budget
    ensures var tok, notes := UnitTokenizer(cl), BaselineNotes(units, terminal).value;
      var excess, full := Excess(cl, view.lines, [], notes), FullCount(tok, Assembled(view.lines, notes));
      ViewFinished(tok, view, units, terminal, budget)
      == if excess == 0 then Ok(Some(Assembled(view.lines, notes))) else Err(CountMismatch(full + excess, full))
  {
    hide *;
    var tok, notes := UnitTokenizer(cl), BaselineNotes(units, terminal).value;
    TerminalSelected(tok, view, units, terminal, budget);
    var shown := ViewIsShownIffNoBadCut(cl, view.lines, units, terminal, budget, notes, ViewProbe(tok, view, notes).value);
    TerminalExcess(cl, view.lines, units, terminal, shown, notes);
  }

  lemma TerminalExcess(
    cl: Classes, lines: seq<string>, units: NoteUnits, terminal: string, shown: nat, notes: seq<string>)
    requires units.fixed == [] && units.details == [] && NotesWith(units, terminal, shown, notes)
    ensures PageExcess(cl, lines, units, terminal, shown) == Excess(cl, lines, [], notes)
  {
    hide Excess, WithSkips;
    var t := WithSkips(terminal, units.clause(shown)).value;
    assert shown == 0 && units.fixed + units.details[..shown] == [] && FinalNotes(units, shown, t) == TailOf(units, t);
  }

  lemma CandidateView(page: ContentPage, shown: nat, context: nat, window: nat, c: Candidate)
    requires RenderProbe(page, shown, context, window) == Ok(Some(c))
    ensures ViewOf(page.tok, c.view.lines) == Ok(c.view)
  {
    hide BaselineNotes, ViewProbe, LinesState;
  }

  // ----- which lines are to blame

  /** A body ends in a bad place exactly if its last line is blanks, at least one, and the line before does not take its feed. */
  lemma {:induction false} ReopensIffBlankLine(cl: Classes, lines: seq<string>)
    requires Proper(cl) && |lines| >= 2 && forall k :: 0 <= k < |Last(lines)| ==> !IsFeed(Last(lines)[k])
    ensures var before, last := Joined(Init(lines)), Last(lines);
      Reopens(cl, Joined(lines)) <==>
      last != "" && (forall k :: 0 <= k < |last| ==> cl.blank(last[k])) && !Taken(cl, before + "\n", |before|)
  {
    JoinedLast(lines);
    var before, last, text := Joined(Init(lines)), Last(lines), Joined(lines);
    var at := |before|;
    assert text[..at + 1] == before + "\n" && text[at] == '\n';
    assert forall k :: 0 <= k < |last| ==> last[k] == text[at + 1 + k];
    assert forall k :: at < k < |text| ==> text[k] == last[k - at - 1];
    TakenInPrefix(cl, text, at + 1, at);
    hide Taken, Joined;
    if Reopens(cl, text) {
      var i: nat :| i < |text| && BlankLine(cl, text, i, |text|);
      assert i == at;
    }
    if last != "" && (forall k :: 0 <= k < |last| ==> cl.blank(last[k])) && !Taken(cl, before + "\n", at) {
      assert BlankLine(cl, text, at, |text|);
    }
  }

  // ----- pages that are small enough are accepted

  lemma {:induction false} PiecesAreFew(cl: Classes, text: string)
    ensures |Pieces(cl, text)| <= |text|
  {
    if text != "" { PiecesAreFew(cl, Init(text)); }
  }

  lemma SmallState(cl: Classes, lines: seq<string>)
    requires Proper(cl) && |Joined(lines)| + BadFeeds(cl, lines) <= WORD_MAX
    ensures LinesState(UnitTokenizer(cl), lines).Ok?
  {
    var tok := UnitTokenizer(cl);
    LinesFollow(cl, (piece: string) => 1, lines);
    StateCounts(tok, lines);
    SumOfOnes(cl, LinesOpen(tok, lines).closed);
    PiecesAreFew(cl, Joined(lines));
    hide LinesState, LinesOpen, BadFeeds, Joined, Pieces, Tracks, Sum;
  }

  lemma SmallProbe(cl: Classes, lines: seq<string>, notes: seq<string>)
    requires Proper(cl) && |Assembled(lines, notes)| + Excess(cl, lines, [], notes) <= WORD_MAX
    requires LinesState(UnitTokenizer(cl), lines).Ok?
    ensures var tok := UnitTokenizer(cl);
      var r := SuffixProbe(tok, LinesState(tok, lines).value, Continuation(lines != [], 0, notes));
      r.Ok? && r.value <= |Assembled(lines, notes)| + Excess(cl, lines, [], notes)
  {
    var tok := UnitTokenizer(cl);
    ProbeCounts(tok, lines, notes);
    ProbeExceeds(cl, (piece: string) => 1, lines, [], notes);
    assert [] + notes == notes;
    assert ProbePieces(tok, lines, notes) == TailPieces(tok, LinesOpen(tok, lines), lines != [], [], notes);
    SumOfOnes(cl, ProbePieces(tok, lines, notes));
    PiecesAreFew(cl, Assembled(lines, notes));
    hide LinesState, LinesOpen, Excess, Assembled, Pieces, Sum, ProbePieces, TailPieces, SuffixProbe;
  }

  lemma SmallPageAccepted(cl: Classes, page: ContentPage, shown: nat, context: nat, window: nat)
    requires Proper(cl) && page.tok == UnitTokenizer(cl)
    requires page.lines(shown, context, window).Ok? && BaselineNotes(page.units, page.terminals(shown)).Ok?
    requires var lines, notes := page.lines(shown, context, window).value, BaselineNotes(page.units, page.terminals(shown)).value;
      && |Joined(lines)| + BadFeeds(cl, lines) <= WORD_MAX
      && |Assembled(lines, notes)| + Excess(cl, lines, [], notes) <= Min(page.budget, WORD_MAX)
    ensures RenderProbe(page, shown, context, window).Ok? && RenderProbe(page, shown, context, window).value.Some?
  {
    var lines, notes := page.lines(shown, context, window).value, BaselineNotes(page.units, page.terminals(shown)).value;
    SmallState(cl, lines);
    SmallProbe(cl, lines, notes);
    hide LinesState, BaselineNotes, SuffixProbe, Excess, BadFeeds, Assembled, Joined, UnitTokenizer;
  }

  // ----- two pages

  /** A letter, as far as it matters here, and a blank. */
  ghost predicate Usual(cl: Classes) {
    Proper(cl) && cl.blank(' ') && !IsSpace(cl, 'a') && !cl.takes('a')
  }

  lemma OneCharacter(cl: Classes, c: char)
    ensures Pieces(cl, [c]) == [[c]]
  {
    PiecesNext(cl, "", c);
    assert "" + [c] == [c] && Pieces(cl, "") == [] && [] + [[c]] == [[c]];
  }

  /** Spaces and tabs are blanks, and punctuation takes the line feeds behind it. */
  function PlainClasses(): Classes {
    Classes((c: char) => c == ' ' || c == '\t', (c: char) => c in ".,;:!?()[]{}")
  }

  lemma PlainClassesAreUsual()
    ensures Usual(PlainClasses())
  {
  }

  /** The open ends that the page is counted in. */
  lemma PiecesOfParts(cl: Classes)
    requires Usual(cl)
    ensures Pieces(cl, "a") == ["a"] && Pieces(cl, "a\n") == ["a", "\n"]
    ensures Pieces(cl, "\n ") == ["\n", " "] && Pieces(cl, " \n") == [" \n"]
  {
    OneCharacter(cl, 'a');
    OneCharacter(cl, '\n');
    OneCharacter(cl, ' ');
    PiecesNext(cl, "a", '\n');
    PiecesNext(cl, "\n", ' ');
    PiecesNext(cl, " ", '\n');
    hide Pieces;
    assert "a" + ['\n'] == "a\n" && "\n" + [' '] == "\n " && " " + ['\n'] == " \n";
  }

  lemma JoinedPieces(cl: Classes)
    requires Usual(cl)
    ensures Grown(cl, ["a", "\n"], ' ') == ["a", "\n", " "]
    ensures Grown(cl, ["a", "\n", " "], '\n') == ["a", "\n \n"]
  {
    var two: seq<string>, three: seq<string> := ["a", "\n"], ["a", "\n", " "];
    assert Last(two) == "\n" && Last(three) == " " && three[|three| - 2] == "\n";
    assert !Extends(cl, "\n", ' ') && Loose(cl, "\n") && cl.blank(End(" "));
    assert Init(three) == two && Init(two) == ["a"];
    assert "\n" + " " + ['\n'] == "\n \n";
    hide Loose, Extends, End;
  }

  lemma PiecesOfWhole(cl: Classes)
    requires Usual(cl)
    ensures Pieces(cl, "a\n \n") == ["a", "\n \n"]
  {
    PiecesOfParts(cl);
    JoinedPieces(cl);
    hide Grown, Pieces, Usual;
    PiecesNext(cl, "a\n", ' ');
    PiecesNext(cl, "a\n ", '\n');
    assert "a\n" + [' '] == "a\n " && "a\n " + ['\n'] == "a\n \n";
  }

  lemma PartsOpen(cl: Classes)
    requires Usual(cl)
    ensures LinesOpen(UnitTokenizer(cl), ["a", " ", ""]) == OpenPrefix(["a", "\n"], " \n")
  {
    var tok := UnitTokenizer(cl);
    PiecesOfParts(cl);
    hide Pieces;
    var one: seq<string>, two: seq<string>, three: seq<string> := ["a"], ["a", " "], ["a", " ", ""];
    assert Init(one) == [] && Init(two) == one && Init(three) == two;
    assert "" + "a" == "a" && "a" + "\n" == "a\n" && "\n" + " " == "\n " && " " + "\n" == " \n";
    var none: seq<string> := [];
    assert Init(["a", "\n"]) == ["a"] && Init(["\n", " "]) == ["\n"] && Init([" \n"]) == none && Init(["a"]) == none;
    assert LinesOpen(tok, []) == OpenPrefix([], "");
    assert Reopened(tok, OpenPrefix([], ""), "a") == OpenPrefix([], "a");
    assert Reopened(tok, OpenPrefix([], "a"), "\n") == OpenPrefix(["a"], "\n");
    assert Reopened(tok, OpenPrefix(["a"], "\n"), " ") == OpenPrefix(["a", "\n"], " ");
    assert Reopened(tok, OpenPrefix(["a", "\n"], " "), "\n") == OpenPrefix(["a", "\n"], " \n");
    hide Reopened;
    assert LinesOpen(tok, one) == OpenPrefix([], "a");
    assert LinesOpen(tok, two) == OpenPrefix(["a", "\n"], " ");
  }

  /**
   A line of blanks between two others, as it is appended: three pieces are
   counted, two there are, and finishing with the probed number is refused.
   */
  lemma BlankLineIsMiscounted(cl: Classes, graph: LineRenderGraph, budget: nat)
    requires Usual(cl) && LineGraphBuilt(UnitTokenizer(cl), graph) && graph.lines == ["a", " ", ""]
    ensures var tok := UnitTokenizer(cl);
      && LinesState(tok, graph.lines) == Ok(TokenCheckpoint(2, " \n"))
      && LineProbe(tok, graph, 3, []) == Ok(3)
      && Assembled(graph.lines, []) == "a\n \n" && FullCount(tok, "a\n \n") == 2
      && Finished(tok, "a\n \n", 3, budget) == Err(CountMismatch(3, 2))
  {
    hide *;
    BlankProbe(cl, graph);
    BlankState(cl, graph.lines);
    BlankText(graph.lines);
    BlankCount(cl, budget);
  }

  lemma BlankState(cl: Classes, lines: seq<string>)
    requires Usual(cl) && lines == ["a", " ", ""] && LinesState(UnitTokenizer(cl), lines).Ok?
    ensures LinesState(UnitTokenizer(cl), lines) == Ok(TokenCheckpoint(2, " \n"))
  {
    hide *;
    PartsOpen(cl);
    StateCounts(UnitTokenizer(cl), lines);
    SumOfOnes(cl, ["a", "\n"]);
    assert CheckpointAt(UnitTokenizer(cl), OpenPrefix(["a", "\n"], " \n"))
        == TokenCheckpoint(Sum(UnitTokenizer(cl), ["a", "\n"]), " \n") by { PricedParts(UnitTokenizer(cl), ["a", "\n"], " \n"); }
  }

  lemma PricedParts(tok: Tokenizer, closed: seq<string>, tail: string)
    ensures CheckpointAt(tok, OpenPrefix(closed, tail)) == TokenCheckpoint(Sum(tok, closed), tail)
  {
  }

  lemma BlankProbe(cl: Classes, graph: LineRenderGraph)
    requires Usual(cl) && LineGraphBuilt(UnitTokenizer(cl), graph) && graph.lines == ["a", " ", ""]
    ensures LinesState(UnitTokenizer(cl), graph.lines).Ok? && LineProbe(UnitTokenizer(cl), graph, 3, []) == Ok(3)
  {
    var tok := UnitTokenizer(cl);
    assert graph.lines[..3] == graph.lines && LinesState(tok, graph.lines[..3]).Ok? && Plain(tok);
    PartsOpen(cl);
    PiecesOfParts(cl);
    assert " \n" + "" == " \n";
    assert ProbePieces(tok, graph.lines, []) == ["a", "\n"] + [" \n"];
    hide *;
    LineProbeCounts(tok, graph, 3, []);
    SumOfOnes(cl, ["a", "\n"] + [" \n"]);
  }

  lemma BlankCount(cl: Classes, budget: nat)
    requires Usual(cl)
    ensures FullCount(UnitTokenizer(cl), "a\n \n") == 2
    ensures Finished(UnitTokenizer(cl), "a\n \n", 3, budget) == Err(CountMismatch(3, 2))
  {
    PiecesOfWhole(cl);
    SumOfOnes(cl, ["a", "\n \n"]);
    hide Pieces, Sum;
  }

  lemma BlankText(lines: seq<string>)
    requires lines == ["a", " ", ""]
    ensures Assembled(lines, []) == "a\n \n"
  {
    JoinedLast(lines);
    JoinedLast(Init(lines));
    assert Init(lines) == ["a", " "] && Init(Init(lines)) == ["a"] && Last(lines) == "" && Last(Init(lines)) == " ";
    assert Joined(["a"]) == "a";
    hide Joined;
    assert "a" + "\n" + " " == "a\n " && "a\n " + "\n" + "" == "a\n \n" && "a\n \n" + "" == "a\n \n";
  }

  /** One match with a line of blanks in its context, without line numbers. */
  function BlankPage(cl: Classes): ContentPage {
    ContentPage(
      UnitTokenizer(cl), NoteUnits([], [], None, (shown: nat) => None), 1000, 2, (shown: nat) => "(Complete.)",
      (shown: nat, context: nat, window: nat) => Ok(if context < 2 then ["a"] else ["a", " ", "a"]))
  }

  lemma JoinOfThree(a: string, b: string, c: string)
    ensures Joined([a, b]) == a + "\n" + b && Joined([a, b, c]) == a + "\n" + b + "\n" + c
  {
    JoinedLast([a, b]);
    JoinedLast([a, b, c]);
    assert Init([a, b]) == [a] && Init([a, b, c]) == [a, b] && Joined([a]) == a;
  }

  /** Its one bad cut is the line feed behind the blank. */
  lemma BlankPageExcess(cl: Classes, notes: seq<string>)
    requires Usual(cl)
    ensures Excess(cl, ["a", " ", "a"], [], notes) == 1 && BadFeeds(cl, ["a", " ", "a"]) == 1
    ensures Joined(["a", " ", "a"]) == "a\n \na"
  {
    var one: seq<string>, two: seq<string>, three: seq<string> := ["a"], ["a", " "], ["a", " ", "a"];
    JoinOfThree("a", " ", "a");
    assert "a" + "\n" + " " == "a\n " && "a" + "\n" + " " + "\n" + "a" == "a\n \na";
    assert Init(three) == two && Init(two) == one && Joined(one) == "a";
    var body := "a\n \na";
    assert body + Continuation(true, 0, []) == body;
    hide Joined, Continuation;
    assert !Reopens(cl, "a") && !Reopens(cl, body) by {
      assert !cl.blank("a"[0]) && !cl.blank(body[4]);
    }
    assert Reopens(cl, "a\n ") by {
      assert !Taken(cl, "a\n ", 1) && BlankLine(cl, "a\n ", 1, 3);
    }
    hide Reopens;
    assert BadFeeds(cl, two) == 0 && BadFeeds(cl, three) == 1;
  }

  /** The response to it is a failure although the page would fit. */
  lemma BlankPageFails(cl: Classes)
    requires Usual(cl)
    ensures var page := BlankPage(cl);
      var text := Assembled(["a", " ", "a"], ["(Complete.)"]);
      && FullCount(page.tok, text) < page.budget
      && ContentResponse(page, 1) == Failure(CountMismatch(FullCount(page.tok, text) + 1, FullCount(page.tok, text)))
  {
    var page, lines, notes := BlankPage(cl), ["a", " ", "a"], ["(Complete.)"];
    BlankPageExcess(cl, notes);
    assert BaselineNotes(page.units, page.terminals(1)) == Ok(notes) by {
      assert FinalNotes(page.units, 0, "(Complete.)") == notes;
    }
    assert |Assembled(lines, notes)| < 900;
    SumOfOnes(cl, Pieces(cl, Assembled(lines, notes)));
    PiecesAreFew(cl, Assembled(lines, notes));
    hide BaselineNotes, Assembled, Joined, Excess, BadFeeds, Pieces, Sum;
    SmallPageAccepted(cl, page, 1, page.context, MAX_MATCH_CHARS);
    FullPageIsShownIffNoBadCut(cl, page, 1);
  }
}

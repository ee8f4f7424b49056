/**
 How grep and glob fit a page into a token budget: binary probes over the
 number of entries and the number of skip details, then one final render.
 Entry lines, terminal notes and skip clauses are opaque strings.
 */
module ResponseFit {
  import opened Wrappers
  import opened TokenCounter
  import opened RenderPlan

  // ----- the probe loop

  /** `probe(k)` found something that fits. */
  predicate Passes<T, E>(probe: nat -> Result<Option<T>, E>, k: nat) {
    probe(k).Ok? && probe(k).value.Some?
  }

  /** Whenever `k` fits, so does everything below it. */
  ghost predicate DownwardClosed<T, E>(probe: nat -> Result<Option<T>, E>, low: nat, high: nat) {
    forall j, k :: low <= j <= k <= high && Passes(probe, k) ==> Passes(probe, j)
  }

  /** Some probe within the range produced `best`. */
  ghost predicate Found<T, E>(probe: nat -> Result<Option<T>, E>, low: nat, high: nat, best: Option<T>) {
    exists k :: low <= k <= high && Passes(probe, k) && probe(k) == Ok(best)
  }

  /** The state of the search: `best` comes from just below `low`, and just above `high` nothing fits. */
  ghost predicate Searching<T, E>(
    probe: nat -> Result<Option<T>, E>, low0: nat, high0: nat, initial: Option<T>, low: int, high: int, best: Option<T>)
  {
    && low0 <= low && high <= high0
    && (if low0 > high0 then low == low0 && high == high0 else low <= high + 1)
    && (if low == low0 then best == initial else Passes(probe, low - 1) && probe(low - 1) == Ok(best))
    && (high < high0 ==> high + 1 >= 0 && probe(high + 1) == Ok(None))
  }

  /** What a finished search answers: something that fits, or that the lowest probe does not. */
  ghost predicate Searched<T, E>(
    probe: nat -> Result<Option<T>, E>, low0: nat, high0: nat, initial: Option<T>, r: Result<Option<T>, E>)
  {
    && (r.Err? ==> exists k :: low0 <= k <= high0 && probe(k) == Err(r.error))
    && (r.Ok? ==> r.value == initial || Found(probe, low0, high0, r.value))
    && (r.Ok? && low0 <= high0 ==> probe(low0) == Ok(None) || Found(probe, low0, high0, r.value))
    && (r.Ok? && DownwardClosed(probe, low0, high0) ==>
          forall k :: low0 <= k <= high0 && Passes(probe, k) ==> Found(probe, k, high0, r.value))
  }

  lemma SearchEnds<T, E>(
    probe: nat -> Result<Option<T>, E>, low0: nat, high0: nat, initial: Option<T>, low: int, high: int, best: Option<T>)
    requires Searching(probe, low0, high0, initial, low, high, best) && low > high
    ensures Searched(probe, low0, high0, initial, Ok(best))
  {
    if low0 <= high0 && DownwardClosed(probe, low0, high0) {
      assert high < high0 ==> !Passes(probe, high + 1);
      forall k | low0 <= k <= high0 && Passes(probe, k) ensures Found(probe, k, high0, best) {
        assert k <= high == low - 1;
      }
    }
  }

  /** The inclusive binary-probe order, without regard to the machine word. */
  function Replayed<T, E>(probe: nat -> Result<Option<T>, E>, low: nat, high: int, best: Option<T>): Result<Option<T>, E>
    decreases high - low
  {
    if low > high then Ok(best)
    else
      var middle := low + (high - low) / 2;
      match probe(middle)
      case Err(error) => Err(error)
      case Ok(found) =>
        if found.Some? then Replayed(probe, middle + 1, high, found) else Replayed(probe, low, middle - 1, best)
  }

  lemma SearchNarrows<T, E>(
    probe: nat -> Result<Option<T>, E>, low0: nat, high0: nat, initial: Option<T>, low: nat, high: int, best: Option<T>,
    middle: nat)
    requires Searching(probe, low0, high0, initial, low, high, best) && low <= middle <= high
    ensures low0 <= middle <= high0
    ensures Passes(probe, middle) ==> Searching(probe, low0, high0, initial, middle + 1, high, probe(middle).value)
    ensures probe(middle) == Ok(None) ==> Searching(probe, low0, high0, initial, low, middle - 1, best)
  {
  }

  lemma {:induction false} ReplayedFrom<T, E>(
    probe: nat -> Result<Option<T>, E>, low0: nat, high0: nat, initial: Option<T>, low: nat, high: int, best: Option<T>)
    requires Searching(probe, low0, high0, initial, low, high, best)
    ensures Searched(probe, low0, high0, initial, Replayed(probe, low, high, best))
    decreases high - low
  {
    hide Searched, Searching;
    if low > high {
      SearchEnds(probe, low0, high0, initial, low, high, best);
    } else {
      var middle := low + (high - low) / 2;
      SearchNarrows(probe, low0, high0, initial, low, high, best, middle);
      match probe(middle)
      case Err(error) => SearchFails(probe, low0, high0, initial, middle);
      case Ok(found) =>
        if found.Some? {
          ReplayedFrom(probe, low0, high0, initial, middle + 1, high, found);
        } else {
          ReplayedFrom(probe, low0, high0, initial, low, middle - 1, best);
        }
    }
  }

  lemma SearchFails<T, E>(probe: nat -> Result<Option<T>, E>, low0: nat, high0: nat, initial: Option<T>, k: nat)
    requires low0 <= k <= high0 && probe(k).Err?
    ensures Searched(probe, low0, high0, initial, Err(probe(k).error))
  {
  }

  /** The search may fail only as a probe does, and under downward closure finds the largest that fits. */
  lemma {:induction false} ReplayedFacts<T, E>(probe: nat -> Result<Option<T>, E>, low: nat, high: nat, initial: Option<T>)
    ensures Searched(probe, low, high, initial, Replayed(probe, low, high, initial))
  {
    hide Searched;
    ReplayedFrom(probe, low, high, initial, low, high, initial);
  }

  /** Replays the inclusive binary-probe order without unsigned underflow. */
  method ReplayCompatBinaryProbes<T, E>(
    low0: nat, high0: nat, initial: Option<T>, probe: nat -> Result<Option<T>, E>) returns (r: Result<Option<T>, E>)
    requires high0 <= WORD_MAX
    ensures r == Replayed(probe, low0, high0, initial) && Searched(probe, low0, high0, initial, r)
  {
    hide Searched;
    ReplayedFacts(probe, low0, high0, initial);
    var low: nat, high: nat := low0, high0;
    var best := initial;
    while low <= high
      invariant high <= WORD_MAX && Replayed(probe, low, high, best) == Replayed(probe, low0, high0, initial)
      decreases high - low
    {
      var middle := low + (high - low) / 2;
      var found :- probe(middle);
      if found.Some? {
        best := found;
        if middle == WORD_MAX { break; }
        low := middle + 1;
      } else {
        if middle == 0 { break; }
        high := middle - 1;
      }
    }
    r := Ok(best);
  }

  // ----- terminal notes

  /** `terminal_with_skips`: folds a clause into a note that ends in `.)`. */
  function WithSkips(terminal: string, clause: Option<string>): Option<string> {
    match clause
    case None => Some(terminal)
    case Some(text) =>
      var n := |terminal|;
      if n >= 2 && terminal[n - 2..] == ".)" then Some(terminal[..n - 2] + "; " + text + ".)") else None
  }

  predicate EndsIn(text: string, suffix: string) {
    |suffix| <= |text| && text[|text| - |suffix|..] == suffix
  }

  /** A note that says what the terminal says and, if there is a clause, the clause before the closing `.)`. */
  ghost predicate Folded(terminal: string, clause: Option<string>, note: string) {
    match clause
    case None => note == terminal
    case Some(c) =>
      && EndsIn(terminal, ".)") && |note| == |terminal| + |c| + 2
      && note[..|terminal| - 2] == terminal[..|terminal| - 2] && note[|terminal| - 2..|terminal|] == "; "
      && note[|terminal|..|terminal| + |c|] == c && EndsIn(note, ".)")
  }

  /** Folding fails only for a note that does not end as notes do, and otherwise loses neither note nor clause. */
  lemma {:induction false} WithSkipsSucceeds(terminal: string, clause: Option<string>)
    ensures WithSkips(terminal, clause).None? <==> clause.Some? && !EndsIn(terminal, ".)")
    ensures WithSkips(terminal, clause).Some? ==> Folded(terminal, clause, WithSkips(terminal, clause).value)
  {
    var n := |terminal|;
    if clause.Some? && EndsIn(terminal, ".)") {
      var c := clause.value;
      var stem := terminal[..n - 2];
      assert stem + "; " + c + ".)" == stem + ("; " + (c + ".)"));
      var note := stem + "; " + c + ".)";
      assert note[..n - 2] == stem && note[n - 2..n] == "; " && note[n..n + |c|] == c && note[|note| - 2..] == ".)";
    }
  }

  lemma FoldedIsWithSkips(terminal: string, clause: Option<string>, note: string)
    ensures Folded(terminal, clause, note) <==> WithSkips(terminal, clause) == Some(note)
  {
    WithSkipsSucceeds(terminal, clause);
    if clause.Some? && Folded(terminal, clause, note) {
      var n, c := |terminal|, clause.value;
      assert note == note[..n - 2] + note[n - 2..n] + note[n..n + |c|] + note[n + |c|..];
    }
  }

  datatype Response = Text(text: string) | BudgetTooSmall | SourceError(message: string) | Failure(error: RenderPlanError)

  /** The only failures a finished page may report: the tokenizer's own, and a note of the wrong shape. */
  predicate Honest(error: RenderPlanError) {
    error.Token? || error.InvalidTerminal?
  }

  // ----- grep

  datatype NoteUnits = NoteUnits(
    fixed: seq<string>, details: seq<string>, fallback: Option<string>, clause: nat -> Option<string>)

  function TailOf(units: NoteUnits, terminal: string): seq<string> {
    (match units.fallback case None => [] case Some(note) => [note]) + [terminal]
  }

  function FinalNotes(units: NoteUnits, shown: nat, terminal: string): seq<string>
    requires shown <= |units.details|
  {
    units.fixed + units.details[..shown] + TailOf(units, terminal)
  }

  /** The notes of a page without any detail line. */
  function BaselineNotes(units: NoteUnits, terminal: string): Result<seq<string>, RenderPlanError> {
    match WithSkips(terminal, units.clause(0))
    case None => Err(InvalidTerminal)
    case Some(t) => Ok(FinalNotes(units, 0, t))
  }

  datatype GrepPage = GrepPage(tok: Tokenizer, graph: LineRenderGraph, units: NoteUnits, budget: nat)

  ghost predicate PageOk(page: GrepPage) {
    && Lawful(page.tok) && LineGraphBuilt(page.tok, page.graph)
    && |page.graph.lines| <= WORD_MAX && |page.units.details| <= WORD_MAX
  }

  /** The first so many entries, as a view of their own. */
  function PrefixView(graph: LineRenderGraph, shown: nat): LineRenderView
    requires |graph.checkpoints| == |graph.lines| + 1 && shown <= |graph.lines|
  {
    LineRenderView(graph.lines[..shown], graph.checkpoints[shown])
  }

  /** A line probe is the probe of that view, and the view describes its lines if they may be cut where they are. */
  lemma PrefixIsView(tok: Tokenizer, graph: LineRenderGraph, shown: nat)
    requires LineGraphBuilt(tok, graph) && shown <= |graph.lines|
    ensures forall notes :: LineProbe(tok, graph, shown, notes) == ViewProbe(tok, PrefixView(graph, shown), notes)
    ensures Lawful(tok) && CutsWell(tok, Joined(graph.lines[..shown])) ==> ViewOk(tok, PrefixView(graph, shown))
  {
    if Lawful(tok) && CutsWell(tok, Joined(graph.lines[..shown])) { ViewIsExact(tok, graph.lines[..shown]); }
    hide LinesState, SuffixProbe, Continuation, CutsWell, Lawful;
  }

  /** The page with this many details may be cut where it is counted. */
  ghost predicate ShownCutsWell(
    tok: Tokenizer, body: string, hasBody: bool, units: NoteUnits, terminal: string, shown: nat)
    requires shown <= |units.details|
  {
    var t := WithSkips(terminal, units.clause(shown));
    t.Some? ==> CutsWell(tok, NotedText(body, hasBody, FinalNotes(units, shown, t.value)))
  }

  /** So may every text that choosing the notes below this body counts. */
  ghost predicate NotesCutWell(tok: Tokenizer, body: string, hasBody: bool, units: NoteUnits, terminal: string) {
    && (hasBody || body == "")
    && CutsWell(tok, NotedText(body, hasBody, units.fixed + units.details))
    && (forall k :: 0 <= k <= |units.details| ==> ShownCutsWell(tok, body, hasBody, units, terminal, k))
  }

  ghost predicate EntriesCutWell(page: GrepPage, terminals: nat -> string, shown: nat)
    requires shown <= |page.graph.lines|
  {
    NotesCutWell(page.tok, Joined(page.graph.lines[..shown]), shown > 0, page.units, terminals(shown))
  }

  /** Every page that may be tried is cut well. */
  ghost predicate PageCutsWell(page: GrepPage, terminals: nat -> string, maximum: nat)
    requires maximum <= |page.graph.lines|
  {
    forall k :: 1 <= k <= maximum ==> EntriesCutWell(page, terminals, k)
  }

  /** One body probe: the first `shown` entries with the baseline notes of their terminal. */
  function BodyProbe(page: GrepPage, terminals: nat -> string, shown: nat): Result<Option<(nat, string)>, RenderPlanError> {
    match BaselineNotes(page.units, terminals(shown))
    case Err(error) => Err(error)
    case Ok(notes) =>
      match LineProbe(page.tok, page.graph, shown, notes)
      case Err(error) => Err(error)
      case Ok(tokens) => if tokens <= page.budget then Ok(Some((shown, terminals(shown)))) else Ok(None)
  }

  /** Every prefix of the entries, with its baseline notes, can be counted. */
  ghost predicate BodiesPayable(page: GrepPage, terminals: nat -> string, maximum: nat)
    requires maximum <= |page.graph.lines|
  {
    && Plain(page.tok)
    && (forall k :: 1 <= k <= maximum ==>
          BaselineNotes(page.units, terminals(k)).Ok? &&
          FullCount(page.tok, Assembled(page.graph.lines[..k], BaselineNotes(page.units, terminals(k)).value)) <= WORD_MAX)
  }

  /** The body probe as the search calls it. */
  function BodyProbes(page: GrepPage, terminals: nat -> string): nat -> Result<Option<(nat, string)>, RenderPlanError> {
    (shown: nat) => BodyProbe(page, terminals, shown)
  }

  method SelectBodyPrefix(page: GrepPage, maximum: nat, terminals: nat -> string)
    returns (r: Result<Option<(nat, string)>, RenderPlanError>)
    requires PageOk(page) && maximum <= |page.graph.lines|
    ensures r.Ok? && r.value.Some? ==>
              1 <= r.value.value.0 <= maximum && BodyProbe(page, terminals, r.value.value.0) == r
    ensures r == Ok(None) ==>
              maximum == 0 || (BodyProbe(page, terminals, 1) == Ok(None) && BodyProbe(page, terminals, maximum) == Ok(None))
    ensures maximum > 0 && Passes(BodyProbes(page, terminals), maximum) ==> r == BodyProbe(page, terminals, maximum)
    ensures r.Ok? && maximum > 0 && DownwardClosed(BodyProbes(page, terminals), 1, maximum) ==>
              forall k :: 1 <= k <= maximum && Passes(BodyProbes(page, terminals), k) ==>
                Found(BodyProbes(page, terminals), k, maximum, r.value)
    ensures r.Err? ==> Honest(r.error)
    ensures r.Err? && PageCutsWell(page, terminals, maximum) ==> !BodiesPayable(page, terminals, maximum)
  {
    if maximum == 0 { return Ok(None); }
    PageFitsWord(page);
    hide LineProbe, WithSkips, FinalNotes, PageOk, EntriesCutWell;
    ProbesAreHonest(page, terminals, maximum);
    var notes :- BaselineNotes(page.units, terminals(maximum));
    var tokens :- ProbeLines(page.tok, page.graph, maximum, notes);
    var probe := BodyProbes(page, terminals);
    if tokens <= page.budget {
      r := Ok(Some((maximum, terminals(maximum))));
      assert Passes(probe, maximum) && probe(maximum) == r;
      return;
    }
    assert !Passes(probe, maximum);
    hide DownwardClosed, Found, BodyProbe, Searched, PageCutsWell;
    r := ReplayCompatBinaryProbes(1, maximum - 1, None, probe);
    SearchedPrefix(page, terminals, maximum, r);
  }

  lemma PrefixFails(page: GrepPage, terminals: nat -> string, maximum: nat, error: RenderPlanError)
    requires PageOk(page) && 1 <= maximum <= |page.graph.lines|
    requires exists k :: 1 <= k <= maximum - 1 && BodyProbes(page, terminals)(k) == Err(error)
    ensures Honest(error)
    ensures PageCutsWell(page, terminals, maximum) ==> !BodiesPayable(page, terminals, maximum)
  {
    hide PageOk, BodyProbe, EntriesCutWell, BodiesPayable;
    var k: nat :| 1 <= k <= maximum - 1 && BodyProbes(page, terminals)(k) == Err(error);
    assert PageCutsWell(page, terminals, maximum) ==> EntriesCutWell(page, terminals, k);
    ProbesAreHonest(page, terminals, k);
  }

  /** What the search over fewer than all entries says about all of them. */
  lemma SearchedPrefix(page: GrepPage, terminals: nat -> string, maximum: nat, r: Result<Option<(nat, string)>, RenderPlanError>)
    requires PageOk(page) && 1 <= maximum <= |page.graph.lines| && BodyProbe(page, terminals, maximum) == Ok(None)
    requires Searched(BodyProbes(page, terminals), 1, maximum - 1, None, r)
    ensures r.Err? ==> Honest(r.error)
    ensures r.Err? && PageCutsWell(page, terminals, maximum) ==> !BodiesPayable(page, terminals, maximum)
    ensures r == Ok(None) ==> BodyProbe(page, terminals, 1) == Ok(None)
    ensures r.Ok? && r.value.Some? ==>
              1 <= r.value.value.0 <= maximum && BodyProbe(page, terminals, r.value.value.0) == r
    ensures r.Ok? && DownwardClosed(BodyProbes(page, terminals), 1, maximum) ==>
              forall k :: 1 <= k <= maximum && Passes(BodyProbes(page, terminals), k) ==>
                Found(BodyProbes(page, terminals), k, maximum, r.value)
  {
    hide PageOk, BodyProbe, PageCutsWell, BodiesPayable, DownwardClosed, Honest;
    var probe := BodyProbes(page, terminals);
    if r.Err? {
      PrefixFails(page, terminals, maximum, r.error);
    } else {
      if r.value.Some? {
        var k: nat :| 1 <= k <= maximum - 1 && Passes(probe, k) && probe(k) == r;
        BodyProbeNames(page, terminals, k);
      }
      if DownwardClosed(probe, 1, maximum) { LargestBelow(probe, maximum, r); }
    }
  }

  lemma PageFitsWord(page: GrepPage)
    requires PageOk(page)
    ensures |page.graph.lines| <= WORD_MAX && |page.units.details| <= WORD_MAX
  {
  }

  lemma ProbesAreHonest(page: GrepPage, terminals: nat -> string, shown: nat)
    requires PageOk(page) && shown <= |page.graph.lines|
    ensures BodyProbe(page, terminals, shown).Err? ==> Honest(BodyProbe(page, terminals, shown).error)
    ensures BodyProbe(page, terminals, shown).Err? && EntriesCutWell(page, terminals, shown) ==>
              forall maximum :: 1 <= shown <= maximum <= |page.graph.lines| ==> !BodiesPayable(page, terminals, maximum)
  {
    PrefixIsView(page.tok, page.graph, shown);
    SuffixFails(page.tok);
    hide Lawful, CutsWell, SuffixProbe, FinalNotes, ViewOk;
    if BaselineNotes(page.units, terminals(shown)).Ok? && EntriesCutWell(page, terminals, shown) {
      BaselineIsExact(page.tok, PrefixView(page.graph, shown), page.units, terminals(shown));
    }
  }

  /** Where the page may be cut, the probe of its baseline notes counts its text. */
  lemma BaselineIsExact(tok: Tokenizer, view: LineRenderView, units: NoteUnits, terminal: string)
    requires Lawful(tok) && NotesCutWell(tok, Joined(view.lines), |view.lines| > 0, units, terminal)
    requires CutsWell(tok, Joined(view.lines)) ==> ViewOk(tok, view)
    requires BaselineNotes(units, terminal).Ok?
    ensures var notes := BaselineNotes(units, terminal).value;
      Probes(tok, Assembled(view.lines, notes), ViewProbe(tok, view, notes))
  {
    var notes := BaselineNotes(units, terminal).value;
    NotedIsAssembled(view.lines, notes);
    assert ShownCutsWell(tok, Joined(view.lines), |view.lines| > 0, units, terminal, 0);
    hide CutsWell, ViewOk, Lawful;
    BodyCutsWell(tok, Joined(view.lines), |view.lines| > 0, units.fixed + units.details);
    ViewProbeIsExact(tok, view, notes);
  }

  /** Notes with some number of details and a matching terminal. */
  ghost predicate NotesOf(units: NoteUnits, terminal: string, notes: seq<string>) {
    exists shown :: NotesWith(units, terminal, shown, notes)
  }

  predicate NotesWith(units: NoteUnits, terminal: string, shown: nat, notes: seq<string>) {
    && shown <= |units.details|
    && WithSkips(terminal, units.clause(shown)).Some?
    && notes == FinalNotes(units, shown, WithSkips(terminal, units.clause(shown)).value)
  }

  function NotedText(body: string, hasBody: bool, notes: seq<string>): string {
    body + Continuation(hasBody, 0, notes)
  }

  /** A selection of notes is priced at exactly the text it leads to. */
  ghost predicate Priced(tok: Tokenizer, body: string, hasBody: bool, notes: seq<string>, tokens: nat) {
    tokens == FullCount(tok, NotedText(body, hasBody, notes))
  }

  /** The page with no details at all costs more than the budget. */
  ghost predicate BaselineTooLong(
    tok: Tokenizer, body: string, hasBody: bool, units: NoteUnits, terminal: string, budget: nat)
  {
    && BaselineNotes(units, terminal).Ok?
    && FullCount(tok, NotedText(body, hasBody, BaselineNotes(units, terminal).value)) > budget
  }

  ghost predicate AllDetailsFit(
    tok: Tokenizer, body: string, hasBody: bool, units: NoteUnits, terminal: string, budget: nat)
  {
    var t := WithSkips(terminal, units.clause(|units.details|));
    t.Some? && FullCount(tok, NotedText(body, hasBody, FinalNotes(units, |units.details|, t.value))) <= budget
  }

  /** The page with this many details costs no more than the budget. */
  predicate NotesFit(
    tok: Tokenizer, body: string, hasBody: bool, units: NoteUnits, terminal: string, budget: nat, shown: nat)
    requires shown <= |units.details|
  {
    var t := WithSkips(terminal, units.clause(shown));
    t.Some? && FullCount(tok, NotedText(body, hasBody, FinalNotes(units, shown, t.value))) <= budget
  }

  /** Whenever some number of details fits, so does every smaller number. */
  ghost predicate NotesDownwardClosed(
    tok: Tokenizer, body: string, hasBody: bool, units: NoteUnits, terminal: string, budget: nat)
  {
    forall j, k :: 0 <= j <= k <= |units.details| && NotesFit(tok, body, hasBody, units, terminal, budget, k) ==>
      NotesFit(tok, body, hasBody, units, terminal, budget, j)
  }

  /** The notes show this many details, and no larger number fits. */
  ghost predicate MostNotes(
    tok: Tokenizer, body: string, hasBody: bool, units: NoteUnits, terminal: string, budget: nat, notes: seq<string>,
    shown: nat)
  {
    && NotesWith(units, terminal, shown, notes)
    && (forall k :: shown < k <= |units.details| ==> !NotesFit(tok, body, hasBody, units, terminal, budget, k))
  }

  /** The page can be counted with any number of details, and every terminal takes its skip clause. */
  ghost predicate NotesPayable(tok: Tokenizer, body: string, hasBody: bool, units: NoteUnits, terminal: string) {
    && Plain(tok)
    && FullCount(tok, NotedText(body, hasBody, units.fixed + units.details)) <= WORD_MAX
    && (forall k :: 0 <= k <= |units.details| ==> NotePayable(tok, body, hasBody, units, terminal, k))
  }

  predicate NotePayable(tok: Tokenizer, body: string, hasBody: bool, units: NoteUnits, terminal: string, shown: nat)
    requires shown <= |units.details|
  {
    var t := WithSkips(terminal, units.clause(shown));
    t.Some? && FullCount(tok, NotedText(body, hasBody, FinalNotes(units, shown, t.value))) <= WORD_MAX
  }

  /** One probe of the detail search. */
  function DetailProbe(
    tok: Tokenizer, graph: DetailRenderGraph, units: NoteUnits, terminal: string, budget: nat, shown: nat)
    : Result<Option<(nat, string, nat)>, RenderPlanError>
  {
    match WithSkips(terminal, units.clause(shown))
    case None => Err(InvalidTerminal)
    case Some(t) =>
      match TailProbe(tok, graph, shown, TailOf(units, t))
      case Err(error) => Err(error)
      case Ok(tokens) => if tokens <= budget then Ok(Some((shown, t, tokens))) else Ok(None)
  }

  lemma DetailProbeIsExact(
    tok: Tokenizer, graph: DetailRenderGraph, body: string, units: NoteUnits, terminal: string, budget: nat, shown: nat)
    requires Lawful(tok) && DetailGraphOk(tok, graph, body, units.fixed, units.details) && shown <= |units.details|
    requires NotesCutWell(tok, body, graph.hasBody, units, terminal)
    ensures var r := DetailProbe(tok, graph, units, terminal, budget, shown);
      && (r.Err? ==> Honest(r.error))
      && (r.Ok? ==> WithSkips(terminal, units.clause(shown)).Some?)
      && (r.Ok? ==>
            var notes := FinalNotes(units, shown, WithSkips(terminal, units.clause(shown)).value);
            var tokens := FullCount(tok, NotedText(body, graph.hasBody, notes));
            r.value == if tokens <= budget then Some((shown, WithSkips(terminal, units.clause(shown)).value, tokens)) else None)
      && (r.Err? && Plain(tok) ==> !NotePayable(tok, body, graph.hasBody, units, terminal, shown))
      && (r.Ok? && r.value.Some? ==> NotesFit(tok, body, graph.hasBody, units, terminal, budget, shown))
      && (Plain(tok) && budget <= WORD_MAX && NotesFit(tok, body, graph.hasBody, units, terminal, budget, shown) ==>
            r.Ok? && r.value.Some?)
  {
    var t := WithSkips(terminal, units.clause(shown));
    if t.Some? {
      assert ShownCutsWell(tok, body, graph.hasBody, units, terminal, shown);
      hide CutsWell;
      TailProbeIsExact(tok, graph, shown, TailOf(units, t.value), body, units.fixed, units.details);
      hide Lawful, DetailGraphOk;
    }
  }

  /** The detail probe as the search calls it. */
  function DetailProbes(tok: Tokenizer, graph: DetailRenderGraph, units: NoteUnits, terminal: string, budget: nat)
    : nat -> Result<Option<(nat, string, nat)>, RenderPlanError>
  {
    (shown: nat) => DetailProbe(tok, graph, units, terminal, budget, shown)
  }

  /** All details if they fit, else none if not even none fits, else as many as the search finds room for. */
  function DetailsSelected(tok: Tokenizer, graph: DetailRenderGraph, units: NoteUnits, terminal: string, budget: nat)
    : Result<Option<(nat, string, nat)>, RenderPlanError>
  {
    var probe, total := DetailProbes(tok, graph, units, terminal, budget), |units.details|;
    if probe(total) != Ok(None) then probe(total)
    else if probe(0).Err? || probe(0).value.None? || total <= 1 then probe(0)
    else Replayed(probe, 1, total - 1, probe(0).value)
  }

  /** What is selected is what one of the probes answered; nothing only if the page without details was refused. */
  lemma {:induction false} DetailsFacts(tok: Tokenizer, graph: DetailRenderGraph, units: NoteUnits, terminal: string, budget: nat)
    ensures var r := DetailsSelected(tok, graph, units, terminal, budget);
      && (r.Err? ==>
            exists k: nat :: k <= |units.details| && DetailProbe(tok, graph, units, terminal, budget, k) == Err(r.error))
      && (r == Ok(None) ==> DetailProbe(tok, graph, units, terminal, budget, 0) == Ok(None))
      && (r.Ok? && r.value.Some? ==>
            r.value.value.0 <= |units.details| && DetailProbe(tok, graph, units, terminal, budget, r.value.value.0) == r)
  {
    var probe, total := DetailProbes(tok, graph, units, terminal, budget), |units.details|;
    ProbeNames(tok, graph, units, terminal, budget);
    hide DetailProbe, Replayed, Searched;
    if probe(total) == Ok(None) && probe(0).Ok? && probe(0).value.Some? && total > 1 {
      ReplayedFacts(probe, 1, total - 1, probe(0).value);
      SearchNames(tok, graph, units, terminal, budget, probe, probe(0).value, Replayed(probe, 1, total - 1, probe(0).value));
    }
  }

  /** If fitting is downward closed, no more details than are selected fit. */
  lemma {:induction false} DetailsLargest(
    tok: Tokenizer, graph: DetailRenderGraph, body: string, units: NoteUnits, terminal: string, budget: nat)
    requires Lawful(tok) && DetailGraphOk(tok, graph, body, units.fixed, units.details)
    requires NotesCutWell(tok, body, graph.hasBody, units, terminal) && Plain(tok) && budget <= WORD_MAX
    requires NotesDownwardClosed(tok, body, graph.hasBody, units, terminal, budget)
    ensures var r := DetailsSelected(tok, graph, units, terminal, budget);
      r.Ok? && r.value.Some? ==>
        forall k :: r.value.value.0 < k <= |units.details| ==> !NotesFit(tok, body, graph.hasBody, units, terminal, budget, k)
  {
    hide Lawful, DetailGraphOk, DetailProbe, NotesCutWell, NotesDownwardClosed, NotesFit, DownwardClosed, Plain, Replayed, Found;
    var probe, total := DetailProbes(tok, graph, units, terminal, budget), |units.details|;
    ProbeNames(tok, graph, units, terminal, budget);
    DetailProbeIsExact(tok, graph, body, units, terminal, budget, total);
    if probe(total) == Ok(None) && probe(0).Ok? && probe(0).value.Some? && total > 1 {
      ReplayedFacts(probe, 1, total - 1, probe(0).value);
      var r := Replayed(probe, 1, total - 1, probe(0).value);
      SearchNames(tok, graph, units, terminal, budget, probe, probe(0).value, r);
      if r.Ok? { SearchIsLargest(tok, graph, body, units, terminal, budget, probe, r.value); }
    }
  }

  method SelectDetails(tok: Tokenizer, graph: DetailRenderGraph, units: NoteUnits, terminal: string, budget: nat)
    returns (r: Result<Option<(nat, string, nat)>, RenderPlanError>)
    requires |units.details| <= WORD_MAX
    ensures r == DetailsSelected(tok, graph, units, terminal, budget)
  {
    hide DetailProbe, Replayed, Searched;
    var total := |units.details|;
    var full := ProbeDetails(tok, graph, units, terminal, budget, total);
    if full.Err? || full.value.Some? { return full; }
    var baseline := ProbeDetails(tok, graph, units, terminal, budget, 0);
    if baseline.Err? || baseline.value.None? || total <= 1 { return baseline; }
    r := ReplayCompatBinaryProbes(1, total - 1, baseline.value, DetailProbes(tok, graph, units, terminal, budget));
  }

  /** The notes below a body whose size is settled, and the tokens that the page was probed to cost. */
  function NotesSelected(
    tok: Tokenizer, checkpoint: TokenCheckpoint, hasBody: bool, units: NoteUnits, terminal: string, budget: nat)
    : Result<Option<(seq<string>, nat)>, RenderPlanError>
  {
    match DetailGraphOf(tok, checkpoint, hasBody, units.fixed, units.details)
    case Err(error) => Err(error)
    case Ok(graph) =>
      match DetailsSelected(tok, graph, units, terminal, budget)
      case Err(error) => Err(error)
      case Ok(None) => Ok(None)
      case Ok(Some(best)) =>
        DetailsFacts(tok, graph, units, terminal, budget);
        Ok(Some((FinalNotes(units, best.0, best.1), best.2)))
  }

  lemma DetailProbeShape(
    tok: Tokenizer, graph: DetailRenderGraph, units: NoteUnits, terminal: string, budget: nat, shown: nat)
    requires |graph.checkpoints| == |units.details| + 1 && shown <= |units.details|
    ensures var r := DetailProbe(tok, graph, units, terminal, budget, shown);
      && (r.Err? ==> Honest(r.error))
      && (r.Ok? && r.value.Some? ==>
            WithSkips(terminal, units.clause(shown)) == Some(r.value.value.1) && r.value.value.2 <= budget)
  {
    hide WithSkips, CountedBehind;
  }

  /** Whatever the tokenizer does at cuts, the selected notes were probed to fit, and only honest failures occur. */
  lemma {:induction false} SelectionShape(
    tok: Tokenizer, checkpoint: TokenCheckpoint, hasBody: bool, units: NoteUnits, terminal: string, budget: nat)
    ensures var r := NotesSelected(tok, checkpoint, hasBody, units, terminal, budget);
      && (r.Ok? && r.value.Some? ==> NotesOf(units, terminal, r.value.value.0) && r.value.value.1 <= budget)
      && (r.Err? ==> Honest(r.error))
  {
    GraphShape(tok, checkpoint, hasBody, units.fixed, units.details);
    var graph := DetailGraphOf(tok, checkpoint, hasBody, units.fixed, units.details);
    hide DetailGraphOf, NotesState, WithSkips, FinalNotes, DetailProbe, DetailsSelected;
    if graph.Ok? {
      DetailsFacts(tok, graph.value, units, terminal, budget);
      var selected := DetailsSelected(tok, graph.value, units, terminal, budget);
      if selected.Err? {
        var k: nat :| k <= |units.details| && DetailProbe(tok, graph.value, units, terminal, budget, k) == Err(selected.error);
        DetailProbeShape(tok, graph.value, units, terminal, budget, k);
      } else if selected.value.Some? {
        var shown := selected.value.value.0;
        DetailProbeShape(tok, graph.value, units, terminal, budget, shown);
        ProbeNames(tok, graph.value, units, terminal, budget);
        assert NotesWith(units, terminal, shown, FinalNotes(units, shown, selected.value.value.1));
      }
    }
  }

  /** What selecting notes means where every text it counts may be cut where it is. */
  ghost predicate SelectedExactly(
    tok: Tokenizer, body: string, hasBody: bool, units: NoteUnits, terminal: string, budget: nat,
    r: Result<Option<(seq<string>, nat)>, RenderPlanError>)
  {
    && (r.Ok? && r.value.Some? ==> Priced(tok, body, hasBody, r.value.value.0, r.value.value.1))
    && (r == Ok(None) ==> BaselineTooLong(tok, body, hasBody, units, terminal, budget))
    && (r.Ok? && AllDetailsFit(tok, body, hasBody, units, terminal, budget) ==>
          r.value.Some? && NotesWith(units, terminal, |units.details|, r.value.value.0))
    && (r.Ok? && r.value.Some? && Plain(tok) && budget <= WORD_MAX
        && NotesDownwardClosed(tok, body, hasBody, units, terminal, budget) ==>
          exists shown :: MostNotes(tok, body, hasBody, units, terminal, budget, r.value.value.0, shown))
    && (r.Err? ==> !NotesPayable(tok, body, hasBody, units, terminal))
  }

  /** Selected notes are priced at the final text; giving up means that the page without details does not fit. */
  lemma {:induction false} SelectionIsExact(
    tok: Tokenizer, body: string, hasBody: bool, units: NoteUnits, terminal: string, budget: nat)
    requires Lawful(tok) && NotesCutWell(tok, body, hasBody, units, terminal)
    ensures SelectedExactly(
              tok, body, hasBody, units, terminal, budget,
              NotesSelected(tok, CheckpointOf(tok, body), hasBody, units, terminal, budget))
  {
    hide Lawful, CheckpointOf, DetailGraphOk, DetailProbe, DetailsSelected, WithSkips, FinalNotes, FullCount, NotePayable, CutsWell,
      ShownCutsWell, NotesDownwardClosed, NotesFit, NotesState, DetailGraphOf;
    DetailGraphIsExact(tok, body, hasBody, units.fixed, units.details);
    GraphShape(tok, CheckpointOf(tok, body), hasBody, units.fixed, units.details);
    var r := DetailGraphOf(tok, CheckpointOf(tok, body), hasBody, units.fixed, units.details);
    hide NotedText, NotesCutWell;
    if r.Ok? { DetailsAreExact(tok, r.value, body, units, terminal, budget); }
  }

  lemma DetailsAreExact(tok: Tokenizer, graph: DetailRenderGraph, body: string, units: NoteUnits, terminal: string, budget: nat)
    requires Lawful(tok) && DetailGraphOk(tok, graph, body, units.fixed, units.details)
    requires NotesCutWell(tok, body, graph.hasBody, units, terminal)
    ensures var selected := DetailsSelected(tok, graph, units, terminal, budget);
      && (selected.Ok? && selected.value.Some? ==> selected.value.value.0 <= |units.details|)
      && SelectedExactly(
           tok, body, graph.hasBody, units, terminal, budget,
           match selected
           case Err(error) => Err(error)
           case Ok(None) => Ok(None)
           case Ok(Some(best)) =>
             if best.0 <= |units.details| then Ok(Some((FinalNotes(units, best.0, best.1), best.2))) else Ok(None))
  {
    var selected, total := DetailsSelected(tok, graph, units, terminal, budget), |units.details|;
    DetailsFacts(tok, graph, units, terminal, budget);
    FullDetailsFirst(tok, graph, units, terminal, budget);
    hide Lawful, DetailGraphOk, DetailProbe, DetailsSelected, WithSkips, FinalNotes, FullCount, NotePayable, NotesDownwardClosed,
      NotesFit, NotedText, NotesCutWell;
    DetailProbeIsExact(tok, graph, body, units, terminal, budget, total);
    DetailProbeIsExact(tok, graph, body, units, terminal, budget, 0);
    if selected.Err? {
      var k: nat :| k <= total && DetailProbe(tok, graph, units, terminal, budget, k) == Err(selected.error);
      DetailProbeIsExact(tok, graph, body, units, terminal, budget, k);
    } else if selected.value.Some? {
      var (shown, t, tokens) := selected.value.value;
      DetailProbeIsExact(tok, graph, body, units, terminal, budget, shown);
      assert NotesWith(units, terminal, shown, FinalNotes(units, shown, t));
      if Plain(tok) && budget <= WORD_MAX && NotesDownwardClosed(tok, body, graph.hasBody, units, terminal, budget) {
        DetailsLargest(tok, graph, body, units, terminal, budget);
        assert MostNotes(tok, body, graph.hasBody, units, terminal, budget, FinalNotes(units, shown, t), shown);
      }
    }
  }

  lemma FullDetailsFirst(tok: Tokenizer, graph: DetailRenderGraph, units: NoteUnits, terminal: string, budget: nat)
    ensures DetailProbe(tok, graph, units, terminal, budget, |units.details|) != Ok(None) ==>
              DetailsSelected(tok, graph, units, terminal, budget)
              == DetailProbe(tok, graph, units, terminal, budget, |units.details|)
  {
    hide DetailProbe, Replayed;
  }

  /** How many details, and which terminal, go below a body whose size is already settled. */
  method SelectGrepNotes(
    tok: Tokenizer, checkpoint: TokenCheckpoint, ghost body: string, hasBody: bool, units: NoteUnits, terminal: string,
    budget: nat) returns (r: Result<Option<(seq<string>, nat)>, RenderPlanError>)
    requires Lawful(tok) && |units.details| <= WORD_MAX
    ensures r == NotesSelected(tok, checkpoint, hasBody, units, terminal, budget)
    ensures r.Ok? && r.value.Some? ==> NotesOf(units, terminal, r.value.value.0) && r.value.value.1 <= budget
    ensures r.Err? ==> Honest(r.error)
    ensures checkpoint == CheckpointOf(tok, body) && NotesCutWell(tok, body, hasBody, units, terminal) ==>
              SelectedExactly(tok, body, hasBody, units, terminal, budget, r)
  {
    SelectionShape(tok, checkpoint, hasBody, units, terminal, budget);
    hide Lawful, CheckpointOf, DetailGraphOf, DetailsSelected, FinalNotes, NotesCutWell, SelectedExactly, NotesOf, Honest;
    if checkpoint == CheckpointOf(tok, body) && NotesCutWell(tok, body, hasBody, units, terminal) {
      SelectionIsExact(tok, body, hasBody, units, terminal, budget);
    }
    var graph := NewDetailGraph(tok, checkpoint, body, hasBody, units.fixed, units.details);
    if graph.Err? { return Err(graph.error); }
    var selected := SelectDetails(tok, graph.value, units, terminal, budget);
    if selected.Err? { return Err(selected.error); }
    if selected.value.None? { return Ok(None); }
    DetailsFacts(tok, graph.value, units, terminal, budget);
    var (shown, t, tokens) := selected.value.value;
    r := Ok(Some((FinalNotes(units, shown, t), tokens)));
  }

  /** A probe that finds room names the number of details it was asked about. */
  lemma ProbeNames(tok: Tokenizer, graph: DetailRenderGraph, units: NoteUnits, terminal: string, budget: nat)
    ensures forall k: nat ::
              var r := DetailProbe(tok, graph, units, terminal, budget, k);
              r.Ok? && r.value.Some? ==> r.value.value.0 == k
  {
    hide TailProbe, WithSkips;
  }

  /** What the detail search answers is what one of its probes, or the baseline, answered. */
  lemma SearchNames(
    tok: Tokenizer, graph: DetailRenderGraph, units: NoteUnits, terminal: string, budget: nat,
    probe: nat -> Result<Option<(nat, string, nat)>, RenderPlanError>, baseline: Option<(nat, string, nat)>,
    r: Result<Option<(nat, string, nat)>, RenderPlanError>)
    requires |units.details| > 1 && baseline.Some? && DetailProbe(tok, graph, units, terminal, budget, 0) == Ok(baseline)
    requires forall k: nat :: probe(k) == DetailProbe(tok, graph, units, terminal, budget, k)
    requires Searched(probe, 1, |units.details| - 1, baseline, r)
    ensures r.Err? ==>
              (exists k: nat :: k <= |units.details| && DetailProbe(tok, graph, units, terminal, budget, k) == Err(r.error))
    ensures r.Ok? ==> r.value.Some? && r.value.value.0 <= |units.details|
                      && DetailProbe(tok, graph, units, terminal, budget, r.value.value.0) == r
  {
    ProbeNames(tok, graph, units, terminal, budget);
    hide DetailProbe, DownwardClosed;
    if r.Err? {
      var k: nat :| 1 <= k <= |units.details| - 1 && probe(k) == Err(r.error);
    } else if r.value != baseline {
      var k: nat :| 1 <= k <= |units.details| - 1 && Passes(probe, k) && probe(k) == r;
    }
  }

  /** If fitting is downward closed, nothing above what the detail search returns fits. */
  lemma SearchIsLargest(
    tok: Tokenizer, graph: DetailRenderGraph, body: string, units: NoteUnits, terminal: string, budget: nat,
    probe: nat -> Result<Option<(nat, string, nat)>, RenderPlanError>, best: Option<(nat, string, nat)>)
    requires Lawful(tok) && DetailGraphOk(tok, graph, body, units.fixed, units.details) && |units.details| > 1
    requires NotesCutWell(tok, body, graph.hasBody, units, terminal) && Plain(tok) && budget <= WORD_MAX
    requires NotesDownwardClosed(tok, body, graph.hasBody, units, terminal, budget)
    requires !NotesFit(tok, body, graph.hasBody, units, terminal, budget, |units.details|)
    requires forall k: nat :: probe(k) == DetailProbe(tok, graph, units, terminal, budget, k)
    requires best.Some? && DownwardClosed(probe, 1, |units.details| - 1) ==>
               forall k :: 1 <= k <= |units.details| - 1 && Passes(probe, k) ==> Found(probe, k, |units.details| - 1, best)
    requires best.Some?
    ensures forall k :: best.value.0 < k <= |units.details| ==>
              !NotesFit(tok, body, graph.hasBody, units, terminal, budget, k)
  {
    hide Lawful, DetailGraphOk, DetailProbe, NotesFit, Plain, NotesCutWell;
    var total := |units.details|;
    forall j, k | 1 <= j <= k <= total - 1 && Passes(probe, k) ensures Passes(probe, j) {
      DetailProbeIsExact(tok, graph, body, units, terminal, budget, k);
      DetailProbeIsExact(tok, graph, body, units, terminal, budget, j);
      assert NotesFit(tok, body, graph.hasBody, units, terminal, budget, k);
    }
    forall k | best.value.0 < k <= total ensures !NotesFit(tok, body, graph.hasBody, units, terminal, budget, k) {
      if k < total && NotesFit(tok, body, graph.hasBody, units, terminal, budget, k) {
        DetailProbeIsExact(tok, graph, body, units, terminal, budget, k);
        assert Passes(probe, k);
        var j :| k <= j <= total - 1 && Passes(probe, j) && probe(j) == Ok(best);
        DetailProbeIsExact(tok, graph, body, units, terminal, budget, j);
      }
    }
  }

  method ProbeDetails(
    tok: Tokenizer, graph: DetailRenderGraph, units: NoteUnits, terminal: string, budget: nat, shown: nat)
    returns (r: Result<Option<(nat, string, nat)>, RenderPlanError>)
    ensures r == DetailProbe(tok, graph, units, terminal, budget, shown)
  {
    var t := WithSkips(terminal, units.clause(shown));
    if t.None? { return Err(InvalidTerminal); }
    var tokens :- ProbeTail(tok, graph, shown, TailOf(units, t.value));
    r := Ok(if tokens <= budget then Some((shown, t.value, tokens)) else None);
  }

  /** The text shows these lines, the fixed notes, so many details, the fallback note, and a terminal with their clause. */
  ghost predicate Tells(lines: seq<string>, units: NoteUnits, terminal: string, shown: nat, text: string) {
    && shown <= |units.details|
    && exists note ::
         && Folded(terminal, units.clause(shown), note)
         && text == Assembled(
              lines,
              units.fixed + units.details[..shown] + (if units.fallback.Some? then [units.fallback.value] else []) + [note])
  }

  /** The text of a page: some entries, then notes with some details; it was counted in full and fits. */
  ghost predicate FitPage(tok: Tokenizer, lines: seq<string>, units: NoteUnits, terminal: string, budget: nat, text: string) {
    FullCount(tok, text) <= budget && exists shown: nat :: Tells(lines, units, terminal, shown, text)
  }

  lemma NotesTell(lines: seq<string>, units: NoteUnits, terminal: string, notes: seq<string>)
    requires NotesOf(units, terminal, notes)
    ensures exists shown: nat :: Tells(lines, units, terminal, shown, Assembled(lines, notes))
  {
    hide WithSkips, Assembled, Folded;
    var shown: nat :| NotesWith(units, terminal, shown, notes);
    var note := WithSkips(terminal, units.clause(shown)).value;
    FoldedIsWithSkips(terminal, units.clause(shown), note);
    assert notes == units.fixed + units.details[..shown]
                    + (if units.fallback.Some? then [units.fallback.value] else []) + [note];
    assert Tells(lines, units, terminal, shown, Assembled(lines, notes));
  }

  /** A page ends in its last note. */
  lemma {:induction false} AssembledEnds(lines: seq<string>, notes: seq<string>)
    requires notes != []
    ensures EndsIn(Assembled(lines, notes), Last(notes))
  {
    assert notes == Init(notes) + [Last(notes)];
    if Init(notes) != [] { JoinedSplits(Init(notes), [Last(notes)]); }
    assert EndsIn(Joined(notes), Last(notes));
  }

  /** So a shown text ends in the terminal, with the clause for the number of details that it shows. */
  lemma {:induction false} ShownTextEnds(lines: seq<string>, units: NoteUnits, terminal: string, shown: nat, text: string)
    requires Tells(lines, units, terminal, shown, text)
    ensures units.clause(shown).None? ==> EndsIn(text, terminal)
    ensures units.clause(shown).Some? ==>
              && EndsIn(terminal, ".)")
              && EndsIn(text, terminal[..|terminal| - 2] + ("; " + (units.clause(shown).value + ".)")))
  {
    hide Assembled;
    var note :|
      && Folded(terminal, units.clause(shown), note)
      && text == Assembled(
           lines,
           units.fixed + units.details[..shown] + (if units.fallback.Some? then [units.fallback.value] else []) + [note]);
    AssembledEnds(
      lines, units.fixed + units.details[..shown] + (if units.fallback.Some? then [units.fallback.value] else []) + [note]);
    FoldedIsWithSkips(terminal, units.clause(shown), note);
    if units.clause(shown).Some? {
      var c := units.clause(shown).value;
      assert terminal[..|terminal| - 2] + "; " + c + ".)" == terminal[..|terminal| - 2] + ("; " + (c + ".)"));
    }
  }

  lemma NotedIsAssembled(lines: seq<string>, notes: seq<string>)
    ensures NotedText(Joined(lines), |lines| > 0, notes) == Assembled(lines, notes)
  {
  }

  /** Adds the notes to a selected body: the same answer as for a view of its lines. */
  method FinishGrepGraph(page: GrepPage, shown: nat, terminal: string) returns (r: Result<Option<string>, RenderPlanError>)
    requires PageOk(page) && shown <= |page.graph.lines|
    ensures r == ViewFinished(page.tok, PrefixView(page.graph, shown), page.units, terminal, page.budget)
    ensures r.Ok? && r.value.Some? ==>
              FitPage(page.tok, page.graph.lines[..shown], page.units, terminal, page.budget, r.value.value)
    ensures r.Err? ==>
              Honest(r.error) || Miscounted(page.tok, page.graph.lines[..shown], page.units, terminal, page.budget, r.error)
    ensures NotesCutWell(page.tok, Joined(page.graph.lines[..shown]), shown > 0, page.units, terminal) ==>
              && (r == Ok(None) ==>
                    BaselineTooLong(page.tok, Joined(page.graph.lines[..shown]), shown > 0, page.units, terminal, page.budget))
              && (r.Err? ==>
                    Honest(r.error)
                    && !NotesPayable(page.tok, Joined(page.graph.lines[..shown]), shown > 0, page.units, terminal))
  {
    ghost var view := PrefixView(page.graph, shown);
    ViewFinishedShape(page.tok, view, page.units, terminal, page.budget);
    if NotesCutWell(page.tok, Joined(page.graph.lines[..shown]), shown > 0, page.units, terminal) {
      BodyCutsWell(page.tok, Joined(view.lines), shown > 0, page.units.fixed + page.units.details);
      PrefixIsView(page.tok, page.graph, shown);
      ViewFinishedIsExact(page.tok, view, page.units, terminal, page.budget);
    }
    hide Lawful, ViewOk, NotesCutWell, FitPage, Miscounted, Honest, BaselineTooLong, NotesPayable, NotesSelected, Finished;
    var selected := SelectGrepNotes(
      page.tok, page.graph.checkpoints[shown], Joined(page.graph.lines[..shown]), shown > 0, page.units, terminal, page.budget);
    if selected.Err? { return Err(selected.error); }
    if selected.value.None? { return Ok(None); }
    var (notes, tokens) := selected.value.value;
    var rendered := FinishLines(page.tok, page.graph, shown, notes, tokens, page.budget);
    r := match rendered case Ok(verified) => Ok(Some(verified.text)) case Err(error) => Err(error);
  }

  /** A body that passed its probe leaves room for its own baseline notes. */
  lemma {:induction false} SizedBodyFits(page: GrepPage, terminals: nat -> string, shown: nat)
    requires PageOk(page) && shown <= |page.graph.lines| && EntriesCutWell(page, terminals, shown)
    requires Passes((k: nat) => BodyProbe(page, terminals, k), shown)
    ensures !BaselineTooLong(
              page.tok, Joined(page.graph.lines[..shown]), shown > 0, page.units, terminals(shown), page.budget)
  {
    var notes := BaselineNotes(page.units, terminals(shown)).value;
    NotedIsAssembled(page.graph.lines[..shown], notes);
    PrefixIsView(page.tok, page.graph, shown);
    hide CutsWell, Lawful, ViewOk, NotesCutWell;
    BaselineIsExact(page.tok, PrefixView(page.graph, shown), page.units, terminals(shown));
  }

  /** No prefix of the entries that was tried leaves room even for a page without details. */
  ghost predicate NothingFits(page: GrepPage, terminals: nat -> string, maximum: nat) {
    maximum == 0 || (BodyProbe(page, terminals, 1) == Ok(None) && BodyProbe(page, terminals, maximum) == Ok(None))
  }

  /** Whatever is selected can be counted. */
  ghost predicate PagePayable(page: GrepPage, terminals: nat -> string, maximum: nat)
    requires maximum <= |page.graph.lines|
  {
    && BodiesPayable(page, terminals, maximum)
    && (forall k :: 1 <= k <= maximum ==>
          NotesPayable(page.tok, Joined(page.graph.lines[..k]), k > 0, page.units, terminals(k)))
  }

  ghost predicate FitGrepText(page: GrepPage, shown: nat, terminal: string, text: string)
    requires shown <= |page.graph.lines|
  {
    FitPage(page.tok, page.graph.lines[..shown], page.units, terminal, page.budget, text)
  }

  /**
   A page of grep lines, from sizing the body to the verified text. `sized` is
   the number of entries whose baseline page was probed to fit. Once there is
   one, the page cannot turn out too small, unless it has fixed notes and may
   not be cut where it is.
   */
  method FormatGrepLines(page: GrepPage, maximum: nat, terminals: nat -> string) returns (r: Response, ghost sized: Option<nat>)
    requires PageOk(page) && maximum <= |page.graph.lines|
    ensures sized.Some? ==> 1 <= sized.value <= maximum && Passes(BodyProbes(page, terminals), sized.value)
    ensures r.Text? ==> sized.Some? && FitGrepText(page, sized.value, terminals(sized.value), r.text)
    ensures sized.None? && !r.Failure? ==> r.BudgetTooSmall? && NothingFits(page, terminals, maximum)
    ensures page.units.fixed == [] || PageCutsWell(page, terminals, maximum) ==>
              && (sized.Some? ==> !r.BudgetTooSmall?)
              && (r.BudgetTooSmall? <==> sized.None? && !r.Failure?)
    ensures maximum > 0 && Passes(BodyProbes(page, terminals), maximum) ==> sized == Some(maximum)
    ensures maximum > 0 && DownwardClosed(BodyProbes(page, terminals), 1, maximum) && !r.Failure? ==>
              forall k :: 1 <= k <= maximum && Passes(BodyProbes(page, terminals), k) ==> sized.Some? && k <= sized.value
    ensures r.Failure? ==> Honest(r.error) || (sized.Some? && MiscountedEntries(page, terminals, sized.value, r.error))
    ensures r.Failure? && PageCutsWell(page, terminals, maximum) ==> Honest(r.error) && !PagePayable(page, terminals, maximum)
    ensures !r.SourceError?
  {
    hide PageOk, BodyProbe, BaselineTooLong, FitPage, BodiesPayable, NotesPayable, NotesCutWell, DownwardClosed, ViewFinished,
      Miscounted, Honest;
    sized := None;
    var selected := SelectBodyPrefix(page, maximum, terminals);
    if selected.Err? { return Failure(selected.error), sized; }
    if selected.value.None? { return BudgetTooSmall, sized; }
    var (shown, terminal) := selected.value.value;
    sized := Some(shown);
    FoundIsNamed(page, terminals, maximum, selected);
    if maximum > 0 && Passes(BodyProbes(page, terminals), maximum) { BodyProbeNames(page, terminals, maximum); }
    BodyProbeNames(page, terminals, shown);
    SizedBodyReprobed(page, terminals, shown);
    if PageCutsWell(page, terminals, maximum) {
      assert EntriesCutWell(page, terminals, shown);
      SizedBodyFits(page, terminals, shown);
    }
    var finished := FinishGrepGraph(page, shown, terminal);
    r := match finished
         case Err(error) => Failure(error)
         case Ok(text) => if text.Some? then Text(text.value) else BudgetTooSmall;
  }

  ghost predicate MiscountedEntries(page: GrepPage, terminals: nat -> string, shown: nat, error: RenderPlanError)
  {
    && shown <= |page.graph.lines|
    && Miscounted(page.tok, page.graph.lines[..shown], page.units, terminals(shown), page.budget, error)
  }

  /** Without fixed notes, a sized body leaves room for its own notes wherever it is cut. */
  lemma SizedBodyReprobed(page: GrepPage, terminals: nat -> string, shown: nat)
    requires PageOk(page) && shown <= |page.graph.lines| && Passes(BodyProbes(page, terminals), shown)
    ensures page.units.fixed == [] ==>
              ViewFinished(page.tok, PrefixView(page.graph, shown), page.units, terminals(shown), page.budget) != Ok(None)
  {
    PrefixIsView(page.tok, page.graph, shown);
    hide LineProbe, BaselineNotes, ViewFinished;
    if page.units.fixed == [] {
      BaselineReprobed(page.tok, PrefixView(page.graph, shown), page.units, terminals(shown), page.budget);
    }
  }

  /** Whatever the search found names the number of entries it stands for. */
  lemma FoundIsNamed(page: GrepPage, terminals: nat -> string, maximum: nat, r: Result<Option<(nat, string)>, RenderPlanError>)
    requires r.Ok? && r.value.Some?
    ensures forall k: nat :: Found(BodyProbes(page, terminals), k, maximum, r.value) ==> k <= r.value.value.0
  {
    forall k: nat | Found(BodyProbes(page, terminals), k, maximum, r.value) ensures k <= r.value.value.0 {
      var j: nat :| k <= j <= maximum && Passes(BodyProbes(page, terminals), j) && BodyProbes(page, terminals)(j) == Ok(r.value);
      BodyProbeNames(page, terminals, j);
    }
  }

  lemma BodyProbeNames(page: GrepPage, terminals: nat -> string, shown: nat)
    requires BodyProbe(page, terminals, shown).Ok? && BodyProbe(page, terminals, shown).value.Some?
    ensures BodyProbe(page, terminals, shown).value.value == (shown, terminals(shown))
  {
  }

  /** The answer for a view: its notes are selected, then the whole text is counted once more. */
  function ViewFinished(tok: Tokenizer, view: LineRenderView, units: NoteUnits, terminal: string, budget: nat)
    : Result<Option<string>, RenderPlanError>
  {
    match NotesSelected(tok, view.checkpoint, |view.lines| > 0, units, terminal, budget)
    case Err(error) => Err(error)
    case Ok(None) => Ok(None)
    case Ok(Some(selected)) =>
      match Finished(tok, Assembled(view.lines, selected.0), selected.1, budget)
      case Err(error) => Err(error)
      case Ok(verified) => Ok(Some(verified.text))
  }

  /** The page with some selection of notes was probed at a number that is not its full count. */
  ghost predicate Miscounted(
    tok: Tokenizer, lines: seq<string>, units: NoteUnits, terminal: string, budget: nat, error: RenderPlanError)
  {
    && error.CountMismatch? && error.incremental != error.full && error.incremental <= budget
    && exists notes :: NotesOf(units, terminal, notes) && error.full == FullCount(tok, Assembled(lines, notes))
  }

  /** Whatever the tokenizer does at cuts: a text was counted in full and fits; else a failure is honest or a miscount. */
  lemma {:induction false} ViewFinishedShape(tok: Tokenizer, view: LineRenderView, units: NoteUnits, terminal: string, budget: nat)
    ensures var r := ViewFinished(tok, view, units, terminal, budget);
      && (r.Ok? && r.value.Some? ==> FitPage(tok, view.lines, units, terminal, budget, r.value.value))
      && (r.Err? ==> Honest(r.error) || Miscounted(tok, view.lines, units, terminal, budget, r.error))
  {
    SelectionShape(tok, view.checkpoint, |view.lines| > 0, units, terminal, budget);
    hide NotesSelected, NotesOf, FullCount, Assembled, Tells;
    var selected := NotesSelected(tok, view.checkpoint, |view.lines| > 0, units, terminal, budget);
    if selected.Ok? && selected.value.Some? { NotesTell(view.lines, units, terminal, selected.value.value.0); }
  }

  /** If the page may be cut where it is, nothing means that it does not fit, and no miscount occurs. */
  lemma {:induction false} ViewFinishedIsExact(
    tok: Tokenizer, view: LineRenderView, units: NoteUnits, terminal: string, budget: nat)
    requires Lawful(tok) && ViewOk(tok, view) && NotesCutWell(tok, Joined(view.lines), |view.lines| > 0, units, terminal)
    ensures var r := ViewFinished(tok, view, units, terminal, budget);
      && (r == Ok(None) ==> BaselineTooLong(tok, Joined(view.lines), |view.lines| > 0, units, terminal, budget))
      && (r.Err? ==> Honest(r.error) && !NotesPayable(tok, Joined(view.lines), |view.lines| > 0, units, terminal))
  {
    SelectionShape(tok, view.checkpoint, |view.lines| > 0, units, terminal, budget);
    SelectionIsExact(tok, Joined(view.lines), |view.lines| > 0, units, terminal, budget);
    hide Lawful, CheckpointOf, NotedText, NotesOf, BaselineTooLong, AllDetailsFit, NotesPayable, MostNotes, Joined, NotesCutWell,
      NotesSelected;
    var selected := NotesSelected(tok, view.checkpoint, |view.lines| > 0, units, terminal, budget);
    if selected.Ok? && selected.value.Some? { NotedIsAssembled(view.lines, selected.value.value.0); }
  }

  /** Content mode: the same finish for a view of the shared trie. */
  method FinishContentView(tok: Tokenizer, view: LineRenderView, units: NoteUnits, terminal: string, budget: nat)
    returns (r: Result<Option<string>, RenderPlanError>)
    requires Lawful(tok) && |units.details| <= WORD_MAX
    ensures r == ViewFinished(tok, view, units, terminal, budget)
    ensures r.Ok? && r.value.Some? ==> FitPage(tok, view.lines, units, terminal, budget, r.value.value)
    ensures r.Err? ==> Honest(r.error) || Miscounted(tok, view.lines, units, terminal, budget, r.error)
    ensures ViewOk(tok, view) && NotesCutWell(tok, Joined(view.lines), |view.lines| > 0, units, terminal) ==>
              && (r == Ok(None) ==> BaselineTooLong(tok, Joined(view.lines), |view.lines| > 0, units, terminal, budget))
              && (r.Err? ==> Honest(r.error) && !NotesPayable(tok, Joined(view.lines), |view.lines| > 0, units, terminal))
  {
    ViewFinishedShape(tok, view, units, terminal, budget);
    if ViewOk(tok, view) && NotesCutWell(tok, Joined(view.lines), |view.lines| > 0, units, terminal) {
      ViewFinishedIsExact(tok, view, units, terminal, budget);
    }
    hide Lawful, ViewOk, NotesCutWell, FitPage, Miscounted, Honest, BaselineTooLong, NotesPayable, NotesSelected, Finished;
    var selected := SelectGrepNotes(tok, view.checkpoint, Joined(view.lines), |view.lines| > 0, units, terminal, budget);
    if selected.Err? { return Err(selected.error); }
    if selected.value.None? { return Ok(None); }
    var (notes, tokens) := selected.value.value;
    var rendered := FinishView(tok, view, notes, tokens, budget);
    r := match rendered case Ok(verified) => Ok(Some(verified.text)) case Err(error) => Err(error);
  }

  lemma FirstGraphCheckpoint(
    tok: Tokenizer, checkpoint: TokenCheckpoint, hasBody: bool, units: NoteUnits, terminal: string, budget: nat)
    requires units.fixed == [] && DetailGraphOf(tok, checkpoint, hasBody, units.fixed, units.details).Ok?
    ensures var graph := DetailGraphOf(tok, checkpoint, hasBody, units.fixed, units.details).value;
      forall tail :: TailProbe(tok, graph, 0, tail) == SuffixProbe(tok, checkpoint, Continuation(hasBody, 0, tail))
  {
    GraphShape(tok, checkpoint, hasBody, units.fixed, units.details);
    assert units.fixed + units.details[..0] == [];
    assert CheckpointAfter(tok, checkpoint, hasBody, []) == checkpoint;
    hide DetailGraphOf, NotesState, SuffixProbe, Continuation;
  }

  /** Without fixed notes, a view whose baseline page was probed to fit finds room for its notes. */
  lemma {:induction false} BaselineReprobed(
    tok: Tokenizer, view: LineRenderView, units: NoteUnits, terminal: string, budget: nat)
    requires units.fixed == [] && BaselineNotes(units, terminal).Ok?
    requires ViewProbe(tok, view, BaselineNotes(units, terminal).value).Ok?
    requires ViewProbe(tok, view, BaselineNotes(units, terminal).value).value <= budget
    ensures ViewFinished(tok, view, units, terminal, budget) != Ok(None)
  {
    var built := DetailGraphOf(tok, view.checkpoint, |view.lines| > 0, units.fixed, units.details);
    var t := WithSkips(terminal, units.clause(0)).value;
    assert FinalNotes(units, 0, t) == TailOf(units, t);
    hide WithSkips, DetailGraphOf, SuffixProbe, DetailsSelected, Finished;
    if built.Ok? {
      FirstGraphCheckpoint(tok, view.checkpoint, |view.lines| > 0, units, terminal, budget);
      assert DetailProbe(tok, built.value, units, terminal, budget, 0).Ok?
          && DetailProbe(tok, built.value, units, terminal, budget, 0).value.Some?;
      DetailsFacts(tok, built.value, units, terminal, budget);
    }
  }

  // ----- content mode

  const MAX_MATCH_CHARS: nat := 2000

  /** A page of some entries rendered with so much context and so wide a match window. */
  type Render<!T, !E> = (nat, nat, nat) -> Result<Option<T>, E>

  function ByContext<T, E>(render: Render<T, E>, shown: nat): nat -> Result<Option<T>, E> {
    (depth: nat) => render(shown, depth, MAX_MATCH_CHARS)
  }

  function ByWindow<T, E>(render: Render<T, E>, shown: nat): nat -> Result<Option<T>, E> {
    (window: nat) => render(shown, 0, window)
  }

  /** Full context if it fits; else as much context as fits; else as wide a match window as fits. */
  function Degraded<T, E>(render: Render<T, E>, shown: nat, context: nat): Result<Option<T>, E> {
    var full := render(shown, context, MAX_MATCH_CHARS);
    var bare := render(shown, 0, MAX_MATCH_CHARS);
    if full.Err? || full.value.Some? then full
    else if bare.Err? then bare
    else if bare.value.Some? then Replayed(ByContext(render, shown), 0, context, bare.value)
    else Replayed(ByWindow(render, shown), 1, MAX_MATCH_CHARS - 1, None)
  }

  /** Some rendering of `shown` entries, with no more context or window than may be tried, produced this. */
  ghost predicate Rendered<T, E>(render: Render<T, E>, shown: nat, context: nat, candidate: Result<Option<T>, E>) {
    exists depth: nat, window: nat :: depth <= context && 1 <= window <= MAX_MATCH_CHARS && render(shown, depth, window) == candidate
  }

  /** The page does not fit with full context, nor without, nor with the narrowest window. */
  ghost predicate NoRendering<T, E>(render: Render<T, E>, shown: nat, context: nat) {
    && render(shown, context, MAX_MATCH_CHARS) == Ok(None)
    && render(shown, 0, MAX_MATCH_CHARS) == Ok(None)
    && render(shown, 0, 1) == Ok(None)
  }

  lemma DegradedByContext<T, E>(render: Render<T, E>, shown: nat, context: nat, bare: Option<T>)
    requires bare.Some? && render(shown, 0, MAX_MATCH_CHARS) == Ok(bare)
    ensures var byContext := ByContext(render, shown);
      var r := Replayed(byContext, 0, context, bare);
      && Rendered(render, shown, context, r) && (r.Ok? ==> r.value.Some?)
      && (r.Ok? && DownwardClosed(byContext, 0, context) ==>
            forall k :: 0 <= k <= context && Passes(byContext, k) ==> Found(byContext, k, context, r.value))
  {
    hide Replayed, DownwardClosed;
    var byContext := ByContext(render, shown);
    var r := Replayed(byContext, 0, context, bare);
    ReplayedFacts(byContext, 0, context, bare);
    var k: nat := 0;
    if r.Err? {
      k :| k <= context && byContext(k) == Err(r.error);
    } else if r.value != bare {
      k :| k <= context && Passes(byContext, k) && byContext(k) == Ok(r.value);
    }
    assert render(shown, k, MAX_MATCH_CHARS) == r;
  }

  lemma DegradedByWindow<T, E>(render: Render<T, E>, shown: nat, context: nat)
    ensures var r := Replayed(ByWindow(render, shown), 1, MAX_MATCH_CHARS - 1, None);
      && (r == Ok(None) ==> render(shown, 0, 1) == Ok(None))
      && (r != Ok(None) ==> Rendered(render, shown, context, r))
      && (r.Ok? && DownwardClosed(ByWindow(render, shown), 1, 1999) ==>
            forall k :: 1 <= k <= 1999 && Passes(ByWindow(render, shown), k) ==>
              Found(ByWindow(render, shown), k, 1999, r.value))
  {
    hide Replayed, DownwardClosed;
    var byWindow := ByWindow(render, shown);
    var r := Replayed(byWindow, 1, MAX_MATCH_CHARS - 1, None);
    ReplayedFacts(byWindow, 1, MAX_MATCH_CHARS - 1, None);
    if r != Ok(None) {
      var k: nat :| 1 <= k <= MAX_MATCH_CHARS - 1 && byWindow(k) == r;
      assert render(shown, 0, k) == r;
    }
  }

  /** Degrading gives up only after the narrowest window, and never when the page fits without context. */
  lemma {:induction false} DegradedFacts<T, E>(render: Render<T, E>, shown: nat, context: nat)
    ensures var r := Degraded(render, shown, context);
      && (r == Ok(None) ==> NoRendering(render, shown, context))
      && (r != Ok(None) ==> Rendered(render, shown, context, r))
      && (Passes(ByContext(render, shown), context) ==> r == render(shown, context, MAX_MATCH_CHARS))
      && (r.Ok? && Passes(ByContext(render, shown), 0) ==> r.value.Some?)
      && (r.Ok? && DownwardClosed(ByContext(render, shown), 0, context) ==>
            forall k :: 0 <= k <= context && Passes(ByContext(render, shown), k) ==>
              Found(ByContext(render, shown), k, context, r.value))
      && (r.Ok? && render(shown, context, 2000) == Ok(None) && render(shown, 0, 2000) == Ok(None)
          && DownwardClosed(ByWindow(render, shown), 1, 1999) ==>
            forall k :: 1 <= k <= 1999 && Passes(ByWindow(render, shown), k) ==>
              Found(ByWindow(render, shown), k, 1999, r.value))
  {
    hide Replayed;
    var full, bare := render(shown, context, MAX_MATCH_CHARS), render(shown, 0, MAX_MATCH_CHARS);
    if full == Ok(None) && bare.Ok? {
      if bare.value.Some? {
        hide DownwardClosed, Found, Rendered;
        DegradedByContext(render, shown, context, bare.value);
      } else {
        hide Rendered;
        DegradedByWindow(render, shown, context);
        assert !Passes(ByContext(render, shown), 0);
      }
    } else if full.Ok? {
      forall k | 0 <= k <= context && full.value.Some? ensures Found(ByContext(render, shown), k, context, full.value) {
        assert Passes(ByContext(render, shown), context) && ByContext(render, shown)(context) == Ok(full.value);
      }
    }
  }

  /** As many entries as fit, each count rendered by `page`. */
  function Largest<T, E>(page: nat -> Result<Option<T>, E>, maximum: nat): Result<Option<T>, E> {
    if maximum == 0 then Ok(None)
    else if page(maximum).Err? || page(maximum).value.Some? then page(maximum)
    else Replayed(page, 1, maximum - 1, None)
  }

  /** It gives up only after one entry and all entries failed, and under downward closure takes the most. */
  lemma {:induction false} LargestFacts<T, E>(page: nat -> Result<Option<T>, E>, maximum: nat)
    ensures var r := Largest(page, maximum);
      && (r == Ok(None) ==> maximum == 0 || (page(maximum) == Ok(None) && page(1) == Ok(None)))
      && (r != Ok(None) ==> exists shown :: 1 <= shown <= maximum && page(shown) == r)
      && (maximum > 0 && Passes(page, maximum) ==> r == page(maximum))
      && (r.Ok? && maximum > 0 && DownwardClosed(page, 1, maximum) ==>
            forall k :: 1 <= k <= maximum && Passes(page, k) ==> Found(page, k, maximum, r.value))
  {
    hide Replayed, DownwardClosed;
    if maximum > 0 && page(maximum) == Ok(None) {
      hide Found;
      SearchedBelow(page, maximum);
    } else if maximum > 0 && page(maximum).Ok? {
      forall k | 1 <= k <= maximum ensures Found(page, k, maximum, page(maximum).value) {
        assert Passes(page, maximum) && page(maximum) == Ok(page(maximum).value);
      }
    }
  }

  lemma SearchedBelow<T, E>(page: nat -> Result<Option<T>, E>, maximum: nat)
    requires maximum > 0 && page(maximum) == Ok(None)
    ensures var r := Replayed(page, 1, maximum - 1, None);
      && (r == Ok(None) ==> page(1) == Ok(None))
      && (r != Ok(None) ==> exists shown :: 1 <= shown <= maximum && page(shown) == r)
      && (r.Ok? && DownwardClosed(page, 1, maximum) ==>
            forall k :: 1 <= k <= maximum && Passes(page, k) ==> Found(page, k, maximum, r.value))
  {
    hide Replayed;
    var r := Replayed(page, 1, maximum - 1, None);
    ReplayedFacts(page, 1, maximum - 1, None);
    if r != Ok(None) {
      var k: nat :| 1 <= k <= maximum - 1 && page(k) == r;
    }
    if r.Ok? && DownwardClosed(page, 1, maximum) {
      hide Found;
      LargestBelow(page, maximum, r);
    }
  }

  lemma LargestBelow<T, E>(page: nat -> Result<Option<T>, E>, maximum: nat, r: Result<Option<T>, E>)
    requires maximum > 0 && r.Ok? && !Passes(page, maximum) && DownwardClosed(page, 1, maximum)
    requires DownwardClosed(page, 1, maximum - 1) ==>
               forall k :: 1 <= k <= maximum - 1 && Passes(page, k) ==> Found(page, k, maximum - 1, r.value)
    ensures forall k :: 1 <= k <= maximum && Passes(page, k) ==> Found(page, k, maximum, r.value)
  {
    assert DownwardClosed(page, 1, maximum - 1);
    forall k | 1 <= k <= maximum && Passes(page, k) ensures Found(page, k, maximum, r.value) {
      assert k <= maximum - 1;
      var j :| k <= j <= maximum - 1 && Passes(page, j) && page(j) == Ok(r.value);
      assert page(j) == Ok(r.value) && j <= maximum;
    }
  }

  // ----- content pages over the shared trie

  datatype Candidate = Candidate(view: LineRenderView, terminal: string)

  datatype ContentError = Source(message: string) | Unrendered(error: RenderPlanError)

  /** `lines` renders the first so many entries; it fails if a captured line cannot be read again. */
  datatype ContentPage = ContentPage(
    tok: Tokenizer, units: NoteUnits, budget: nat, context: nat, terminals: nat -> string,
    lines: (nat, nat, nat) -> Result<seq<string>, string>)

  type ContentResult = Result<Option<Candidate>, ContentError>

  /** One rendering: a candidate if its page without details fits. */
  function RenderProbe(page: ContentPage, shown: nat, context: nat, window: nat): ContentResult {
    match page.lines(shown, context, window)
    case Err(message) => Err(Source(message))
    case Ok(lines) =>
      match ViewOf(page.tok, lines)
      case Err(error) => Err(Unrendered(error))
      case Ok(view) =>
        match BaselineNotes(page.units, page.terminals(shown))
        case Err(error) => Err(Unrendered(error))
        case Ok(notes) =>
          match ViewProbe(page.tok, view, notes)
          case Err(error) => Err(Unrendered(error))
          case Ok(tokens) => if tokens <= page.budget then Ok(Some(Candidate(view, page.terminals(shown)))) else Ok(None)
  }

  function Renders(page: ContentPage): Render<Candidate, ContentError> {
    (shown: nat, context: nat, window: nat) => RenderProbe(page, shown, context, window)
  }

  /** The page of so many entries, degraded as far as it must be. */
  function Pages(page: ContentPage): nat -> ContentResult {
    (shown: nat) => Degraded(Renders(page), shown, page.context)
  }

  /** The same rendering over the trie; earlier renderings leave no trace in the answer. */
  method RenderContentPage(graph: SharedLineRenderGraph, page: ContentPage, shown: nat, context: nat, window: nat)
    returns (r: ContentResult)
    requires graph.Valid() && graph.tok == page.tok
    modifies graph
    ensures graph.Valid() && r == RenderProbe(page, shown, context, window)
  {
    hide ViewOf, BaselineNotes, ViewProbe, SharedLineRenderGraph.Valid;
    var lines := page.lines(shown, context, window);
    if lines.Err? { return Err(Source(lines.error)); }
    var view := graph.PrepareView(lines.value);
    if view.Err? { return Err(Unrendered(view.error)); }
    var notes := BaselineNotes(page.units, page.terminals(shown));
    if notes.Err? { return Err(Unrendered(notes.error)); }
    var tokens := ProbeView(page.tok, view.value, notes.value);
    if tokens.Err? { return Err(Unrendered(tokens.error)); }
    r := Ok(if tokens.value <= page.budget then Some(Candidate(view.value, page.terminals(shown))) else None);
  }

  /** What a binary search over content pages varies. */
  datatype Axis = Shown | Context(shown: nat) | Window(shown: nat)

  function AxisProbes(page: ContentPage, axis: Axis): nat -> ContentResult {
    match axis
    case Shown => Pages(page)
    case Context(shown) => ByContext(Renders(page), shown)
    case Window(shown) => ByWindow(Renders(page), shown)
  }

  method ProbeAxis(graph: SharedLineRenderGraph, page: ContentPage, axis: Axis, k: nat) returns (r: ContentResult)
    requires graph.Valid() && graph.tok == page.tok && page.context <= WORD_MAX
    modifies graph
    ensures graph.Valid() && r == AxisProbes(page, axis)(k)
    decreases if axis.Shown? then 3 else 0, 0
  {
    hide RenderProbe, SharedLineRenderGraph.Valid;
    match axis
    case Shown => r := RenderWithDegradation(graph, page, k);
    case Context(shown) => r := RenderContentPage(graph, page, shown, k, MAX_MATCH_CHARS);
    case Window(shown) => r := RenderContentPage(graph, page, shown, 0, k);
  }

  /** The binary-probe order over pages that share the trie. */
  method SearchPages(
    graph: SharedLineRenderGraph, page: ContentPage, axis: Axis, low0: nat, high0: nat, initial: Option<Candidate>)
    returns (r: ContentResult)
    requires graph.Valid() && graph.tok == page.tok && page.context <= WORD_MAX && high0 <= WORD_MAX
    modifies graph
    ensures graph.Valid() && r == Replayed(AxisProbes(page, axis), low0, high0, initial)
    decreases if axis.Shown? then 3 else 0, 1
  {
    hide AxisProbes, SharedLineRenderGraph.Valid;
    var low: nat, high: nat := low0, high0;
    var best := initial;
    while low <= high
      invariant graph.Valid() && high <= WORD_MAX
      invariant Replayed(AxisProbes(page, axis), low, high, best) == Replayed(AxisProbes(page, axis), low0, high0, initial)
      decreases high - low
    {
      var middle := low + (high - low) / 2;
      var found :- ProbeAxis(graph, page, axis, middle);
      if found.Some? {
        best := found;
        if middle == WORD_MAX { break; }
        low := middle + 1;
      } else {
        if middle == 0 { break; }
        high := middle - 1;
      }
    }
    r := Ok(best);
  }

  /** `render_content_page_with_degradation`. */
  method RenderWithDegradation(graph: SharedLineRenderGraph, page: ContentPage, shown: nat) returns (r: ContentResult)
    requires graph.Valid() && graph.tok == page.tok && page.context <= WORD_MAX
    modifies graph
    ensures graph.Valid() && r == Degraded(Renders(page), shown, page.context)
    decreases 2, 0
  {
    hide RenderProbe, Replayed, SharedLineRenderGraph.Valid;
    var full := RenderContentPage(graph, page, shown, page.context, MAX_MATCH_CHARS);
    if full.Err? || full.value.Some? { return full; }
    var bare := RenderContentPage(graph, page, shown, 0, MAX_MATCH_CHARS);
    if bare.Err? { return bare; }
    if bare.value.Some? {
      r := SearchPages(graph, page, Context(shown), 0, page.context, bare.value);
    } else {
      r := SearchPages(graph, page, Window(shown), 1, MAX_MATCH_CHARS - 1, None);
    }
  }

  /** `fit_largest_content_output`. */
  method FitLargestContent(graph: SharedLineRenderGraph, page: ContentPage, maximum: nat) returns (r: ContentResult)
    requires graph.Valid() && graph.tok == page.tok && page.context <= WORD_MAX && maximum <= WORD_MAX
    modifies graph
    ensures graph.Valid() && r == Largest(Pages(page), maximum)
  {
    hide Degraded, Replayed, SharedLineRenderGraph.Valid;
    if maximum == 0 { return Ok(None); }
    r := RenderWithDegradation(graph, page, maximum);
    if r.Err? || r.value.Some? { return; }
    r := SearchPages(graph, page, Shown, 1, maximum - 1, None);
  }

  // ----- what a content response means

  /** A rendering that the search may try. */
  predicate Tried(page: ContentPage, maximum: nat, shown: nat, context: nat, window: nat) {
    1 <= shown <= maximum && context <= page.context && 1 <= window <= MAX_MATCH_CHARS
  }

  ghost predicate LinesCutWell(page: ContentPage, shown: nat, lines: seq<string>) {
    NotesCutWell(page.tok, Joined(lines), |lines| > 0, page.units, page.terminals(shown))
  }

  ghost predicate LinesPayable(page: ContentPage, shown: nat, lines: seq<string>) {
    && FullCount(page.tok, Joined(lines)) <= WORD_MAX
    && NotesPayable(page.tok, Joined(lines), |lines| > 0, page.units, page.terminals(shown))
  }

  /** Every page that may be tried is cut well. */
  ghost predicate ContentCutsWell(page: ContentPage, maximum: nat) {
    forall shown: nat, context: nat, window: nat ::
      Tried(page, maximum, shown, context, window) && page.lines(shown, context, window).Ok? ==>
        LinesCutWell(page, shown, page.lines(shown, context, window).value)
  }

  /** Every page that may be tried can be counted. */
  ghost predicate ContentPayable(page: ContentPage, maximum: nat) {
    forall shown: nat, context: nat, window: nat ::
      Tried(page, maximum, shown, context, window) && page.lines(shown, context, window).Ok? ==>
        LinesPayable(page, shown, page.lines(shown, context, window).value)
  }

  ghost predicate ContentOk(page: ContentPage, maximum: nat) {
    Lawful(page.tok) && page.context <= WORD_MAX && maximum <= WORD_MAX && |page.units.details| <= WORD_MAX
  }

  /** The text shows this rendering of the entries, with notes; it was counted in full and fits. */
  ghost predicate FitContent(page: ContentPage, shown: nat, context: nat, window: nat, text: string) {
    && page.lines(shown, context, window).Ok?
    && FitPage(page.tok, page.lines(shown, context, window).value, page.units, page.terminals(shown), page.budget, text)
  }

  /** Some tried page was probed at a number that is not its full count. */
  ghost predicate MiscountedContent(page: ContentPage, maximum: nat, error: RenderPlanError) {
    exists shown: nat, context: nat, window: nat ::
      && Tried(page, maximum, shown, context, window) && page.lines(shown, context, window).Ok?
      && Miscounted(
           page.tok, page.lines(shown, context, window).value, page.units, page.terminals(shown), page.budget, error)
  }

  /** Some line of a tried rendering could not be read. */
  ghost predicate Unreadable(page: ContentPage, maximum: nat, message: string) {
    exists shown: nat, context: nat, window: nat ::
      Tried(page, maximum, shown, context, window) && page.lines(shown, context, window) == Err(message)
  }

  /** A text that shows at least `least` entries. */
  ghost predicate Shows(page: ContentPage, maximum: nat, least: nat, text: string) {
    exists shown: nat, context: nat, window: nat ::
      Tried(page, maximum, shown, context, window) && least <= shown && FitContent(page, shown, context, window, text)
  }

  /** A candidate is a rendering whose page leaves room for its own baseline notes. */
  lemma CandidateFits(page: ContentPage, shown: nat, context: nat, window: nat)
    requires Lawful(page.tok) && page.lines(shown, context, window).Ok?
    requires LinesCutWell(page, shown, page.lines(shown, context, window).value)
    ensures var r := RenderProbe(page, shown, context, window);
      && (r.Err? ==> r.error.Unrendered? && Honest(r.error.error))
      && (r.Err? ==> !LinesPayable(page, shown, page.lines(shown, context, window).value))
      && (r.Ok? && r.value.Some? ==>
            var c := r.value.value;
            && ViewOk(page.tok, c.view) && c.view.lines == page.lines(shown, context, window).value
            && c.terminal == page.terminals(shown)
            && !BaselineTooLong(page.tok, Joined(c.view.lines), |c.view.lines| > 0, page.units, c.terminal, page.budget))
  {
    var lines, terminal := page.lines(shown, context, window).value, page.terminals(shown);
    BodyCutsWell(page.tok, Joined(lines), |lines| > 0, page.units.fixed + page.units.details);
    ViewIsExact(page.tok, lines);
    assert NotesPayable(page.tok, Joined(lines), |lines| > 0, page.units, terminal) ==>
        NotePayable(page.tok, Joined(lines), |lines| > 0, page.units, terminal, 0);
    if ViewOf(page.tok, lines).Ok? && BaselineNotes(page.units, terminal).Ok? {
      NotedIsAssembled(lines, BaselineNotes(page.units, terminal).value);
      BaselineIsExact(page.tok, ViewOf(page.tok, lines).value, page.units, terminal);
    }
    hide Lawful, CutsWell, LinesState, ViewProbe, Joined, FullCount, ViewOk, Assembled;
  }

  /** The candidate is a rendering of at least `least` entries. */
  ghost predicate Arises(page: ContentPage, maximum: nat, least: nat, r: ContentResult) {
    exists shown: nat, context: nat, window: nat ::
      Tried(page, maximum, shown, context, window) && least <= shown && RenderProbe(page, shown, context, window) == r
  }

  lemma PageArises(page: ContentPage, maximum: nat, shown: nat)
    requires 1 <= shown <= maximum && Pages(page)(shown) != Ok(None)
    ensures Arises(page, maximum, shown, Pages(page)(shown))
  {
    hide RenderProbe, Degraded;
    var r := Pages(page)(shown);
    DegradedFacts(Renders(page), shown, page.context);
    var context: nat, window: nat :|
      context <= page.context && 1 <= window <= MAX_MATCH_CHARS && Renders(page)(shown, context, window) == r;
    assert Tried(page, maximum, shown, context, window) && RenderProbe(page, shown, context, window) == r;
  }

  lemma AtLeastFewer(page: ContentPage, maximum: nat, least: nat, fewer: nat, r: ContentResult)
    requires Arises(page, maximum, least, r) && fewer <= least
    ensures Arises(page, maximum, fewer, r)
  {
    hide RenderProbe;
  }

  /** Whatever the search answers, if not "none", arises from one rendering; the full page goes first. */
  lemma LargestArises(page: ContentPage, maximum: nat)
    ensures var r := Largest(Pages(page), maximum);
      && (r != Ok(None) ==> Arises(page, maximum, 1, r))
      && (r.Ok? && DownwardClosed(Pages(page), 1, maximum) ==>
            forall k :: 1 <= k <= maximum && Passes(Pages(page), k) ==> Arises(page, maximum, k, r))
      && (maximum > 0 && Passes(ByContext(Renders(page), maximum), page.context) ==>
            r == RenderProbe(page, maximum, page.context, MAX_MATCH_CHARS))
      && (r == Ok(None) && maximum > 0 ==>
            NoRendering(Renders(page), 1, page.context) && NoRendering(Renders(page), maximum, page.context))
  {
    var r := Largest(Pages(page), maximum);
    LargestFacts(Pages(page), maximum);
    DegradedFacts(Renders(page), 1, page.context);
    DegradedFacts(Renders(page), maximum, page.context);
    hide Largest, Degraded, Arises, RenderProbe, NoRendering, DownwardClosed, Rendered;
    if r != Ok(None) {
      var shown: nat :| 1 <= shown <= maximum && Pages(page)(shown) == r;
      PageArises(page, maximum, shown);
      AtLeastFewer(page, maximum, shown, 1, r);
    }
    if r.Ok? && DownwardClosed(Pages(page), 1, maximum) {
      forall k | 1 <= k <= maximum && Passes(Pages(page), k) ensures Arises(page, maximum, k, r) {
        assert Found(Pages(page), k, maximum, r.value);
        var shown: nat :| k <= shown <= maximum && Passes(Pages(page), shown) && Pages(page)(shown) == r;
        PageArises(page, maximum, shown);
        AtLeastFewer(page, maximum, shown, k, r);
      }
    }
  }

  /** A failed search: a line could not be read, or an honest failure; a page cut well could not be paid. */
  lemma ContentFails(page: ContentPage, maximum: nat, error: ContentError)
    requires ContentOk(page, maximum) && Arises(page, maximum, 1, Err(error))
    ensures error.Source? ==> Unreadable(page, maximum, error.message)
    ensures error.Unrendered? ==> Honest(error.error)
    ensures error.Unrendered? && ContentCutsWell(page, maximum) ==> !ContentPayable(page, maximum)
  {
    var shown: nat, context: nat, window: nat :|
      Tried(page, maximum, shown, context, window) && RenderProbe(page, shown, context, window) == Err(error);
    hide LinesCutWell, LinesPayable, Lawful;
    if page.lines(shown, context, window).Ok? && ContentCutsWell(page, maximum) {
      CandidateFits(page, shown, context, window);
    }
    hide LinesState, WithSkips, FinalNotes, SuffixProbe;
    SuffixFails(page.tok);
  }

  lemma SuffixFails(tok: Tokenizer)
    ensures forall checkpoint, suffix ::
              SuffixProbe(tok, checkpoint, suffix).Err? ==> SuffixProbe(tok, checkpoint, suffix).error.Token?
  {
    hide CountedBehind;
  }

  /** What finishing a candidate leads to. */
  lemma CandidateFacts(page: ContentPage, maximum: nat, c: Candidate)
    requires ContentOk(page, maximum) && Arises(page, maximum, 1, Ok(Some(c)))
    ensures var r := ViewFinished(page.tok, c.view, page.units, c.terminal, page.budget);
      && (r.Err? ==> Honest(r.error) || MiscountedContent(page, maximum, r.error))
      && (page.units.fixed == [] || ContentCutsWell(page, maximum) ==> r != Ok(None))
      && (r.Err? && ContentCutsWell(page, maximum) ==> Honest(r.error) && !ContentPayable(page, maximum))
  {
    var shown: nat, context: nat, window: nat :|
      Tried(page, maximum, shown, context, window) && RenderProbe(page, shown, context, window) == Ok(Some(c));
    CandidateShape(page, shown, context, window, c);
    ViewFinishedShape(page.tok, c.view, page.units, c.terminal, page.budget);
    if page.units.fixed == [] { BaselineReprobed(page.tok, c.view, page.units, c.terminal, page.budget); }
    hide RenderProbe, ViewFinished, Honest, Miscounted, BaselineNotes, ViewProbe, Lawful;
    if ContentCutsWell(page, maximum) {
      CandidateFits(page, shown, context, window);
      assert LinesCutWell(page, shown, page.lines(shown, context, window).value);
      hide NotesCutWell, BaselineTooLong, NotesPayable, ViewOk;
      ViewFinishedIsExact(page.tok, c.view, page.units, c.terminal, page.budget);
    }
  }

  lemma CandidateShape(page: ContentPage, shown: nat, context: nat, window: nat, c: Candidate)
    requires RenderProbe(page, shown, context, window) == Ok(Some(c))
    ensures page.lines(shown, context, window) == Ok(c.view.lines) && c.terminal == page.terminals(shown)
    ensures BaselineNotes(page.units, c.terminal).Ok?
    ensures ViewProbe(page.tok, c.view, BaselineNotes(page.units, c.terminal).value).Ok?
    ensures ViewProbe(page.tok, c.view, BaselineNotes(page.units, c.terminal).value).value <= page.budget
  {
    hide BaselineNotes, ViewProbe, LinesState;
  }

  /** A verified text of a candidate shows the rendering that the candidate arose from. */
  lemma CandidateShows(page: ContentPage, maximum: nat, least: nat, c: Candidate, text: string)
    requires ContentOk(page, maximum) && Arises(page, maximum, least, Ok(Some(c)))
    requires FitPage(page.tok, c.view.lines, page.units, c.terminal, page.budget, text)
    ensures Shows(page, maximum, least, text)
  {
    var shown: nat, context: nat, window: nat :|
      Tried(page, maximum, shown, context, window) && least <= shown
      && RenderProbe(page, shown, context, window) == Ok(Some(c));
    RenderingShows(page, shown, context, window, c, text);
    hide RenderProbe, FitContent;
  }

  lemma RenderingShows(page: ContentPage, shown: nat, context: nat, window: nat, c: Candidate, text: string)
    requires RenderProbe(page, shown, context, window) == Ok(Some(c))
    requires FitPage(page.tok, c.view.lines, page.units, c.terminal, page.budget, text)
    ensures FitContent(page, shown, context, window, text)
  {
    hide FitPage, BaselineNotes, ViewProbe, LinesState;
  }

  /** The response in content mode, as a function of the page. */
  function ContentResponse(page: ContentPage, maximum: nat): Response {
    var selected: ContentResult := Largest(Pages(page), maximum);
    match selected
    case Err(Source(message)) => SourceError(message)
    case Err(Unrendered(error)) => Failure(error)
    case Ok(None) => BudgetTooSmall
    case Ok(Some(candidate)) =>
      match ViewFinished(page.tok, candidate.view, page.units, candidate.terminal, page.budget)
      case Err(error) => Failure(error)
      case Ok(None) => BudgetTooSmall
      case Ok(Some(text)) => Text(text)
  }

  /**
   Content mode, from the widest page to the verified text, for any tokenizer:
   a text was counted in full and fits, the full page goes first, and a failure
   is an honest one or a miscount. Where every tried page may be cut where it
   is, no miscount occurs, and "too small" is said exactly when the search
   found no page; without fixed notes that holds wherever pages are cut.
   */
  method FormatContent(page: ContentPage, maximum: nat) returns (r: Response)
    requires ContentOk(page, maximum)
    ensures r == ContentResponse(page, maximum)
    ensures r.Text? ==> Shows(page, maximum, 1, r.text)
    ensures r.Text? && Passes(ByContext(Renders(page), maximum), page.context) ==>
              FitContent(page, maximum, page.context, MAX_MATCH_CHARS, r.text)
    ensures r.Text? && DownwardClosed(Pages(page), 1, maximum) ==>
              forall k :: 1 <= k <= maximum && Passes(Pages(page), k) ==> Shows(page, maximum, k, r.text)
    ensures Largest(Pages(page), maximum) == Ok(None) ==>
              && r.BudgetTooSmall?
              && (maximum > 0 ==>
                    NoRendering(Renders(page), 1, page.context) && NoRendering(Renders(page), maximum, page.context))
    ensures page.units.fixed == [] || ContentCutsWell(page, maximum) ==>
              (r.BudgetTooSmall? <==> Largest(Pages(page), maximum) == Ok(None))
    ensures r.SourceError? ==> Unreadable(page, maximum, r.message)
    ensures r.Failure? ==> Honest(r.error) || MiscountedContent(page, maximum, r.error)
    ensures r.Failure? && ContentCutsWell(page, maximum) ==> Honest(r.error) && !ContentPayable(page, maximum)
  {
    assert Lawful(page.tok) && page.context <= WORD_MAX && maximum <= WORD_MAX && |page.units.details| <= WORD_MAX;
    hide *;
    var graph := new SharedLineRenderGraph(page.tok);
    var selected := FitLargestContent(graph, page, maximum);
    LargestArises(page, maximum);
    ContentCases(page, maximum);
    if selected.Err? {
      ContentFails(page, maximum, selected.error);
      if selected.error.Source? { return SourceError(selected.error.message); }
      return Failure(selected.error.error);
    }
    if selected.value.None? { return BudgetTooSmall; }
    var candidate := selected.value.value;
    CandidateFacts(page, maximum, candidate);
    var finished := FinishContentView(page.tok, candidate.view, page.units, candidate.terminal, page.budget);
    r := match finished
         case Err(error) => Failure(error)
         case Ok(text) => if text.Some? then Text(text.value) else BudgetTooSmall;
    if r.Text? {
      forall k: nat | Arises(page, maximum, k, selected) ensures Shows(page, maximum, k, r.text) {
        CandidateShows(page, maximum, k, candidate, r.text);
      }
      if RenderProbe(page, maximum, page.context, MAX_MATCH_CHARS) == selected {
        RenderingShows(page, maximum, page.context, MAX_MATCH_CHARS, candidate, r.text);
      }
    }
  }

  lemma ContentCases(page: ContentPage, maximum: nat)
    ensures var selected, r := Largest(Pages(page), maximum), ContentResponse(page, maximum);
      && (selected.Err? ==>
            r == if selected.error.Source? then SourceError(selected.error.message) else Failure(selected.error.error))
      && (selected == Ok(None) ==> r == BudgetTooSmall)
      && (selected.Ok? && selected.value.Some? ==>
            var c := selected.value.value;
            var finished := ViewFinished(page.tok, c.view, page.units, c.terminal, page.budget);
            r == if finished.Err? then Failure(finished.error)
                 else if finished.value.Some? then Text(finished.value.value) else BudgetTooSmall)
  {
    hide Largest, ViewFinished, Pages;
  }

  // ----- glob

  /** Unreachable paths, as glob reports them. */
  datatype SkipReport = SkipReport(details: seq<string>, clause: nat -> Option<string>)

  datatype GlobPage = GlobPage(tok: Tokenizer, graph: LineRenderGraph, report: SkipReport, budget: nat)

  ghost predicate GlobPageOk(page: GlobPage) {
    Lawful(page.tok) && LineGraphBuilt(page.tok, page.graph) && |page.report.details| <= WORD_MAX
  }

  function ReportNotes(report: SkipReport, shown: nat, terminal: string): Option<seq<string>>
    requires shown <= |report.details|
  {
    match WithSkips(terminal, report.clause(shown))
    case None => None
    case Some(t) => Some(report.details[..shown] + [t])
  }

  /** One probe of `finish_with_skips`: a fixed body with `details` detail lines. */
  function GlobProbe(page: GlobPage, shown: nat, terminal: string, details: nat)
    : Result<Option<(seq<string>, nat)>, RenderPlanError>
    requires details <= |page.report.details|
  {
    match ReportNotes(page.report, details, terminal)
    case None => Err(InvalidTerminal)
    case Some(notes) =>
      match LineProbe(page.tok, page.graph, shown, notes)
      case Err(error) => Err(error)
      case Ok(tokens) => if tokens <= page.budget then Ok(Some((notes, tokens))) else Ok(None)
  }

  ghost predicate FitGlob(page: GlobPage, shown: nat, terminal: string, text: string)
    requires shown <= |page.graph.lines|
  {
    exists details :: 0 <= details <= |page.report.details| && GlobText(page, shown, terminal, details, text)
  }

  ghost predicate GlobText(page: GlobPage, shown: nat, terminal: string, details: nat, text: string)
    requires shown <= |page.graph.lines| && details <= |page.report.details|
  {
    && FullCount(page.tok, text) <= page.budget
    && exists note ::
         && Folded(terminal, page.report.clause(details), note)
         && text == Assembled(page.graph.lines[..shown], page.report.details[..details] + [note])
  }

  lemma ReportTells(page: GlobPage, shown: nat, terminal: string, details: nat, notes: seq<string>)
    requires shown <= |page.graph.lines| && details <= |page.report.details|
    requires ReportNotes(page.report, details, terminal) == Some(notes)
    requires FullCount(page.tok, Assembled(page.graph.lines[..shown], notes)) <= page.budget
    ensures GlobText(page, shown, terminal, details, Assembled(page.graph.lines[..shown], notes))
  {
    hide WithSkips, Assembled, Folded;
    FoldedIsWithSkips(terminal, page.report.clause(details), WithSkips(terminal, page.report.clause(details)).value);
  }

  /** A shown text ends in the terminal, with the clause for the number of details that it shows. */
  lemma {:induction false} GlobTextEnds(page: GlobPage, shown: nat, terminal: string, details: nat, text: string)
    requires shown <= |page.graph.lines| && details <= |page.report.details|
    requires GlobText(page, shown, terminal, details, text)
    ensures page.report.clause(details).None? ==> EndsIn(text, terminal)
    ensures page.report.clause(details).Some? ==>
              && EndsIn(terminal, ".)")
              && EndsIn(text, terminal[..|terminal| - 2] + ("; " + (page.report.clause(details).value + ".)")))
  {
    var units := NoteUnits([], page.report.details, None, page.report.clause);
    hide Assembled, Folded;
    var note :|
      && Folded(terminal, page.report.clause(details), note)
      && text == Assembled(page.graph.lines[..shown], page.report.details[..details] + [note]);
    assert units.fixed + units.details[..details] + [] + [note] == page.report.details[..details] + [note];
    assert Tells(page.graph.lines[..shown], units, terminal, details, text);
    ShownTextEnds(page.graph.lines[..shown], units, terminal, details, text);
  }

  /** The page with this many details may be cut where it is counted. */
  ghost predicate GlobCutsWell(page: GlobPage, shown: nat, terminal: string, details: nat)
    requires shown <= |page.graph.lines| && details <= |page.report.details|
  {
    var notes := ReportNotes(page.report, details, terminal);
    notes.Some? ==> CutsWell(page.tok, Assembled(page.graph.lines[..shown], notes.value))
  }

  ghost predicate AllCutWell(page: GlobPage, shown: nat, terminal: string)
    requires shown <= |page.graph.lines|
  {
    forall details :: 0 <= details <= |page.report.details| ==> GlobCutsWell(page, shown, terminal, details)
  }

  /** This page can be counted, and its terminal takes the skip clause. */
  ghost predicate GlobPayable(page: GlobPage, shown: nat, terminal: string, details: nat)
    requires shown <= |page.graph.lines| && details <= |page.report.details|
  {
    var notes := ReportNotes(page.report, details, terminal);
    Plain(page.tok) && notes.Some? && FullCount(page.tok, Assembled(page.graph.lines[..shown], notes.value)) <= WORD_MAX
  }

  ghost predicate AllPayable(page: GlobPage, shown: nat, terminal: string)
    requires shown <= |page.graph.lines|
  {
    forall details :: 0 <= details <= |page.report.details| ==> GlobPayable(page, shown, terminal, details)
  }

  /** Some page was probed at a number that is not its full count. */
  ghost predicate MiscountedGlob(page: GlobPage, shown: nat, terminal: string, error: RenderPlanError)
    requires shown <= |page.graph.lines|
  {
    && error.CountMismatch? && error.incremental != error.full && error.incremental <= page.budget
    && exists details :: 0 <= details <= |page.report.details| && FullGlobCount(page, shown, terminal, details, error.full)
  }

  ghost predicate FullGlobCount(page: GlobPage, shown: nat, terminal: string, details: nat, full: nat)
    requires shown <= |page.graph.lines| && details <= |page.report.details|
  {
    var notes := ReportNotes(page.report, details, terminal);
    notes.Some? && full == FullCount(page.tok, Assembled(page.graph.lines[..shown], notes.value))
  }

  lemma GlobProbeIsExact(page: GlobPage, shown: nat, terminal: string, details: nat)
    requires GlobPageOk(page) && shown <= |page.graph.lines| && details <= |page.report.details|
    ensures var r := GlobProbe(page, shown, terminal, details);
      && (r.Err? ==> Honest(r.error))
      && (r.Err? && GlobCutsWell(page, shown, terminal, details) ==> !GlobPayable(page, shown, terminal, details))
      && (r.Ok? && r.value.Some? ==>
            && ReportNotes(page.report, details, terminal) == Some(r.value.value.0)
            && r.value.value.1 <= page.budget
            && (GlobCutsWell(page, shown, terminal, details) ==>
                  r.value.value.1 == FullCount(page.tok, Assembled(page.graph.lines[..shown], r.value.value.0))))
  {
    var notes := ReportNotes(page.report, details, terminal);
    PrefixIsView(page.tok, page.graph, shown);
    SuffixFails(page.tok);
    hide CutsWell, Lawful, ViewOk, ReportNotes, SuffixProbe, Continuation;
    if notes.Some? && GlobCutsWell(page, shown, terminal, details) {
      BodyCutsWell(page.tok, Joined(page.graph.lines[..shown]), page.graph.lines[..shown] != [], notes.value);
      ViewProbeIsExact(page.tok, PrefixView(page.graph, shown), notes.value);
    }
  }

  method ProbeGlob(page: GlobPage, shown: nat, terminal: string, details: nat)
    returns (r: Result<Option<(seq<string>, nat)>, RenderPlanError>)
    requires details <= |page.report.details|
    ensures r == GlobProbe(page, shown, terminal, details)
  {
    var notes := ReportNotes(page.report, details, terminal);
    if notes.None? { return Err(InvalidTerminal); }
    var tokens :- ProbeLines(page.tok, page.graph, shown, notes.value);
    r := Ok(if tokens <= page.budget then Some((notes.value, tokens)) else None);
  }

  predicate DetailsFit(page: GlobPage, shown: nat, terminal: string, details: nat)
    requires details <= |page.report.details|
  {
    GlobProbe(page, shown, terminal, details).Ok? && GlobProbe(page, shown, terminal, details).value.Some?
  }

  ghost predicate DetailsDownwardClosed(page: GlobPage, shown: nat, terminal: string) {
    forall j, k :: 0 <= j <= k <= |page.report.details| && DetailsFit(page, shown, terminal, k) ==>
      DetailsFit(page, shown, terminal, j)
  }

  /** The text shows this many details, and no larger number fits. */
  ghost predicate MostDetails(page: GlobPage, shown: nat, terminal: string, details: nat, text: string)
    requires shown <= |page.graph.lines| && details <= |page.report.details|
  {
    && GlobText(page, shown, terminal, details, text)
    && (forall k :: details < k <= |page.report.details| ==> !DetailsFit(page, shown, terminal, k))
  }

  lemma NoMoreDetails(page: GlobPage, shown: nat, terminal: string, at: nat, k: nat)
    requires DetailsDownwardClosed(page, shown, terminal) && at < k <= |page.report.details|
    requires !DetailsFit(page, shown, terminal, at + 1)
    ensures !DetailsFit(page, shown, terminal, k)
  {
  }

  /**
   Adds as many details to a fixed body as the search finds room for. It gives
   up only after the page without details was itself probed and did not fit.
   */
  method FinishWithSkips(page: GlobPage, shown: nat, terminal: string) returns (r: Response)
    requires GlobPageOk(page) && shown <= |page.graph.lines|
    ensures r.Text? ==> FitGlob(page, shown, terminal, r.text)
    ensures r.Text? && DetailsDownwardClosed(page, shown, terminal) ==>
              (exists details :: 0 <= details <= |page.report.details| && MostDetails(page, shown, terminal, details, r.text))
    ensures r.BudgetTooSmall? ==> GlobProbe(page, shown, terminal, 0) == Ok(None)
    ensures r.Failure? ==> Honest(r.error) || MiscountedGlob(page, shown, terminal, r.error)
    ensures r.Failure? && AllCutWell(page, shown, terminal) ==> Honest(r.error) && !AllPayable(page, shown, terminal)
    ensures !r.SourceError?
  {
    hide GlobProbe, GlobPageOk, ReportNotes, LineGraphOk, GlobPayable, GlobCutsWell;
    var full := |page.report.details|;
    GlobProbeIsExact(page, shown, terminal, full);
    var first := ProbeGlob(page, shown, terminal, full);
    if first.Err? { return Failure(first.error); }
    var best := first.value;
    ghost var at: nat := full;
    if best.None? && full > 0 {
      var low, high: int := 0, full - 1;
      while low <= high
        invariant 0 <= low && -1 <= high < full && low <= high + 1
        invariant best.Some? ==> at == low - 1 && at <= full && GlobProbe(page, shown, terminal, at) == Ok(best)
        invariant low > 0 ==> best.Some?
        invariant high < full - 1 ==> GlobProbe(page, shown, terminal, high + 1) == Ok(None)
        decreases high - low
      {
        var middle: nat := low + (high - low) / 2;
        GlobProbeIsExact(page, shown, terminal, middle);
        var hit := ProbeGlob(page, shown, terminal, middle);
        if hit.Err? { return Failure(hit.error); }
        if hit.value.Some? {
          best, at := hit.value, middle;
          low := middle + 1;
        } else {
          high := middle - 1;
          if middle == 0 { break; }
        }
      }
      assert best.Some? ==> at == high && GlobProbe(page, shown, terminal, at + 1) == Ok(None);
    }
    if best.None? { return BudgetTooSmall; }
    assert at < full ==> !DetailsFit(page, shown, terminal, at + 1);
    GlobProbeIsExact(page, shown, terminal, at);
    var (notes, tokens) := best.value;
    var finished := FinishLines(page.tok, page.graph, shown, notes, tokens, page.budget);
    if finished.Ok? { ReportTells(page, shown, terminal, at, notes); }
    assert FullGlobCount(page, shown, terminal, at, FullCount(page.tok, Assembled(page.graph.lines[..shown], notes)));
    r := match finished case Ok(verified) => Text(verified.text) case Err(error) => Failure(error);
    if r.Text? && DetailsDownwardClosed(page, shown, terminal) {
      forall k | at < k <= full ensures !DetailsFit(page, shown, terminal, k) {
        NoMoreDetails(page, shown, terminal, at, k);
      }
      assert MostDetails(page, shown, terminal, at, Assembled(page.graph.lines[..shown], notes));
    }
  }

  /** The page without details and with `shown` entries fits. */
  predicate BodyFits(page: GlobPage, terminals: nat -> string, shown: nat) {
    GlobProbe(page, shown, terminals(shown), 0).Ok? && GlobProbe(page, shown, terminals(shown), 0).value.Some?
  }

  /**
   Shows as many entries as fit with no details, then adds details. "Too small"
   means that not even one entry fits; no monotonicity of token counts is used.
   */
  method FormatMatches(page: GlobPage, maximum: nat, terminals: nat -> string) returns (r: Response, shown: nat)
    requires GlobPageOk(page) && maximum <= |page.graph.lines|
    ensures r.Text? ==>
              && 1 <= shown <= maximum && FitGlob(page, shown, terminals(shown), r.text)
              && BodyFits(page, terminals, shown)
              && (forall k :: shown < k <= maximum ==> !BodyFits(page, terminals, k))
    ensures r.BudgetTooSmall? <==> forall k :: 1 <= k <= maximum ==> GlobProbe(page, k, terminals(k), 0) == Ok(None)
    ensures r.Failure? ==>
              1 <= shown <= maximum && (Honest(r.error) || MiscountedGlob(page, shown, terminals(shown), r.error))
    ensures r.Failure? && AllCutWell(page, shown, terminals(shown)) ==>
              Honest(r.error) && !AllPayable(page, shown, terminals(shown))
    ensures !r.SourceError?
  {
    hide GlobProbe, GlobPageOk, FitGlob, GlobPayable, GlobCutsWell;
    shown := maximum;
    while shown > 0
      invariant shown <= maximum
      invariant forall k :: shown < k <= maximum ==> GlobProbe(page, k, terminals(k), 0) == Ok(None)
    {
      GlobProbeIsExact(page, shown, terminals(shown), 0);
      var hit := ProbeGlob(page, shown, terminals(shown), 0);
      if hit.Err? { return Failure(hit.error), shown; }
      if hit.value.Some? {
        r := FinishWithSkips(page, shown, terminals(shown));
        return;
      }
      shown := shown - 1;
    }
    r := BudgetTooSmall;
  }
}

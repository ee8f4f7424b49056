/**
 Window selection inside one file, after `grep_sink.rs`: the sink skips some
 entries, selects a limited number, and stops the search as soon as the limit
 is reached. An entry is a matching line or, in occurrence mode, one match.
 */
module ContentSinks {
  import opened Wrappers

  datatype ContentMode = Line | Occurrence

  /** One callback of the searcher: a line group with this many counted matches. */
  datatype Callback = Callback(line: nat, matches: nat)

  datatype Entry = Entry(line: nat, index: nat)

  datatype ContentSpec = ContentSpec(skip: nat, limit: Option<nat>)

  function EntriesOf(mode: ContentMode, callback: Callback): seq<Entry> {
    match mode
    case Line => if callback.matches > 0 then [Entry(callback.line, 0)] else []
    case Occurrence => seq(callback.matches, i requires 0 <= i < callback.matches => Entry(callback.line, i))
  }

  /** Every entry of a file, in order. */
  function AllEntries(mode: ContentMode, callbacks: seq<Callback>): seq<Entry> {
    if callbacks == [] then []
    else AllEntries(mode, callbacks[..|callbacks| - 1]) + EntriesOf(mode, callbacks[|callbacks| - 1])
  }

  /** The searcher reports each line group once, in ascending order. */
  ghost predicate Ascending(callbacks: seq<Callback>) {
    forall i, j :: 0 <= i < j < |callbacks| ==> callbacks[i].line < callbacks[j].line
  }

  /** A matching line counts once by lines, and once for each of its matches by occurrences. */
  predicate CountsAs(mode: ContentMode, callback: Callback, entry: Entry) {
    && entry.line == callback.line
    && (mode == Line ==> callback.matches > 0 && entry.index == 0)
    && (mode == Occurrence ==> entry.index < callback.matches)
  }

  lemma EntryCounts(mode: ContentMode, callback: Callback, entry: Entry)
    ensures entry in EntriesOf(mode, callback) <==> CountsAs(mode, callback, entry)
  {
    if mode == Occurrence && CountsAs(mode, callback, entry) {
      assert EntriesOf(mode, callback)[entry.index] == entry;
    }
  }

  /** The entries of a file are what its callbacks count as, and nothing else. */
  lemma {:induction false} EntriesAre(mode: ContentMode, callbacks: seq<Callback>, entry: Entry)
    ensures entry in AllEntries(mode, callbacks) <==> exists k :: 0 <= k < |callbacks| && CountsAs(mode, callbacks[k], entry)
  {
    hide EntriesOf, CountsAs;
    if callbacks != [] {
      var front := callbacks[..|callbacks| - 1];
      EntriesAre(mode, front, entry);
      EntryCounts(mode, callbacks[|callbacks| - 1], entry);
      if exists k :: 0 <= k < |front| && CountsAs(mode, front[k], entry) {
        var k :| 0 <= k < |front| && CountsAs(mode, front[k], entry);
        assert CountsAs(mode, callbacks[k], entry);
      }
      assert forall k :: 0 <= k < |front| ==> front[k] == callbacks[k];
    }
  }

  ghost predicate Before(a: Entry, b: Entry) {
    a.line < b.line || (a.line == b.line && a.index < b.index)
  }

  /** And they come in order, each one once. */
  lemma {:induction false} EntriesAscend(mode: ContentMode, callbacks: seq<Callback>)
    requires Ascending(callbacks)
    ensures var all := AllEntries(mode, callbacks); forall i, j :: 0 <= i < j < |all| ==> Before(all[i], all[j])
  {
    if callbacks != [] {
      var front, last := callbacks[..|callbacks| - 1], callbacks[|callbacks| - 1];
      EntriesAscend(mode, front);
      var all, before := AllEntries(mode, callbacks), AllEntries(mode, front);
      forall i, j | 0 <= i < j < |all| ensures Before(all[i], all[j]) {
        if i < |before| {
          assert before[i] in before;
          EntriesAre(mode, front, before[i]);
        }
      }
    }
  }

  /** `all[skip..skip + limit]`, as far as it exists. */
  function Window<T>(all: seq<T>, skip: nat, limit: Option<nat>): seq<T> {
    var from := Min(skip, |all|);
    match limit
    case None => all[from..]
    case Some(m) => all[from..Min(skip + m, |all|)]
  }

  /** How many entries a windowed search looks at before it stops. */
  function SeenOf(total: nat, spec: ContentSpec): nat {
    match spec.limit
    case None => total
    case Some(m) => Min(total, spec.skip + m)
  }

  class ContentSink {
    const mode: ContentMode
    const spec: ContentSpec
    var entriesSeen: nat
    var selectedEntryCount: nat
    var lastMatchingLine: Option<nat>
    var currentLineSelected: bool
    var entries: seq<Entry>
    /** Every entry met so far. */
    ghost var met: seq<Entry>

    ghost predicate Valid()
      reads this
    {
      && entriesSeen == |met|
      && entries == Window(met, spec.skip, spec.limit)
      && selectedEntryCount == |entries|
      && (spec.limit.Some? ==> |met| <= spec.skip + spec.limit.value)
    }

    ghost predicate Unfinished()
      reads this
    {
      spec.limit.Some? ==> selectedEntryCount < spec.limit.value
    }

    constructor (mode: ContentMode, spec: ContentSpec)
      ensures Valid() && met == [] && lastMatchingLine.None? && this.mode == mode && this.spec == spec
    {
      this.mode, this.spec := mode, spec;
      entriesSeen, selectedEntryCount, lastMatchingLine, currentLineSelected := 0, 0, None, false;
      entries, met := [], [];
    }

    method LimitReached() returns (reached: bool)
      ensures reached == !Unfinished()
    {
      reached := spec.limit.Some? && selectedEntryCount >= spec.limit.value;
    }

    /** Meets one more entry; selects it if it lies in the window. */
    method Meet(entry: Entry) returns (selected: bool)
      requires Valid() && Unfinished() && |met| < WORD_MAX
      modifies this`entriesSeen, this`selectedEntryCount, this`entries, this`met
      ensures Valid() && met == old(met) + [entry]
      ensures selected == (|met| > spec.skip)
    {
      met := met + [entry];
      entriesSeen := entriesSeen + 1;
      selected := entriesSeen > spec.skip && (spec.limit.None? || selectedEntryCount < spec.limit.value);
      if selected {
        selectedEntryCount := selectedEntryCount + 1;
        entries := entries + [entry];
      }
    }

    /** A line counts once, however many matches it holds. */
    method SelectLine(line: nat) returns (selected: bool)
      requires Valid() && (lastMatchingLine != Some(line) ==> Unfinished() && |met| < WORD_MAX)
      modifies this
      ensures Valid() && lastMatchingLine == Some(line)
      ensures met == if old(lastMatchingLine) == Some(line) then old(met) else old(met) + [Entry(line, 0)]
      ensures selected == currentLineSelected
      ensures old(lastMatchingLine) == Some(line) ==> selected == old(currentLineSelected)
    {
      if lastMatchingLine == Some(line) { return currentLineSelected; }
      lastMatchingLine := Some(line);
      currentLineSelected := Meet(Entry(line, 0));
      selected := currentLineSelected;
    }

    /** Handles one callback; the answer is whether the searcher should go on. */
    method Matched(callback: Callback) returns (more: bool)
      requires Valid() && Unfinished()
      requires mode.Line? ==> lastMatchingLine != Some(callback.line)
      requires |met| + |EntriesOf(mode, callback)| <= WORD_MAX
      modifies this
      ensures Valid() && more == Unfinished()
      ensures more ==> met == old(met) + EntriesOf(mode, callback)
      ensures !more ==> old(met) <= met <= old(met) + EntriesOf(mode, callback)
      ensures lastMatchingLine == old(lastMatchingLine) || lastMatchingLine == Some(callback.line)
    {
      if mode.Line? {
        var k := 0;
        while k < callback.matches
          invariant Valid()
          invariant k <= callback.matches
          invariant k == 0 ==> met == old(met) && lastMatchingLine == old(lastMatchingLine) && Unfinished()
          invariant k > 0 ==> met == old(met) + EntriesOf(mode, callback) && lastMatchingLine == Some(callback.line)
        {
          var selected := SelectLine(callback.line);
          k := k + 1;
          if !selected { break; }
        }
      } else {
        var k := 0;
        while k < callback.matches
          invariant Valid() && Unfinished()
          invariant k <= callback.matches
          invariant met == old(met) + EntriesOf(mode, callback)[..k]
          invariant lastMatchingLine == old(lastMatchingLine)
        {
          var selected := Meet(Entry(callback.line, k));
          k := k + 1;
          assert EntriesOf(mode, callback)[..k] == EntriesOf(mode, callback)[..k - 1] + [Entry(callback.line, k - 1)];
          var reached := LimitReached();
          if reached { break; }
        }
      }
      var reached := LimitReached();
      more := !reached;
    }
  }

  /**
   Searching a file through a window selects exactly the window of all its
   entries and has seen exactly the entries up to the window's end.
   */
  method SearchFile(mode: ContentMode, spec: ContentSpec, callbacks: seq<Callback>)
    returns (entries: seq<Entry>, entriesSeen: nat)
    requires Ascending(callbacks) && |AllEntries(mode, callbacks)| <= WORD_MAX
    requires spec.limit.Some? ==> spec.limit.value >= 1
    ensures entries == Window(AllEntries(mode, callbacks), spec.skip, spec.limit)
    ensures entriesSeen == SeenOf(|AllEntries(mode, callbacks)|, spec)
  {
    hide AllEntries, EntriesOf, Window, ContentSink.Valid, Ascending;
    var sink := new ContentSink(mode, spec);
    var more := true;
    var k := 0;
    NoEntries(mode, callbacks);
    FreshGoesOn(sink);
    while k < |callbacks| && more
      invariant fresh(sink) && sink.mode == mode && sink.spec == spec
      invariant k <= |callbacks| && sink.Valid() && more == sink.Unfinished()
      invariant more ==> sink.met == AllEntries(mode, callbacks[..k])
      invariant sink.met <= AllEntries(mode, callbacks)
      invariant sink.lastMatchingLine.Some? ==> k > 0 && sink.lastMatchingLine.value <= callbacks[k - 1].line
    {
      NextEntries(mode, callbacks, k);
      LinesAscend(callbacks, k);
      more := sink.Matched(callbacks[k]);
      k := k + 1;
    }
    assert callbacks[..|callbacks|] == callbacks;
    WindowReached(sink, AllEntries(mode, callbacks));
    entries, entriesSeen := sink.entries, sink.entriesSeen;
  }

  lemma NoEntries(mode: ContentMode, callbacks: seq<Callback>)
    ensures AllEntries(mode, callbacks[..0]) == []
  {
  }

  lemma LinesAscend(callbacks: seq<Callback>, k: nat)
    requires Ascending(callbacks) && k < |callbacks|
    ensures k > 0 ==> callbacks[k - 1].line < callbacks[k].line
  {
  }

  lemma FreshGoesOn(sink: ContentSink)
    requires sink.Valid() && sink.met == [] && (sink.spec.limit.Some? ==> sink.spec.limit.value >= 1)
    ensures sink.Unfinished()
  {
  }

  /** A sink that has met everything, or filled its window, holds the window of everything. */
  lemma WindowReached(sink: ContentSink, all: seq<Entry>)
    requires sink.Valid() && sink.met <= all && (sink.spec.limit.Some? ==> sink.spec.limit.value >= 1)
    requires sink.Unfinished() ==> sink.met == all
    ensures sink.entries == Window(all, sink.spec.skip, sink.spec.limit)
    ensures sink.entriesSeen == SeenOf(|all|, sink.spec)
  {
    FullWindow(sink.met, sink.spec);
    WindowOfPrefix(all, sink.met, sink.spec);
  }

  lemma NextEntries(mode: ContentMode, callbacks: seq<Callback>, k: nat)
    requires k < |callbacks|
    ensures AllEntries(mode, callbacks[..k + 1]) == AllEntries(mode, callbacks[..k]) + EntriesOf(mode, callbacks[k])
    ensures AllEntries(mode, callbacks[..k + 1]) <= AllEntries(mode, callbacks)
  {
    assert callbacks[..k + 1][..k] == callbacks[..k];
    PrefixOfAll(mode, callbacks, k + 1);
  }

  lemma {:induction false} PrefixOfAll(mode: ContentMode, callbacks: seq<Callback>, k: nat)
    requires k <= |callbacks|
    ensures AllEntries(mode, callbacks[..k]) <= AllEntries(mode, callbacks)
  {
    if k < |callbacks| {
      PrefixOfAll(mode, callbacks[..|callbacks| - 1], k);
      assert callbacks[..|callbacks| - 1][..k] == callbacks[..k];
    } else {
      assert callbacks[..k] == callbacks;
    }
  }

  lemma FullWindow<T>(met: seq<T>, spec: ContentSpec)
    requires spec.limit.Some? ==> spec.limit.value >= 1 && |met| <= spec.skip + spec.limit.value
    ensures spec.limit.Some? && |Window(met, spec.skip, spec.limit)| >= spec.limit.value ==>
              |met| == spec.skip + spec.limit.value
  {
  }

  /** A full window of a prefix is the window of the whole. */
  lemma WindowOfPrefix<T>(all: seq<T>, met: seq<T>, spec: ContentSpec)
    requires met <= all
    requires met == all || (spec.limit.Some? && |met| == spec.skip + spec.limit.value)
    ensures Window(met, spec.skip, spec.limit) == Window(all, spec.skip, spec.limit)
    ensures |met| == SeenOf(|all|, spec) || met == all
  {
  }
}

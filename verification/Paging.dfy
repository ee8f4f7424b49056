/**
 Paging over many files, after the reducer in `grep_tool.rs`. Files are
 searched in parallel with an over-wide window and trimmed in order; a file
 whose capture overflowed is searched again with the exact window. The page
 must be the slice that one serial windowed scan would have produced.
 */
module Paging {
  import opened Wrappers
  import opened ContentSinks

  datatype Retry = Fits | StillUnsearchable(message: string) | RetryFatal(message: string)

  /** How one file fares; `entries` is everything it holds. */
  datatype FileCase<E> =
    | Searched(entries: seq<E>)
    | Overflowed(entries: seq<E>, retry: Retry)
    | Unsearchable(message: string)
    | Fatal(message: string)

  /** The entries a file adds to the result list. */
  function Contribution<E>(file: FileCase<E>): seq<E> {
    match file
    case Searched(entries) => entries
    case Overflowed(entries, retry) => if retry.Fits? then entries else []
    case _ => []
  }

  function AllOf<E>(files: seq<FileCase<E>>): seq<E> {
    if files == [] then [] else AllOf(files[..|files| - 1]) + Contribution(files[|files| - 1])
  }

  /** The failure a file ends the whole search with. A lone target may not be skipped. */
  function FatalMessage<E>(file: FileCase<E>, singleFile: bool): Option<string> {
    match file
    case Fatal(message) => Some(message)
    case Unsearchable(message) => if singleFile then Some(message) else None
    case Overflowed(_, RetryFatal(message)) => Some(message)
    case Overflowed(_, StillUnsearchable(message)) => if singleFile then Some(message) else None
    case _ => None
  }

  /** This file ends the search with this message, if it comes before the page is full. */
  predicate Fails<E>(file: FileCase<E>, singleFile: bool, message: string) {
    || file == Fatal(message)
    || (file.Overflowed? && file.retry == RetryFatal(message))
    || (singleFile && (file == Unsearchable(message) || (file.Overflowed? && file.retry == StillUnsearchable(message))))
  }

  /** This file adds these entries to the list. */
  ghost predicate Gives<E>(file: FileCase<E>, entries: seq<E>) {
    if file.Searched? || (file.Overflowed? && file.retry.Fits?) then file.entries == entries else entries == []
  }

  lemma FailsIsFatal<E>(file: FileCase<E>, singleFile: bool)
    ensures forall message :: FatalMessage(file, singleFile) == Some(message) <==> Fails(file, singleFile, message)
    ensures FatalMessage(file, singleFile).Some? ==> Fails(file, singleFile, FatalMessage(file, singleFile).value)
  {
  }

  /** The list is what the files give, one after another. */
  lemma {:induction false} AllOfGives<E>(files: seq<FileCase<E>>, parts: seq<seq<E>>)
    requires |parts| == |files| && forall k :: 0 <= k < |files| ==> Gives(files[k], parts[k])
    ensures AllOf(files) == Concat(parts)
  {
    if files != [] {
      var n := |files| - 1;
      AllOfGives(files[..n], parts[..n]);
      ConcatNext(parts, n);
      assert parts[..n + 1] == parts && Gives(files[n], parts[n]);
    }
  }

  lemma {:induction false} ConcatNext<E>(parts: seq<seq<E>>, n: nat)
    requires n < |parts|
    ensures Concat(parts[..n + 1]) == Concat(parts[..n]) + parts[n]
  {
    if n == 0 {
      assert parts[..1][1..] == [];
    } else {
      ConcatNext(parts[1..], n - 1);
      assert parts[..n + 1][1..] == parts[1..][..n] && parts[..n][1..] == parts[1..][..n - 1];
    }
  }

  /** The page the reducer must produce: `all[offset..offset + probe]`. */
  function Slice<E>(all: seq<E>, offset: nat, probe: nat): seq<E> {
    Window(all, offset, Some(probe))
  }

  // ----- the serial scan

  /** One serial scan: each file is searched with the exact window that is left. */
  function Serial<E>(files: seq<seq<E>>, skip: nat, need: nat): (seq<E>, nat) {
    if files == [] || need == 0 then ([], 0)
    else
      var found := Window(files[0], skip, Some(need));
      var seen := SeenOf(|files[0]|, ContentSpec(skip, Some(need)));
      var (rest, restSeen) := Serial(files[1..], SaturatingSub(skip, seen), need - |found|);
      (found + rest, seen + restSeen)
  }

  function Concat<E>(files: seq<seq<E>>): seq<E> {
    if files == [] then [] else files[0] + Concat(files[1..])
  }

  /** The serial scan returns the slice, and sees nothing beyond its end. */
  lemma {:induction false} SerialIsSlice<E>(files: seq<seq<E>>, skip: nat, need: nat)
    requires need > 0 || skip == 0
    ensures Serial(files, skip, need) == (Slice(Concat(files), skip, need), Min(|Concat(files)|, skip + need))
  {
    if files != [] && need > 0 {
      var found := Slice(files[0], skip, need);
      SliceLength(files[0], skip, need);
      SerialArithmetic(|files[0]|, |Concat(files[1..])|, skip, need);
      var skip', need' := SaturatingSub(skip, |files[0]|), need - |found|;
      SerialIsSlice(files[1..], skip', need');
      SliceSplits(files[0], Concat(files[1..]), skip, need);
      SerialStep(files, skip, need);
      hide *;
    }
  }

  lemma SerialStep<E>(files: seq<seq<E>>, skip: nat, need: nat)
    requires files != [] && need > 0
    ensures Concat(files) == files[0] + Concat(files[1..])
    ensures |Slice(files[0], skip, need)| <= need
    ensures var found := Slice(files[0], skip, need);
      var seen := SeenOf(|files[0]|, ContentSpec(skip, Some(need)));
      var rest := Serial(files[1..], SaturatingSub(skip, seen), need - |found|);
      Serial(files, skip, need) == (found + rest.0, seen + rest.1)
  {
    SliceLength(files[0], skip, need);
  }

  lemma SerialArithmetic(a: nat, b: nat, skip: nat, need: nat)
    requires need > 0
    ensures var seen := SeenOf(a, ContentSpec(skip, Some(need)));
      var found := Min(SaturatingSub(a, skip), need);
      && SaturatingSub(skip, seen) == SaturatingSub(skip, a)
      && seen + Min(b, SaturatingSub(skip, a) + (need - found)) == Min(a + b, skip + need)
      && (need - found > 0 || SaturatingSub(skip, a) == 0)
  {
  }

  lemma SliceAt<E>(all: seq<E>, offset: nat, probe: nat, k: nat)
    requires k < |Slice(all, offset, probe)|
    ensures offset + k < |all| && Slice(all, offset, probe)[k] == all[offset + k]
  {
  }

  /** A slice of a concatenation, part by part. */
  lemma SliceSplits<E>(a: seq<E>, b: seq<E>, skip: nat, need: nat)
    ensures Slice(a + b, skip, need)
         == Slice(a, skip, need) + Slice(b, SaturatingSub(skip, |a|), need - |Slice(a, skip, need)|)
  {
    SliceLength(a, skip, need);
    var left := Slice(a, skip, need);
    var right := Slice(b, SaturatingSub(skip, |a|), need - |left|);
    SliceLength(b, SaturatingSub(skip, |a|), need - |left|);
    SliceLength(a + b, skip, need);
    var whole := Slice(a + b, skip, need);
    assert |whole| == |left| + |right|;
    forall k | 0 <= k < |whole| ensures whole[k] == (left + right)[k] {
      SliceAt(a + b, skip, need, k);
      if k < |left| { SliceAt(a, skip, need, k); } else { SliceAt(b, SaturatingSub(skip, |a|), need - |left|, k - |left|); }
      hide Slice;
    }
  }

  lemma SliceLength<E>(all: seq<E>, offset: nat, probe: nat)
    ensures |Slice(all, offset, probe)| == Min(SaturatingSub(|all|, offset), probe)
  {
  }

  /** Trimming the over-wide capture leaves the serial share, although the cap may saturate. */
  lemma TrimmedShare<E>(entries: seq<E>, offset: nat, probe: nat, skip: nat, need: nat)
    requires skip <= offset && need <= probe && |entries| <= WORD_MAX
    ensures var captured := Window(entries, 0, Some(SaturatingAdd(offset, probe)));
      var start := Min(skip, |captured|);
      var end := Min(|captured|, SaturatingAdd(start, need));
      && start <= end && captured[start..end] == Slice(entries, skip, need)
      && end == Min(|entries|, skip + need) && start == Min(skip, |entries|)
  {
    var captured := Window(entries, 0, Some(SaturatingAdd(offset, probe)));
    assert captured == entries[..Min(SaturatingAdd(offset, probe), |entries|)];
    var start := Min(skip, |captured|);
    var end := Min(|captured|, SaturatingAdd(start, need));
    assert start == Min(skip, |entries|) && end == Min(|entries|, skip + need);
    assert captured[start..end] == entries[start..end];
    assert Slice(entries, skip, need) == entries[start..end];
  }

  // ----- the ordered reducer

  class PageReducer<E(==)> {
    const content: bool
    const singleFile: bool
    const offset: nat
    const probe: nat
    var results: seq<E>
    var collectedEntries: nat
    var skipRemaining: nat
    var totalEntriesSeen: nat
    var scanComplete: bool
    var failure: Option<string>
    /** Everything contributed by the files reduced so far. */
    ghost var all: seq<E>

    ghost predicate Valid()
      reads this
    {
      && probe >= 1 && |all| <= WORD_MAX
      && results == Slice(all, offset, probe) && collectedEntries == |results|
      && totalEntriesSeen == Min(|all|, offset + probe)
      && skipRemaining == SaturatingSub(offset, |all|)
      && scanComplete == (|all| < offset + probe)
    }

    constructor (content: bool, singleFile: bool, offset: nat, probe: nat)
      requires probe >= 1
      ensures Valid() && failure.None? && all == []
      ensures this.content == content && this.singleFile == singleFile && this.offset == offset && this.probe == probe
    {
      this.content, this.singleFile, this.offset, this.probe := content, singleFile, offset, probe;
      results, collectedEntries, skipRemaining, totalEntriesSeen := [], 0, offset, 0;
      scanComplete, failure, all := true, None, [];
    }

    /** Takes the next file in order; the answer is whether to continue. */
    method Reduce(file: FileCase<E>) returns (more: bool)
      requires Valid() && scanComplete && failure.None?
      requires |all| + |Contribution(file)| <= WORD_MAX
      requires !content ==> |Contribution(file)| <= 1
      modifies this
      ensures forall message :: failure == Some(message) <==> Fails(file, singleFile, message)
      ensures failure.None? ==> Valid() && all == old(all) + Contribution(file)
      ensures more == (failure.None? && scanComplete)
    {
      hide Slice;
      FailsIsFatal(file, singleFile);
      failure := FatalMessage(file, singleFile);
      if failure.Some? { return false; }
      all := all + Contribution(file);
      SliceSplits(old(all), Contribution(file), offset, probe);
      SliceLength(old(all), offset, probe);
      SliceLength(all, offset, probe);
      assert old(all) + [] == old(all);
      if content {
        match file {
          case Overflowed(entries, retry) =>
            if retry.Fits? { AddExact(entries, old(all)); }
          case Searched(entries) => AddTrimmed(entries, old(all));
          case _ =>
        }
      } else {
        if Contribution(file) != [] {
          assert Contribution(file) == [Contribution(file)[0]];
          AddWhole(Contribution(file)[0], old(all));
        }
      }
      if collectedEntries >= probe {
        scanComplete := false;
        return false;
      }
      more := true;
    }

    /** The state before `entries` were accounted for. */
    ghost predicate Pending(before: seq<E>, entries: seq<E>)
      reads this
    {
      && probe >= 1 && |before| < offset + probe
      && all == before + entries && |all| <= WORD_MAX
      && results == Slice(before, offset, probe) && collectedEntries == |results|
      && totalEntriesSeen == |before| && skipRemaining == SaturatingSub(offset, |before|)
      && Slice(all, offset, probe)
         == Slice(before, offset, probe) + Slice(entries, SaturatingSub(offset, |before|), probe - |results|)
    }

    ghost predicate Added()
      reads this
    {
      && results == Slice(all, offset, probe) && collectedEntries == |results|
      && totalEntriesSeen == Min(|all|, offset + probe)
      && skipRemaining == SaturatingSub(offset, |all|)
    }

    /** The over-wide search kept a prefix of the file; trim it to the serial share. */
    method AddTrimmed(entries: seq<E>, ghost before: seq<E>)
      requires Pending(before, entries)
      modifies this`results, this`collectedEntries, this`skipRemaining, this`totalEntriesSeen
      ensures Added()
    {
      hide Slice;
      SliceLength(before, offset, probe);
      SliceLength(entries, skipRemaining, probe - |results|);
      var captured := Window(entries, 0, Some(SaturatingAdd(offset, probe)));
      var available := |captured|;
      var need := SaturatingSub(probe, collectedEntries);
      var start := Min(skipRemaining, available);
      var end := Min(available, SaturatingAdd(start, need));
      TrimmedShare(entries, offset, probe, skipRemaining, need);
      totalEntriesSeen := SaturatingAdd(totalEntriesSeen, end);
      skipRemaining := SaturatingSub(skipRemaining, start);
      if end > start {
        collectedEntries := collectedEntries + (end - start);
        results := results + captured[start..end];
      }
    }

    /** The retried search applied the live window itself. */
    method AddExact(entries: seq<E>, ghost before: seq<E>)
      requires Pending(before, entries)
      modifies this`results, this`collectedEntries, this`skipRemaining, this`totalEntriesSeen
      ensures Added()
    {
      var need := SaturatingSub(probe, collectedEntries);
      var found := Window(entries, skipRemaining, Some(need));
      var seen := SeenOf(|entries|, ContentSpec(skipRemaining, Some(need)));
      totalEntriesSeen := SaturatingAdd(totalEntriesSeen, seen);
      skipRemaining := SaturatingSub(skipRemaining, seen);
      collectedEntries := collectedEntries + |found|;
      results := results + found;
    }

    /** Outside content mode a matching file is one entry. */
    method AddWhole(entry: E, ghost before: seq<E>)
      requires Pending(before, [entry])
      modifies this`results, this`collectedEntries, this`skipRemaining, this`totalEntriesSeen
      ensures Added()
    {
      totalEntriesSeen := SaturatingAdd(totalEntriesSeen, 1);
      if skipRemaining > 0 {
        skipRemaining := skipRemaining - 1;
        return;
      }
      collectedEntries := collectedEntries + 1;
      results := results + [entry];
    }
  }

  // ----- the whole scan

  ghost predicate Sized<E>(content: bool, files: seq<FileCase<E>>) {
    && |AllOf(files)| <= WORD_MAX
    && (forall k :: 0 <= k < |files| && !content ==> |Contribution(files[k])| <= 1)
  }

  /** The file that ends the search with a failure before the page is full. */
  ghost predicate FailsAt<E>(files: seq<FileCase<E>>, singleFile: bool, offset: nat, probe: nat, k: nat) {
    && k < |files| && (exists message :: Fails(files[k], singleFile, message))
    && |AllOf(files[..k])| < offset + probe
    && (forall j, message :: 0 <= j < k ==> !Fails(files[j], singleFile, message))
  }

  lemma {:induction false} AllOfPrefix<E>(files: seq<FileCase<E>>, k: nat)
    requires k <= |files|
    ensures AllOf(files[..k]) <= AllOf(files)
  {
    if k < |files| {
      AllOfPrefix(files[..|files| - 1], k);
      assert files[..|files| - 1][..k] == files[..k];
    } else {
      assert files[..k] == files;
    }
  }

  /** The slice is settled once its end has been reached. */
  lemma SliceOfPrefix<E>(part: seq<E>, all: seq<E>, offset: nat, probe: nat)
    requires part <= all && (part == all || |part| >= offset + probe)
    ensures Slice(part, offset, probe) == Slice(all, offset, probe)
    ensures Min(|part|, offset + probe) == Min(|all|, offset + probe)
    ensures (|part| < offset + probe) == (|all| < offset + probe)
  {
  }

  /**
   The parallel scan with trimming and retries is the serial windowed scan:
   which files took the retry shows nowhere in the result.
   */
  method PagedScan<E(==)>(content: bool, singleFile: bool, offset: nat, probe: nat, files: seq<FileCase<E>>)
    returns (reducer: PageReducer<E>)
    requires probe >= 1 && Sized(content, files)
    ensures reducer.failure.None? ==>
              && reducer.results == Slice(AllOf(files), offset, probe)
              && reducer.totalEntriesSeen == Min(|AllOf(files)|, offset + probe)
              && reducer.scanComplete == (|AllOf(files)| < offset + probe)
    ensures reducer.failure.Some? <==> exists k: nat :: FailsAt(files, singleFile, offset, probe, k)
    ensures reducer.failure.Some? ==>
              (exists k: nat :: FailsAt(files, singleFile, offset, probe, k) && Fails(files[k], singleFile, reducer.failure.value))
  {
    hide Slice, FatalMessage, Contribution, Fails;
    reducer := new PageReducer(content, singleFile, offset, probe);
    var more := true;
    var k := 0;
    while k < |files| && more
      invariant fresh(reducer) && k <= |files|
      invariant reducer.content == content && reducer.singleFile == singleFile
      invariant reducer.offset == offset && reducer.probe == probe
      invariant more == (reducer.failure.None? && reducer.scanComplete)
      invariant reducer.failure.None? ==> reducer.Valid() && reducer.all == AllOf(files[..k])
      invariant reducer.failure.None? ==> forall j, message :: 0 <= j < k ==> !Fails(files[j], singleFile, message)
      invariant reducer.failure.Some? ==>
                  k > 0 && FailsAt(files, singleFile, offset, probe, k - 1)
                  && Fails(files[k - 1], singleFile, reducer.failure.value)
    {
      assert files[..k + 1][..k] == files[..k];
      AllOfPrefix(files, k + 1);
      FailsIsFatal(files[k], singleFile);
      more := reducer.Reduce(files[k]);
      k := k + 1;
    }
    if reducer.failure.None? {
      assert files[..|files|] == files;
      AllOfPrefix(files, k);
      SliceOfPrefix(AllOf(files[..k]), AllOf(files), offset, probe);
      forall j: nat ensures !FailsAt(files, singleFile, offset, probe, j) {
        if k <= j && FailsAt(files, singleFile, offset, probe, j) {
          FailsEarly(files, singleFile, offset, probe, k, j);
        }
      }
    }
  }

  /** Up to the file that fails, the page is not full. */
  lemma FailsEarly<E>(files: seq<FileCase<E>>, singleFile: bool, offset: nat, probe: nat, k: nat, j: nat)
    requires FailsAt(files, singleFile, offset, probe, j) && k <= j
    ensures k < |files| && |AllOf(files[..k])| < offset + probe
  {
    AllOfPrefix(files[..j], k);
    assert files[..j][..k] == files[..k];
  }

  // ----- terminal notes and continuation

  /** The note below a page, by its meaning. */
  datatype Terminal =
    | Partial(first: nat, shown: nat, next: nat)
    | AllShown(total: nat)
    | EndOfResults(first: nat, shown: nat)

  /** `paged_terminal` and `count_terminal`. */
  function PagedTerminal(offset: nat, shown: nat, hasMore: bool, total: nat): Terminal {
    if hasMore then Partial(offset + 1, shown, offset + shown)
    else if offset == 0 then AllShown(total)
    else EndOfResults(offset + 1, shown)
  }

  /** `glob_terminal`, which knows the total. */
  function GlobTerminal(offset: nat, shown: nat, total: nat): Terminal {
    if offset + shown < total then Partial(offset + 1, shown, offset + shown)
    else if offset == 0 then AllShown(total)
    else EndOfResults(offset + 1, shown)
  }

  /** What the scan hands to the formatter. */
  datatype PageView<E> = PageView(results: seq<E>, totalEntriesSeen: nat, scanComplete: bool)

  /** The page that is scanned for at most `head` entries; the probe is one more, saturating. */
  function PageOf<E>(all: seq<E>, offset: nat, head: nat): PageView<E> {
    var probe := SaturatingAdd(head, 1);
    PageView(Slice(all, offset, probe), Min(|all|, offset + probe), |all| < offset + probe)
  }

  /** The formatter's `has_more`. */
  function HasMore<E>(page: PageView<E>, shown: nat): bool {
    shown < |page.results| || !page.scanComplete
  }

  /** A full page of the whole first `WORD_MAX` entries, with no probe left to see whether more follow. */
  predicate Blind(total: nat, offset: nat, head: nat, shown: nat) {
    head == WORD_MAX && offset == 0 && total == WORD_MAX && shown == WORD_MAX
  }

  /**
   The note of a page with `shown` of at most `head` entries: it says "partial"
   exactly when an entry lies beyond, and a stated total is the true total. The
   one exception is the blind page, which says "partial" of a complete list.
   */
  lemma {:induction false} TerminalIsTruthful<E>(all: seq<E>, offset: nat, head: nat, shown: nat)
    requires |all| <= WORD_MAX && head <= WORD_MAX && offset < |all|
    requires 1 <= shown <= Min(head, |PageOf(all, offset, head).results|)
    ensures var page := PageOf(all, offset, head);
      && (HasMore(page, shown) == (offset + shown < |all|) <==> !Blind(|all|, offset, head, shown))
      && (Blind(|all|, offset, head, shown) ==> HasMore(page, shown))
      && (PagedTerminal(offset, shown, HasMore(page, shown), page.totalEntriesSeen) == GlobTerminal(offset, shown, |all|)
          <==> !Blind(|all|, offset, head, shown))
      && page.results[..shown] == all[offset..offset + shown]
  {
    SliceLength(all, offset, SaturatingAdd(head, 1));
  }

  /** The exception is real: any list of `WORD_MAX` entries, all shown, is called partial. */
  lemma BlindPageSaysPartial<E>(all: seq<E>)
    requires |all| == WORD_MAX
    ensures var page := PageOf(all, 0, WORD_MAX);
      && page.results == all
      && PagedTerminal(0, WORD_MAX, HasMore(page, WORD_MAX), page.totalEntriesSeen) == Partial(1, WORD_MAX, |all|)
  {
    SliceLength(all, 0, WORD_MAX);
  }

  /** An incomplete scan holds one entry more than can be shown, if the head limit leaves room for one. */
  lemma {:induction false} IncompleteHoldsOneMore<E>(all: seq<E>, offset: nat, head: nat)
    requires |all| <= WORD_MAX && head <= WORD_MAX
    ensures !PageOf(all, offset, head).scanComplete <==> |PageOf(all, offset, head).results| == SaturatingAdd(head, 1)
    ensures !PageOf(all, offset, head).scanComplete ==>
              (|PageOf(all, offset, head).results| == head + 1 <==> head < WORD_MAX)
    ensures PageOf(all, offset, head).results == [] ==>
              PageOf(all, offset, head).scanComplete && PageOf(all, offset, head).totalEntriesSeen == |all|
  {
    SliceLength(all, offset, SaturatingAdd(head, 1));
  }

  /** How many entries the page at an offset shows, when none is refused for its budget. */
  ghost predicate Shows(total: nat, head: nat, fit: nat -> nat) {
    forall offset: nat :: offset < total ==> 1 <= fit(offset) <= head && offset + fit(offset) <= total
  }

  /**
   Following the continuation offsets from 0 ends, and shows every entry exactly
   once, in order. Only a blind page leads on to a page that holds nothing.
   */
  method FollowPages<E>(all: seq<E>, head: nat, fit: nat -> nat) returns (shownAll: seq<E>, emptyPage: bool)
    requires |all| <= WORD_MAX && head <= WORD_MAX
    requires all != [] && head >= 1 && Shows(|all|, head, fit)
    ensures shownAll == all
    ensures emptyPage <==> Blind(|all|, 0, head, fit(0))
  {
    hide Slice;
    var offset := 0;
    shownAll, emptyPage := [], false;
    while true
      invariant offset <= |all| && shownAll == all[..offset]
      invariant offset == |all| <==> offset != 0 && Blind(|all|, 0, head, fit(0))
      invariant !emptyPage
      invariant Blind(|all|, 0, head, fit(0)) ==> offset == 0 || offset == |all|
      decreases |all| - offset
    {
      var page := PageOf(all, offset, head);
      SliceLength(all, offset, SaturatingAdd(head, 1));
      if page.results == [] {
        emptyPage := true;
        break;
      }
      var shown := fit(offset);
      TerminalIsTruthful(all, offset, head, shown);
      shownAll := shownAll + page.results[..shown];
      match PagedTerminal(offset, shown, HasMore(page, shown), page.totalEntriesSeen) {
        case Partial(_, _, next) => offset := next;
        case _ => break;
      }
    }
  }

  // ----- how many entries a page may hold

  /** The head limit that a token budget implies. */
  function EffectiveHead(headLimit: nat, budget: nat): nat {
    var byBudget := Max(SaturatingAdd(SaturatingMul4(budget), 1), 1);
    if headLimit == 0 then byBudget else Min(headLimit, byBudget)
  }

  function SaturatingMul4(n: nat): nat {
    if 4 * n <= WORD_MAX then 4 * n else WORD_MAX
  }

  /** Four entries and one more per token of the budget, never more than asked for, as far as the word reaches. */
  lemma HeadLimitIs(headLimit: nat, budget: nat)
    requires headLimit <= WORD_MAX
    ensures var byBudget := if 4 * budget + 1 < 0xFFFF_FFFF_FFFF_FFFF then 4 * budget + 1 else 0xFFFF_FFFF_FFFF_FFFF;
      EffectiveHead(headLimit, budget) == if 1 <= headLimit <= byBudget then headLimit else byBudget
  {
  }

  /** No word-sized limit asks for fewer entries: none was given, or the largest there is. */
  predicate Unlimited(headLimit: nat) {
    headLimit == 0 || headLimit == WORD_MAX
  }

  /**
   The probe is one beyond the head limit, unless no limit below the word size
   was asked for and the budget's own limit fills the word.
   */
  lemma ProbeIsOneBeyond(headLimit: nat, budget: nat)
    requires headLimit <= WORD_MAX && budget <= WORD_MAX
    ensures 1 <= EffectiveHead(headLimit, budget) <= WORD_MAX
    ensures headLimit > 0 ==> EffectiveHead(headLimit, budget) <= headLimit
    ensures SaturatingAdd(EffectiveHead(headLimit, budget), 1) == EffectiveHead(headLimit, budget) + 1 <==>
            !(Unlimited(headLimit) && 4 * budget + 1 >= WORD_MAX)
  {
  }

  /** A budget of a quarter of the word, with no head limit, leaves no room for the probe. */
  lemma ProbeCanMeetTheLimit()
    ensures var head := EffectiveHead(0, 0x4000_0000_0000_0000);
      && head == WORD_MAX && SaturatingAdd(head, 1) == head
    ensures EffectiveHead(0, 0x3FFF_FFFF_FFFF_FFFF) < WORD_MAX
  {
  }

  /** A blind page needs exactly such a request: for every other one, every note is truthful. */
  lemma {:induction false} NotesAreTruthful<E>(all: seq<E>, offset: nat, headLimit: nat, budget: nat, shown: nat)
    requires |all| <= WORD_MAX && headLimit <= WORD_MAX && budget <= WORD_MAX && offset < |all|
    requires var head := EffectiveHead(headLimit, budget);
      1 <= shown <= Min(head, |PageOf(all, offset, head).results|)
    ensures var head := EffectiveHead(headLimit, budget);
      var page := PageOf(all, offset, head);
      PagedTerminal(offset, shown, HasMore(page, shown), page.totalEntriesSeen) == GlobTerminal(offset, shown, |all|)
      <==> !(Unlimited(headLimit) && 4 * budget + 1 >= WORD_MAX && offset == 0 && shown == |all| == WORD_MAX)
  {
    hide PageOf, HasMore, PagedTerminal, GlobTerminal;
    ProbeIsOneBeyond(headLimit, budget);
    TerminalIsTruthful(all, offset, EffectiveHead(headLimit, budget), shown);
  }
}

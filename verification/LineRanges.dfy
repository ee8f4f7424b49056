/**
 Sets of line numbers kept as ascending, separated ranges: the merged context
 ranges of `grep_tool.rs` and the selected intervals of `grep_sink.rs`, with
 their two ways of asking for membership.
 */
module LineRanges {
  import opened Wrappers
  import opened StableSorting

  /** Both ends included. */
  datatype Range = Range(start: nat, end: nat)

  predicate InRange(range: Range, line: nat) {
    range.start <= line <= range.end
  }

  /** Some range of the list holds the line. */
  ghost predicate Covered(ranges: seq<Range>, line: nat) {
    exists k :: 0 <= k < |ranges| && InRange(ranges[k], line)
  }

  ghost predicate Proper(ranges: seq<Range>) {
    forall k :: 0 <= k < |ranges| ==> ranges[k].start <= ranges[k].end < WORD_MAX
  }

  /** Ascending, with at least one line between neighbours. */
  ghost predicate Separated(ranges: seq<Range>) {
    && Proper(ranges)
    && (forall j, k :: 0 <= j < k < |ranges| ==> ranges[j].end + 1 < ranges[k].start)
  }

  /** A range that starts no earlier than the last one is absorbed or appended. */
  function Extended(ranges: seq<Range>, range: Range): seq<Range> {
    if ranges != [] && range.start <= SaturatingAdd(ranges[|ranges| - 1].end, 1) then
      var last := ranges[|ranges| - 1];
      ranges[..|ranges| - 1] + [Range(last.start, Max(last.end, range.end))]
    else
      ranges + [range]
  }

  /** Extending in order of starts keeps the list separated and adds exactly the new lines. */
  lemma {:induction false} ExtendedCovers(ranges: seq<Range>, range: Range)
    requires Separated(ranges) && Proper([range])
    requires ranges != [] ==> ranges[|ranges| - 1].start <= range.start
    ensures Separated(Extended(ranges, range)) && Extended(ranges, range) != []
    ensures Extended(ranges, range)[|Extended(ranges, range)| - 1].start <= range.start
    ensures forall line :: Covered(Extended(ranges, range), line) <==> Covered(ranges, line) || InRange(range, line)
  {
    var after := Extended(ranges, range);
    assert [range][0] == range;
    var n := |ranges| - 1;
    forall line ensures Covered(after, line) <==> Covered(ranges, line) || InRange(range, line) {
      if |after| == |ranges| {
        if Covered(after, line) {
          var k :| 0 <= k < |after| && InRange(after[k], line);
          if k < n { assert InRange(ranges[k], line); } else { assert InRange(ranges[n], line) || InRange(range, line); }
        }
        if Covered(ranges, line) {
          var k :| 0 <= k < |ranges| && InRange(ranges[k], line);
          assert InRange(after[k], line);
        }
        if InRange(range, line) { assert InRange(after[n], line); }
      } else {
        if Covered(after, line) {
          var k :| 0 <= k < |after| && InRange(after[k], line);
          if k <= n { assert InRange(ranges[k], line); }
        }
        if Covered(ranges, line) {
          var k :| 0 <= k < |ranges| && InRange(ranges[k], line);
          assert InRange(after[k], line);
        }
        if InRange(range, line) { assert InRange(after[n + 1], line); }
      }
    }
  }

  /** At most one range of a separated list can hold a line: the first that does not end before it. */
  lemma {:induction false} FirstCandidateDecides(ranges: seq<Range>, index: nat, line: nat)
    requires Separated(ranges) && index <= |ranges|
    requires forall k :: 0 <= k < index ==> ranges[k].end < line
    requires index < |ranges| ==> ranges[index].end >= line
    ensures Covered(ranges, line) <==> index < |ranges| && InRange(ranges[index], line)
  {
    assert forall k :: index < k < |ranges| ==> ranges[index].end + 1 < ranges[k].start;
  }

  // ----- merged context ranges

  function CompareRanges(a: Range, b: Range): Ordering {
    if a.start < b.start || (a.start == b.start && a.end < b.end) then Less
    else if a == b then Equal
    else Greater
  }

  /** Sorts, then absorbs overlapping and adjacent ranges: the same lines, as few ranges as possible. */
  method MergeRanges(ranges: seq<Range>) returns (merged: seq<Range>)
    requires Proper(ranges)
    ensures Separated(merged)
    ensures forall line :: Covered(merged, line) <==> Covered(ranges, line)
  {
    var sorted := StableSort(CompareRanges, ranges);
    SortedRanges(ranges);
    merged := [];
    for k := 0 to |sorted|
      invariant Separated(merged)
      invariant k == 0 <==> merged == []
      invariant k > 0 ==> merged[|merged| - 1].start <= sorted[k - 1].start
      invariant forall line :: Covered(merged, line) <==> Covered(sorted[..k], line)
    {
      assert Proper([sorted[k]]);
      ExtendedCovers(merged, sorted[k]);
      CoveredNext(sorted, k);
      merged := Extended(merged, sorted[k]);
    }
    assert sorted[..|sorted|] == sorted;
  }

  lemma CoveredNext(ranges: seq<Range>, k: nat)
    requires k < |ranges|
    ensures forall line :: Covered(ranges[..k + 1], line) <==> Covered(ranges[..k], line) || InRange(ranges[k], line)
  {
    var before, after := ranges[..k], ranges[..k + 1];
    forall line ensures Covered(after, line) <==> Covered(before, line) || InRange(ranges[k], line) {
      if Covered(after, line) {
        var j :| 0 <= j < |after| && InRange(after[j], line);
        if j < k { assert InRange(before[j], line); }
      }
      if Covered(before, line) {
        var j :| 0 <= j < |before| && InRange(before[j], line);
        assert InRange(after[j], line);
      }
      if InRange(ranges[k], line) { assert InRange(after[k], line); }
    }
  }

  lemma SortedRanges(ranges: seq<Range>)
    requires Proper(ranges)
    ensures var sorted := StableSort(CompareRanges, ranges);
      && Proper(sorted)
      && (forall j, k :: 0 <= j < k < |sorted| ==> sorted[j].start <= sorted[k].start)
      && (forall line :: Covered(sorted, line) <==> Covered(ranges, line))
  {
    var sorted := StableSort(CompareRanges, ranges);
    StableSortIsStable(CompareRanges, ranges);
    var order :| Sorts(CompareRanges, ranges, order) && sorted == Select(ranges, order);
    forall j, k | 0 <= j < k < |sorted| ensures sorted[j].start <= sorted[k].start {
      assert Before(CompareRanges, ranges, order[j], order[k]);
    }
    forall line ensures Covered(sorted, line) <==> Covered(ranges, line) {
      if Covered(sorted, line) {
        var k :| 0 <= k < |sorted| && InRange(sorted[k], line);
        assert InRange(ranges[order[k]], line);
      }
      if Covered(ranges, line) {
        var i :| 0 <= i < |ranges| && InRange(ranges[i], line);
        var k := IndexIn(order, i);
        assert InRange(sorted[k], line);
      }
    }
  }

  /** `partition_point` by end, then one test. */
  method RangesContain(ranges: seq<Range>, line: nat) returns (contained: bool)
    requires Separated(ranges)
    ensures contained <==> Covered(ranges, line)
  {
    var low, high := 0, |ranges|;
    while low < high
      invariant low <= high <= |ranges|
      invariant forall k :: 0 <= k < low ==> ranges[k].end < line
      invariant forall k :: high <= k < |ranges| ==> ranges[k].end >= line
    {
      var middle := (low + high) / 2;
      if ranges[middle].end < line {
        assert forall k :: 0 <= k < middle ==> ranges[k].end < ranges[middle].start;
        low := middle + 1;
      } else {
        assert forall k :: middle < k < |ranges| ==> ranges[middle].end < ranges[k].start;
        high := middle;
      }
    }
    FirstCandidateDecides(ranges, low, line);
    contained := low < |ranges| && ranges[low].start <= line <= ranges[low].end;
  }

  // ----- intervals filled and asked in ascending order

  /** `LineIntervals`: what one callback selects, asked line by line. */
  class LineIntervals {
    var ranges: seq<Range>
    /** Everything inserted so far. */
    ghost var inserted: seq<Range>

    ghost predicate Valid()
      reads this
    {
      && Separated(ranges)
      && (inserted == [] <==> ranges == [])
      && (inserted != [] ==> ranges[|ranges| - 1].start <= inserted[|inserted| - 1].start)
      && (forall line :: Covered(ranges, line) <==> Covered(inserted, line))
    }

    constructor ()
      ensures Valid() && inserted == []
    {
      ranges, inserted := [], [];
    }

    /** Matches come in order of their first line. */
    method Insert(start: nat, end: nat)
      requires Valid() && start <= end < WORD_MAX
      requires inserted != [] ==> inserted[|inserted| - 1].start <= start
      modifies this
      ensures Valid() && inserted == old(inserted) + [Range(start, end)]
    {
      var range := Range(start, end);
      ExtendedCovers(ranges, range);
      ranges := Extended(ranges, range);
      inserted := inserted + [range];
      assert inserted[..|inserted| - 1] == old(inserted) && inserted[..|inserted|] == inserted;
      CoveredNext(inserted, |inserted| - 1);
    }

    /** The cursor only moves forward; for ascending questions every answer is right. */
    method Contains(line: nat, cursor: nat) returns (contained: bool, cursor': nat)
      requires Valid() && cursor <= |ranges|
      requires forall k :: 0 <= k < cursor ==> ranges[k].end < line
      ensures contained <==> Covered(inserted, line)
      ensures cursor <= cursor' <= |ranges|
      ensures forall k :: 0 <= k < cursor' ==> ranges[k].end < line
    {
      cursor' := cursor;
      while cursor' < |ranges| && ranges[cursor'].end < line
        invariant cursor <= cursor' <= |ranges|
        invariant forall k :: 0 <= k < cursor' ==> ranges[k].end < line
      {
        cursor' := cursor' + 1;
      }
      FirstCandidateDecides(ranges, cursor', line);
      contained := cursor' < |ranges| && ranges[cursor'].start <= line <= ranges[cursor'].end;
    }
  }
}

/**
 Which logical lines a match touches, after `LineLayout` in `grep_sink.rs`:
 the lines of a callback's bytes, and a cursor that only moves forward.
 */
module LineLayouts {
  import opened Wrappers
  import opened Utf8

  const LF: Byte := 0x0A
  const CR: Byte := 0x0D

  datatype LogicalLine = LogicalLine(contentStart: nat, contentEnd: nat, fullEnd: nat)

  /** Line feeds in a byte string. */
  function Feeds(b: seq<Byte>): (n: nat)
    ensures n <= |b|
  {
    if b == [] then 0 else Feeds(b[..|b| - 1]) + (if b[|b| - 1] == LF then 1 else 0)
  }

  /** Index of the line an offset lies in; the end of the text belongs to the last line. */
  function LineOf(bytes: seq<Byte>, lineCount: nat, offset: nat): nat
    requires offset <= |bytes| && lineCount > 0
  {
    Min(Feeds(bytes[..offset]), lineCount - 1)
  }

  /** The content of a line stops before its "\n" or "\r\n". */
  predicate ContentOk(bytes: seq<Byte>, line: LogicalLine) {
    && line.contentStart <= line.contentEnd <= line.fullEnd <= |bytes|
    && 10 !in bytes[line.contentStart..line.contentEnd]
    && (bytes[line.contentEnd..line.fullEnd] in [[], [10], [13, 10]])
  }

  /** Where line `k` starts: behind the one before it. */
  function StartOf(lines: seq<LogicalLine>, k: nat): nat
    requires k <= |lines|
  {
    if k == 0 then 0 else lines[k - 1].fullEnd
  }

  lemma StartsStay(lines: seq<LogicalLine>, line: LogicalLine)
    ensures forall k :: 0 <= k <= |lines| ==> StartOf(lines + [line], k) == StartOf(lines, k)
  {
  }

  /** The lines cut the bytes in order, one feed each, the last one perhaps without. */
  ghost predicate LayoutOk(bytes: seq<Byte>, lines: seq<LogicalLine>) {
    && lines != []
    && lines[|lines| - 1].fullEnd == |bytes|
    && (forall k :: 0 <= k < |lines| ==>
          ContentOk(bytes, lines[k]) && lines[k].contentStart == StartOf(lines, k))
    && (forall k :: 0 <= k < |lines| - 1 ==> lines[k].fullEnd > 0 && Feeds(bytes[..lines[k].fullEnd]) == k + 1
                                             && bytes[lines[k].fullEnd - 1] == LF)
  }

  lemma {:induction false} FeedsOfAppend(a: seq<Byte>, b: seq<Byte>)
    ensures Feeds(a + b) == Feeds(a) + Feeds(b)
  {
    if b == [] {
      assert a + b == a;
    } else {
      assert (a + b)[..|a + b| - 1] == a + b[..|b| - 1];
      FeedsOfAppend(a, b[..|b| - 1]);
    }
  }

  lemma FeedsGrow(bytes: seq<Byte>, i: nat, j: nat)
    requires i <= j <= |bytes|
    ensures Feeds(bytes[..i]) <= Feeds(bytes[..j])
  {
    FeedsOfAppend(bytes[..i], bytes[i..j]);
    assert bytes[..j] == bytes[..i] + bytes[i..j];
  }

  lemma FeedsStep(bytes: seq<Byte>, i: nat)
    requires i < |bytes|
    ensures Feeds(bytes[..i + 1]) == Feeds(bytes[..i]) + (if bytes[i] == LF then 1 else 0)
  {
    assert bytes[..i + 1][..i] == bytes[..i];
  }

  lemma LineFeedAtEnd(bytes: seq<Byte>, lines: seq<LogicalLine>, k: nat)
    requires LayoutOk(bytes, lines) && k < |lines| - 1
    ensures 0 < lines[k].fullEnd <= |bytes|
    ensures Feeds(bytes[..lines[k].fullEnd]) == k + 1 && bytes[lines[k].fullEnd - 1] == LF
  {
    hide Feeds, StartOf;
    assert ContentOk(bytes, lines[k]);
  }

  /** Before a line's end there are fewer feeds than up to it. */
  lemma {:induction false} InsideMeansFewer(bytes: seq<Byte>, lines: seq<LogicalLine>, k: nat, offset: nat)
    requires LayoutOk(bytes, lines) && k < |lines| - 1 && offset <= |bytes|
    ensures offset < lines[k].fullEnd <==> Feeds(bytes[..offset]) <= k
  {
    hide LayoutOk, Feeds, StartOf;
    LineFeedAtEnd(bytes, lines, k);
    var end := lines[k].fullEnd;
    if offset < end {
      FeedsStep(bytes, end - 1);
      FeedsGrow(bytes, offset, end - 1);
    } else {
      FeedsGrow(bytes, end, offset);
    }
  }

  /** The lines that have ended before `index`. */
  ghost predicate Laid(bytes: seq<Byte>, lines: seq<LogicalLine>, index: nat)
    requires index <= |bytes|
  {
    && Feeds(bytes[..index]) == |lines|
    && (forall k :: 0 <= k < |lines| ==>
          ContentOk(bytes, lines[k]) && lines[k].contentStart == StartOf(lines, k))
    && (forall k :: 0 <= k < |lines| ==>
          0 < lines[k].fullEnd <= index && Feeds(bytes[..lines[k].fullEnd]) == k + 1
          && bytes[lines[k].fullEnd - 1] == LF)
  }

  lemma ClosedContent(bytes: seq<Byte>, start: nat, contentEnd: nat, index: nat)
    requires start <= index < |bytes| && bytes[index] == LF && LF !in bytes[start..index]
    requires contentEnd == if index > start && bytes[index - 1] == CR then index - 1 else index
    ensures ContentOk(bytes, LogicalLine(start, contentEnd, index + 1))
  {
    assert bytes[contentEnd..index + 1] == if contentEnd < index then [CR, LF] else [LF];
    assert forall b :: b in bytes[start..contentEnd] ==> b in bytes[start..index];
  }

  lemma LineEnds(bytes: seq<Byte>, lines: seq<LogicalLine>, index: nat, contentEnd: nat)
    requires index < |bytes| && Laid(bytes, lines, index) && bytes[index] == LF
    requires StartOf(lines, |lines|) <= index && LF !in bytes[StartOf(lines, |lines|)..index]
    requires contentEnd == if index > StartOf(lines, |lines|) && bytes[index - 1] == CR then index - 1 else index
    ensures Laid(bytes, lines + [LogicalLine(StartOf(lines, |lines|), contentEnd, index + 1)], index + 1)
  {
    hide ContentOk, Feeds, StartOf;
    var line := LogicalLine(StartOf(lines, |lines|), contentEnd, index + 1);
    ClosedContent(bytes, StartOf(lines, |lines|), contentEnd, index);
    FeedsStep(bytes, index);
    StartsStay(lines, line);
  }

  lemma LineGoesOn(bytes: seq<Byte>, lines: seq<LogicalLine>, index: nat)
    requires index < |bytes| && Laid(bytes, lines, index) && bytes[index] != LF
    requires StartOf(lines, |lines|) <= index && LF !in bytes[StartOf(lines, |lines|)..index]
    ensures Laid(bytes, lines, index + 1) && LF !in bytes[StartOf(lines, |lines|)..index + 1]
  {
    hide ContentOk, Feeds, StartOf;
    FeedsStep(bytes, index);
    var start := StartOf(lines, |lines|);
    assert bytes[start..index + 1] == bytes[start..index] + [bytes[index]];
  }

  /** A trailing line without a feed, or the one line of an empty text. */
  lemma LayoutEnds(bytes: seq<Byte>, lines: seq<LogicalLine>)
    requires Laid(bytes, lines, |bytes|)
    requires StartOf(lines, |lines|) <= |bytes| && LF !in bytes[StartOf(lines, |lines|)..]
    ensures StartOf(lines, |lines|) < |bytes| || lines == [] ==>
              LayoutOk(bytes, lines + [LogicalLine(StartOf(lines, |lines|), |bytes|, |bytes|)])
    ensures StartOf(lines, |lines|) == |bytes| && lines != [] ==> LayoutOk(bytes, lines)
  {
    hide Feeds, StartOf;
    var start := StartOf(lines, |lines|);
    var line := LogicalLine(start, |bytes|, |bytes|);
    assert bytes[start..|bytes|] == bytes[start..] && bytes[|bytes|..|bytes|] == [];
    assert ContentOk(bytes, line);
    hide ContentOk;
    StartsStay(lines, line);
    LastEnd(lines);
  }

  lemma LastEnd(lines: seq<LogicalLine>)
    ensures lines != [] ==> StartOf(lines, |lines|) == lines[|lines| - 1].fullEnd
  {
  }

  method NewLayout(bytes: seq<Byte>) returns (lines: seq<LogicalLine>)
    ensures LayoutOk(bytes, lines)
  {
    hide Laid, LayoutOk, ContentOk, Feeds;
    lines := [];
    var lineStart: nat := 0;
    assert Laid(bytes, lines, 0) by { NothingLaid(bytes); }
    for index := 0 to |bytes|
      invariant lineStart == StartOf(lines, |lines|) <= index
      invariant LF !in bytes[lineStart..index]
      invariant Laid(bytes, lines, index)
    {
      if bytes[index] == LF {
        var contentEnd := if index > lineStart && bytes[index - 1] == CR then index - 1 else index;
        LineEnds(bytes, lines, index, contentEnd);
        lines := lines + [LogicalLine(lineStart, contentEnd, index + 1)];
        lineStart := index + 1;
      } else {
        LineGoesOn(bytes, lines, index);
      }
    }
    assert bytes[lineStart..|bytes|] == bytes[lineStart..];
    LayoutEnds(bytes, lines);
    if lineStart < |bytes| || lines == [] {
      lines := lines + [LogicalLine(lineStart, |bytes|, |bytes|)];
    }
  }

  lemma NothingLaid(bytes: seq<Byte>)
    ensures Laid(bytes, [], 0)
  {
  }

  predicate OffsetIsInLine(lines: seq<LogicalLine>, index: nat, offset: nat)
    requires index < |lines|
  {
    offset < lines[index].fullEnd || (index + 1 == |lines| && offset <= lines[index].fullEnd)
  }

  /** Moves a cursor forward to the line of `offset`; it must not be past it already. */
  method Advance(ghost bytes: seq<Byte>, lines: seq<LogicalLine>, from: nat, offset: nat) returns (at: nat)
    requires LayoutOk(bytes, lines) && offset <= |bytes|
    requires from <= LineOf(bytes, |lines|, offset)
    ensures at == LineOf(bytes, |lines|, offset)
  {
    at := from;
    while at + 1 < |lines| && !OffsetIsInLine(lines, at, offset)
      invariant at < |lines| && at <= LineOf(bytes, |lines|, offset)
    {
      InsideMeansFewer(bytes, lines, at, offset);
      at := at + 1;
    }
    if at + 1 < |lines| { InsideMeansFewer(bytes, lines, at, offset); }
  }

  /** A match by its byte offsets; `last` is the offset of its last byte, or of an empty match itself. */
  datatype Match = Match(start: nat, end: nat)

  function LastOffset(found: Match): nat {
    if found.end > found.start then found.end - 1 else found.start
  }

  class OccurrenceCursor {
    var start: nat
    var end: nat

    constructor ()
      ensures start == 0 && end == 0
    {
      start, end := 0, 0;
    }

    /** Neither cursor is past the lines of the match that comes next. */
    ghost predicate Behind(bytes: seq<Byte>, lineCount: nat, found: Match)
      reads this
      requires found.start <= found.end <= |bytes| && lineCount > 0
    {
      && start <= LineOf(bytes, lineCount, found.start)
      && end <= LineOf(bytes, lineCount, LastOffset(found))
    }

    /** The first and last line of a match. */
    method Locate(ghost bytes: seq<Byte>, lines: seq<LogicalLine>, found: Match) returns (startIndex: nat, endIndex: nat)
      requires LayoutOk(bytes, lines) && found.start <= found.end <= |bytes|
      requires Behind(bytes, |lines|, found)
      modifies this
      ensures startIndex == LineOf(bytes, |lines|, found.start) && endIndex == LineOf(bytes, |lines|, LastOffset(found))
      ensures startIndex <= endIndex && start == startIndex && end == endIndex
    {
      FeedsGrow(bytes, found.start, LastOffset(found));
      start := Advance(bytes, lines, start, found.start);
      end := Max(end, start);
      end := Advance(bytes, lines, end, LastOffset(found));
      return start, end;
    }
  }

  /** Matches as a searcher reports them: in order, none starting before the previous one ends. */
  ghost predicate InOrder(bytes: seq<Byte>, found: seq<Match>) {
    && (forall k :: 0 <= k < |found| ==> found[k].start <= found[k].end <= |bytes|)
    && (forall j, k :: 0 <= j < k < |found| ==> found[j].end <= found[k].start)
  }

  /** A match lies on these lines: that of its first byte, and that of its last or, if it is empty, the same. */
  ghost predicate LiesOn(bytes: seq<Byte>, lineCount: nat, found: Match, at: (nat, nat))
    requires found.start <= found.end <= |bytes| && lineCount > 0
  {
    && at.0 == LineOf(bytes, lineCount, found.start)
    && at.1 == LineOf(bytes, lineCount, if found.start < found.end then found.end - 1 else found.start)
  }

  lemma NotPastNext(bytes: seq<Byte>, lineCount: nat, before: Match, next: Match, at: (nat, nat))
    requires before.start <= before.end <= next.start <= next.end <= |bytes| && lineCount > 0
    requires LiesOn(bytes, lineCount, before, at)
    ensures at.0 <= LineOf(bytes, lineCount, next.start) && at.1 <= LineOf(bytes, lineCount, LastOffset(next))
  {
    hide Feeds;
    FeedsGrow(bytes, before.start, next.start);
    FeedsGrow(bytes, LastOffset(before), LastOffset(next));
  }

  /** Every match of a callback is located right, although the cursors never move back. */
  method LocateAll(bytes: seq<Byte>, found: seq<Match>) returns (lines: seq<LogicalLine>, located: seq<(nat, nat)>)
    requires InOrder(bytes, found)
    ensures LayoutOk(bytes, lines) && |located| == |found|
    ensures forall k :: 0 <= k < |found| ==> LiesOn(bytes, |lines|, found[k], located[k])
  {
    hide Feeds;
    lines := NewLayout(bytes);
    assert lines != [];
    hide LayoutOk, LineOf;
    var cursor := new OccurrenceCursor();
    located := [];
    for k := 0 to |found|
      invariant fresh(cursor) && |located| == k
      invariant forall j :: 0 <= j < k ==> LiesOn(bytes, |lines|, found[j], located[j])
      invariant k == 0 ==> cursor.start == 0 && cursor.end == 0
      invariant k > 0 ==> (cursor.start, cursor.end) == located[k - 1]
    {
      if k > 0 { NotPastNext(bytes, |lines|, found[k - 1], found[k], located[k - 1]); }
      var a, b := cursor.Locate(bytes, lines, found[k]);
      located := located + [(a, b)];
    }
  }
}

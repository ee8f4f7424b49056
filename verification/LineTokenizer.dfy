/**
 When text may be counted in parts: what a tokenizer does with blanks between
 line feeds, said of the characters a caller can see. A law describes such
 tokenizers, and a family of concrete ones, one per classification of the
 characters, shows that it can be met.
 */
module LineTokenizers {
  import opened Wrappers
  import opened TokenCounter

  /** Blanks, and the characters that take the line feeds behind them into their own piece. */
  datatype Classes = Classes(blank: char -> bool, takes: char -> bool)

  predicate IsFeed(c: char) {
    c == '\n' || c == '\r'
  }

  predicate IsSpace(cl: Classes, c: char) {
    cl.blank(c) || IsFeed(c)
  }

  /** No character is of two kinds. */
  ghost predicate Proper(cl: Classes) {
    && (forall c :: cl.blank(c) ==> !IsFeed(c))
    && (forall c :: cl.takes(c) ==> !IsSpace(cl, c))
  }

  /** The feed at `i` belongs to the text before it. */
  predicate Taken(cl: Classes, text: string, i: nat)
    requires i < |text|
  {
    i > 0 && (cl.takes(text[i - 1]) || (IsFeed(text[i - 1]) && Taken(cl, text, i - 1)))
  }

  /** Between `i` and `j` there are blanks only, at least one, behind a feed that nothing took. */
  predicate BlankLine(cl: Classes, text: string, i: nat, j: nat) {
    i + 1 < j <= |text| && IsFeed(text[i]) && !Taken(cl, text, i) && forall k :: i < k < j ==> cl.blank(text[k])
  }

  /** The text ends in such a line. */
  predicate Reopens(cl: Classes, text: string) {
    exists i :: 0 <= i < |text| && BlankLine(cl, text, i, |text|)
  }

  /** A line of blanks behind another line is followed by a line feed. */
  predicate HasBlankLine(cl: Classes, text: string) {
    exists i, j :: 0 <= i < j < |text| && BlankLine(cl, text, i, j) && text[j] == '\n'
  }

  /** One side of the cut is empty or has a line feed next to it. */
  predicate AtBreak(s: string, t: string) {
    s == "" || t == "" || s[|s| - 1] == '\n' || t[0] == '\n'
  }

  predicate BadCut(cl: Classes, s: string, t: string) {
    Reopens(cl, s) && t != "" && t[0] == '\n'
  }

  /** At a break, a cut is bad exactly if it parts a line of blanks behind another line from its line feed. */
  ghost predicate BlankLineLaw(tok: Tokenizer, cl: Classes) {
    forall s, t :: AtBreak(s, t) ==> (Cut(tok, s, t) <==> !BadCut(cl, s, t))
  }

  lemma {:induction false} TakenInPrefix(cl: Classes, text: string, j: nat, i: nat)
    requires i < j <= |text|
    ensures Taken(cl, text[..j], i) == Taken(cl, text, i)
  {
    if i > 0 { TakenInPrefix(cl, text, j, i - 1); }
  }

  lemma BlankLineInPrefix(cl: Classes, text: string, i: nat, j: nat)
    requires j <= |text|
    ensures BlankLine(cl, text[..j], i, j) <==> BlankLine(cl, text, i, j)
  {
    if i < j { TakenInPrefix(cl, text, j, i); }
  }

  /** A text may be counted in parts if and only if no line of blanks behind another line is followed by a line feed. */
  lemma {:induction false} CutsWellIff(tok: Tokenizer, cl: Classes, text: string)
    requires BlankLineLaw(tok, cl)
    ensures CutsWell(tok, text) <==> !HasBlankLine(cl, text)
  {
    if HasBlankLine(cl, text) {
      var i, j :| 0 <= i < j < |text| && BlankLine(cl, text, i, j) && text[j] == '\n';
      BlankLineInPrefix(cl, text, i, j);
      assert BadCut(cl, text[..j], text[j..j + 1]);
      assert IsBreak(text, j) && IsBreak(text, j + 1);
      assert AtBreak(text[..j], text[j..j + 1]);
      hide Cut, BadCut;
    } else {
      hide Cut, BlankLine, BlankLineLaw;
      forall i: nat, j: nat | i <= j && IsBreak(text, i) && IsBreak(text, j) ensures Cut(tok, text[..i], text[i..j]) {
        GoodCut(cl, text, i, j);
        LawAt(tok, cl, text[..i], text[i..j]);
      }
    }
  }

  lemma LawAt(tok: Tokenizer, cl: Classes, s: string, t: string)
    requires BlankLineLaw(tok, cl) && AtBreak(s, t)
    ensures Cut(tok, s, t) <==> !BadCut(cl, s, t)
  {
  }

  lemma GoodCut(cl: Classes, text: string, i: nat, j: nat)
    requires !HasBlankLine(cl, text) && i <= j && IsBreak(text, i) && IsBreak(text, j)
    ensures AtBreak(text[..i], text[i..j]) && !BadCut(cl, text[..i], text[i..j])
  {
    hide BlankLine;
    if BadCut(cl, text[..i], text[i..j]) {
      var k :| 0 <= k < i && BlankLine(cl, text[..i], k, i);
      BlankLineInPrefix(cl, text, k, i);
    }
  }

  // ----- tokenizers that obey the law

  function End(piece: string): char
    requires piece != ""
  {
    piece[|piece| - 1]
  }

  /** A piece of spaces that ends in a feed. */
  predicate Loose(cl: Classes, piece: string) {
    piece != "" && IsSpace(cl, piece[0]) && IsFeed(End(piece))
  }

  /** A feed joins a piece of blanks to the loose piece before it. */
  predicate Joins(cl: Classes, pieces: seq<string>, c: char) {
    && IsFeed(c) && |pieces| >= 2 && Last(pieces) != ""
    && cl.blank(End(Last(pieces))) && Loose(cl, pieces[|pieces| - 2])
  }

  /** The last piece takes one more character. */
  predicate Extends(cl: Classes, piece: string, c: char) {
    && piece != ""
    && (if IsFeed(c) then IsSpace(cl, End(piece)) || cl.takes(End(piece))
        else if cl.blank(c) then cl.blank(End(piece))
        else !IsSpace(cl, End(piece)))
  }

  function Grown(cl: Classes, pieces: seq<string>, c: char): seq<string> {
    if Joins(cl, pieces, c) then Init(Init(pieces)) + [Last(Init(pieces)) + Last(pieces) + [c]]
    else if pieces != [] && Extends(cl, Last(pieces), c) then Init(pieces) + [Last(pieces) + [c]]
    else pieces + [[c]]
  }

  /** Words with the feeds they take, blanks, and spaces up to their last feed. */
  function Pieces(cl: Classes, text: string): seq<string> {
    if text == "" then [] else Grown(cl, Pieces(cl, Init(text)), Last(text))
  }

  function LineTokenizer(cl: Classes, count: string -> nat): Tokenizer {
    Tokenizer((text: string) => Pieces(cl, text), count, (text: string) => text)
  }

  lemma PiecesNext(cl: Classes, text: string, c: char)
    ensures Pieces(cl, text + [c]) == Grown(cl, Pieces(cl, text), c)
  {
    assert Init(text + [c]) == text;
  }

  // ----- splitting loses nothing

  lemma {:induction false} FlatOfAppend(a: seq<string>, b: seq<string>)
    ensures Flat(a + b) == Flat(a) + Flat(b)
  {
    if a == [] {
      assert a + b == b;
    } else {
      assert (a + b)[1..] == a[1..] + b;
      FlatOfAppend(a[1..], b);
    }
  }

  lemma FlatOne(piece: string)
    ensures Flat([piece]) == piece
  {
    assert [piece][1..] == [] && piece + "" == piece;
  }

  lemma FlatLast(pieces: seq<string>)
    requires pieces != []
    ensures Flat(pieces) == Flat(Init(pieces)) + Last(pieces)
  {
    assert pieces == Init(pieces) + [Last(pieces)];
    FlatOfAppend(Init(pieces), [Last(pieces)]);
    FlatOne(Last(pieces));
  }

  lemma GrownFlat(cl: Classes, pieces: seq<string>, c: char)
    ensures Flat(Grown(cl, pieces, c)) == Flat(pieces) + [c]
  {
    var grown := Grown(cl, pieces, c);
    FlatLast(grown);
    if pieces != [] { FlatLast(pieces); }
    if Joins(cl, pieces, c) { FlatLast(Init(pieces)); }
    assert pieces == [] ==> Flat(pieces) == "";
    hide Flat, Joins, Extends;
  }

  lemma {:induction false} PiecesFlat(cl: Classes, text: string)
    ensures Flat(Pieces(cl, text)) == text
  {
    if text != "" {
      PiecesFlat(cl, Init(text));
      GrownFlat(cl, Pieces(cl, Init(text)), Last(text));
      assert text == Init(text) + [Last(text)];
    }
  }

  // ----- how the pieces of a text end

  lemma ReopensNext(cl: Classes, text: string, c: char)
    requires Proper(cl) && cl.blank(c)
    ensures Reopens(cl, text + [c]) <==>
            text != "" && (if cl.blank(Last(text)) then Reopens(cl, text) else IsFeed(Last(text)) && !Taken(cl, text, |text| - 1))
  {
    var next := text + [c];
    forall i: nat | i < |text| ensures BlankLine(cl, next, i, |next|) <==>
        IsFeed(text[i]) && !Taken(cl, text, i) && forall k :: i < k < |text| ==> cl.blank(text[k])
    {
      assert next[..|text|] == text;
      TakenInPrefix(cl, next, |text|, i);
      assert forall k :: i < k < |text| ==> next[k] == text[k];
    }
    hide Taken;
    if text != "" && !cl.blank(Last(text)) && IsFeed(Last(text)) && !Taken(cl, text, |text| - 1) {
      assert BlankLine(cl, next, |text| - 1, |next|);
    }
    if text != "" && cl.blank(Last(text)) && Reopens(cl, text) {
      var i: nat :| i < |text| && BlankLine(cl, text, i, |text|);
      assert BlankLine(cl, next, i, |next|);
    }
    if Reopens(cl, next) {
      var i: nat :| i < |next| && BlankLine(cl, next, i, |next|);
      assert i < |text|;
      assert cl.blank(Last(text)) ==> BlankLine(cl, text, i, |text|);
      assert !cl.blank(Last(text)) ==> i == |text| - 1;
    }
  }

  /** The last pieces tell how a text ends. */
  ghost predicate EndsAs(cl: Classes, text: string, pieces: seq<string>)
    requires text != ""
  {
    && pieces != [] && Last(pieces) != "" && End(Last(pieces)) == Last(text)
    && (cl.blank(Last(text)) ==> IsSpace(cl, Last(pieces)[0]))
    && (!IsSpace(cl, Last(text)) ==> !IsSpace(cl, Last(pieces)[0]))
    && (IsFeed(Last(text)) ==> (IsSpace(cl, Last(pieces)[0]) <==> !Taken(cl, text, |text| - 1)))
    && (cl.blank(Last(text)) ==> (|pieces| >= 2 && Loose(cl, pieces[|pieces| - 2]) <==> Reopens(cl, text)))
  }

  lemma {:induction false} PiecesEnd(cl: Classes, text: string)
    requires Proper(cl) && text != ""
    ensures EndsAs(cl, text, Pieces(cl, text))
  {
    var before, c := Init(text), Last(text);
    assert text == before + [c];
    if before != "" {
      PiecesEnd(cl, before);
      TakenInPrefix(cl, text, |before|, |before| - 1);
    }
    if cl.blank(c) { ReopensNext(cl, before, c); }
    EndingGrows(cl, before, Pieces(cl, before), c);
  }

  lemma EndingGrows(cl: Classes, before: string, pieces: seq<string>, c: char)
    requires Proper(cl) && (if before == "" then pieces == [] else EndsAs(cl, before, pieces))
    requires before != "" ==> Taken(cl, before + [c], |before| - 1) == Taken(cl, before, |before| - 1)
    requires cl.blank(c) ==>
               (Reopens(cl, before + [c]) <==>
                before != "" && (if cl.blank(Last(before)) then Reopens(cl, before)
                                 else IsFeed(Last(before)) && !Taken(cl, before, |before| - 1)))
    ensures EndsAs(cl, before + [c], Grown(cl, pieces, c))
  {
    hide Reopens;
    assert Last(before + [c]) == c;
  }

  /** Growing looks no further back than the last two pieces. */
  lemma GrownBehind(cl: Classes, p: seq<string>, q: seq<string>, c: char)
    requires q != [] && (|q| >= 2 || !Joins(cl, p + q, c))
    ensures Grown(cl, p + q, c) == p + Grown(cl, q, c)
  {
    assert Last(p + q) == Last(q) && Init(p + q) == p + Init(q);
    if |q| >= 2 { assert (p + q)[|p + q| - 2] == q[|q| - 2] && Init(p + Init(q)) == p + Init(Init(q)); }
    hide Extends, Loose;
  }

  /** The pieces from any place on are the pieces of their own text. */
  lemma {:induction false} PiecesOfSuffix(cl: Classes, text: string, k: nat)
    requires k <= |Pieces(cl, text)|
    ensures Pieces(cl, Flat(Pieces(cl, text)[k..])) == Pieces(cl, text)[k..]
  {
    var pieces := Pieces(cl, text);
    if k == |pieces| {
      assert pieces[k..] == [];
    } else {
      var before, c := Pieces(cl, Init(text)), Last(text);
      var p, q := before[..Min(k, |before|)], before[Min(k, |before|)..];
      assert before == p + q;
      if q == [] {
        assert pieces[k..] == [[c]] && Pieces(cl, [c]) == Grown(cl, [], c);
        FlatOne([c]);
      } else {
        PiecesOfSuffix(cl, Init(text), k);
        assert |q| >= 2 || !Joins(cl, p + q, c);
        GrownBehind(cl, p, q, c);
        assert pieces[k..] == Grown(cl, q, c);
        GrownFlat(cl, q, c);
        PiecesNext(cl, Flat(q), c);
      }
    }
  }

  lemma LastAlone(cl: Classes, text: string)
    requires text != ""
    ensures Pieces(cl, text) != [] && Pieces(cl, Last(Pieces(cl, text))) == [Last(Pieces(cl, text))]
  {
    var pieces := Pieces(cl, text);
    PiecesFlat(cl, text);
    assert pieces != [];
    PiecesOfSuffix(cl, text, |pieces| - 1);
    assert pieces[|pieces| - 1..] == [Last(pieces)];
    FlatOne(Last(pieces));
  }

  // ----- good cuts

  /** The first character behind a good cut joins nothing, and does not go on with blanks. */
  lemma FirstStep(cl: Classes, s: string, c: char)
    requires Proper(cl) && s != "" && AtBreak(s, [c]) && !BadCut(cl, s, [c])
    ensures Pieces(cl, s) != [] && !Joins(cl, Pieces(cl, s), c) && Last(Pieces(cl, s)) != ""
    ensures !cl.blank(End(Last(Pieces(cl, s)))) || !cl.blank(c)
  {
    PiecesEnd(cl, s);
    hide Reopens, Pieces, Taken;
  }

  /** The first piece of an open end does not turn into blanks. */
  predicate Settled(cl: Classes, q: seq<string>) {
    |q| >= 2 || (|q| == 1 && q[0] != "" && !cl.blank(End(q[0])))
  }

  lemma SettledGrows(cl: Classes, q: seq<string>, c: char)
    requires Proper(cl)
    requires Settled(cl, q) || (|q| == 1 && q[0] != "" && !cl.blank(c))
    ensures Settled(cl, Grown(cl, q, c))
  {
  }

  /** At a good cut, the pieces of the whole are those before the open end, and those of the open end with the rest. */
  lemma {:induction false} CutHolds(cl: Classes, s: string, t: string)
    requires Proper(cl) && s != "" && AtBreak(s, t) && !BadCut(cl, s, t)
    ensures Pieces(cl, s) != []
    ensures Pieces(cl, s + t) == Init(Pieces(cl, s)) + Pieces(cl, Last(Pieces(cl, s)) + t)
    ensures t == "" || Settled(cl, Pieces(cl, Last(Pieces(cl, s)) + t))
  {
    LastAlone(cl, s);
    var p, l := Init(Pieces(cl, s)), Last(Pieces(cl, s));
    assert Pieces(cl, s) == p + [l];
    if t == "" {
      assert s + t == s && l + t == l;
    } else {
      var before, c := Init(t), Last(t);
      assert s + t == s + before + [c] && l + t == l + before + [c];
      assert before != "" ==> before[0] == t[0];
      CutHolds(cl, s, before);
      if before == "" {
        assert t == [c] && s + before == s && l + before == l;
        FirstStep(cl, s, c);
      }
      hide BadCut, AtBreak, Reopens, Pieces;
      OneMore(cl, p, s + before, l + before, c);
    }
  }

  lemma OneMore(cl: Classes, p: seq<string>, whole: string, open: string, c: char)
    requires Proper(cl) && Pieces(cl, whole) == p + Pieces(cl, open)
    requires Settled(cl, Pieces(cl, open))
          || (|Pieces(cl, open)| == 1 && Pieces(cl, open)[0] != "" && !Joins(cl, Pieces(cl, whole), c)
              && !(cl.blank(End(Pieces(cl, open)[0])) && cl.blank(c)))
    ensures Pieces(cl, whole + [c]) == p + Pieces(cl, open + [c]) && Settled(cl, Pieces(cl, open + [c]))
  {
    PiecesNext(cl, whole, c);
    PiecesNext(cl, open, c);
    hide Pieces, Grown;
    var q := Pieces(cl, open);
    SettledGrows(cl, q, c);
    if |q| == 1 { assert Last(p + q) == q[0]; }
    GrownBehind(cl, p, q, c);
  }

  /** Pieces that behave alike when more text follows. */
  predicate Similar(cl: Classes, a: string, b: string) {
    a != "" && b != "" && End(a) == End(b) && IsSpace(cl, a[0]) == IsSpace(cl, b[0])
  }

  ghost predicate SimilarLists(cl: Classes, p: seq<string>, q: seq<string>) {
    |p| == |q| > 0 && p[1..] == q[1..] && Similar(cl, p[0], q[0])
  }

  lemma SimilarGrown(cl: Classes, p: seq<string>, q: seq<string>, c: char)
    requires SimilarLists(cl, p, q)
    ensures SimilarLists(cl, Grown(cl, p, c), Grown(cl, q, c))
  {
    assert forall k :: 1 <= k < |p| ==> p[k] == p[1..][k - 1] && q[k] == q[1..][k - 1];
  }

  lemma {:induction false} SimilarRuns(cl: Classes, a: string, b: string, t: string)
    requires Pieces(cl, a) == [a] && Pieces(cl, b) == [b] && Similar(cl, a, b)
    ensures SimilarLists(cl, Pieces(cl, a + t), Pieces(cl, b + t))
  {
    if t == "" {
      assert a + t == a && b + t == b;
    } else {
      var before, c := Init(t), Last(t);
      SimilarRuns(cl, a, b, before);
      assert a + t == a + before + [c] && b + t == b + before + [c];
      PiecesNext(cl, a + before, c);
      PiecesNext(cl, b + before, c);
      SimilarGrown(cl, Pieces(cl, a + before), Pieces(cl, b + before), c);
    }
  }

  // ----- bad cuts

  lemma BlankEnd(cl: Classes, s: string)
    requires Proper(cl) && Reopens(cl, s)
    ensures s != "" && cl.blank(Last(s)) && !Reopens(cl, s + "\n")
    ensures var ps := Pieces(cl, s);
      && |ps| >= 2 && Loose(cl, ps[|ps| - 2]) && Last(ps) != "" && cl.blank(End(Last(ps))) && IsSpace(cl, Last(ps)[0])
      && Pieces(cl, s + "\n") == Init(Init(ps)) + [Last(Init(ps)) + Last(ps) + "\n"]
  {
    PiecesEnd(cl, s);
    PiecesNext(cl, s, '\n');
    hide Pieces, Taken;
    var i: nat :| i < |s| && BlankLine(cl, s, i, |s|);
    assert !cl.blank((s + "\n")[|s|]);
  }

  function One(bad: bool): nat {
    if bad then 1 else 0
  }

  /** The open end counted so far, which may have lost touch with the last piece of the text. */
  ghost predicate Tracks(cl: Classes, text: string, tail: string) {
    && text != "" && Pieces(cl, text) != [] && Pieces(cl, tail) == [tail]
    && Similar(cl, tail, Last(Pieces(cl, text)))
  }

  /**
   One fragment more: behind the open end that is counted, a bad cut counts one
   piece too many, and any other cut counts as many pieces as there are.
   */
  lemma {:induction false} CutCounts(cl: Classes, text: string, tail: string, fragment: string)
    requires Proper(cl) && Tracks(cl, text, tail) && AtBreak(text, fragment)
    ensures var counted, whole := Pieces(cl, tail + fragment), Pieces(cl, text + fragment);
      && counted != [] && Tracks(cl, text + fragment, Last(counted))
      && |Pieces(cl, text)| - 1 + |counted| == |whole| + One(BadCut(cl, text, fragment))
      && (tail == Last(Pieces(cl, text)) && !BadCut(cl, text, fragment) ==> whole == Init(Pieces(cl, text)) + counted)
  {
    if BadCut(cl, text, fragment) {
      BadCutCounts(cl, text, tail, fragment);
    } else {
      GoodCutCounts(cl, text, tail, fragment);
    }
    hide Reopens, Pieces, Similar;
    LastAlone(cl, tail + fragment);
  }

  lemma GoodCutCounts(cl: Classes, text: string, tail: string, fragment: string)
    requires Proper(cl) && Tracks(cl, text, tail) && AtBreak(text, fragment) && !BadCut(cl, text, fragment)
    ensures var counted, whole := Pieces(cl, tail + fragment), Pieces(cl, text + fragment);
      && counted != [] && whole != [] && Similar(cl, Last(counted), Last(whole))
      && |Pieces(cl, text)| - 1 + |counted| == |whole|
      && (tail == Last(Pieces(cl, text)) ==> whole == Init(Pieces(cl, text)) + counted)
  {
    LastAlone(cl, text);
    CutHolds(cl, text, fragment);
    var l := Last(Pieces(cl, text));
    SimilarRuns(cl, tail, l, fragment);
    PiecesEnd(cl, tail + fragment);
    hide Reopens, Pieces, Similar;
    LastSimilar(cl, Pieces(cl, tail + fragment), Pieces(cl, l + fragment));
  }

  lemma LastSimilar(cl: Classes, p: seq<string>, q: seq<string>)
    requires SimilarLists(cl, p, q) && Last(p) != ""
    ensures Similar(cl, Last(p), Last(q))
  {
    if |p| > 1 { assert Last(p) == p[1..][|p| - 2] && Last(q) == q[1..][|q| - 2]; }
  }

  /** A line feed behind a line of blanks, seen from the open end. */
  lemma FeedBehindBlanks(cl: Classes, text: string, tail: string)
    requires Proper(cl) && Tracks(cl, text, tail) && Reopens(cl, text)
    ensures Tracks(cl, text + "\n", tail + "\n") && Pieces(cl, text + "\n") != []
    ensures |Pieces(cl, text + "\n")| == |Pieces(cl, text)| - 1
  {
    BlankEnd(cl, text);
    PiecesNext(cl, tail, '\n');
    hide Pieces, Reopens;
    var ps := Pieces(cl, text);
    var joined := Last(Init(ps)) + Last(ps) + "\n";
    assert Last(Pieces(cl, text + "\n")) == joined && IsSpace(cl, joined[0]);
  }

  lemma BadCutCounts(cl: Classes, text: string, tail: string, fragment: string)
    requires Proper(cl) && Tracks(cl, text, tail) && BadCut(cl, text, fragment)
    ensures var counted, whole := Pieces(cl, tail + fragment), Pieces(cl, text + fragment);
      && counted != [] && whole != [] && Similar(cl, Last(counted), Last(whole))
      && |Pieces(cl, text)| + |counted| == |whole| + 2
  {
    hide *;
    var rest := FeedApart(cl, text, tail, fragment);
    FeedBehindBlanks(cl, text, tail);
    GoodCutCounts(cl, text + "\n", tail + "\n", rest);
  }

  lemma FeedApart(cl: Classes, text: string, tail: string, fragment: string) returns (rest: string)
    requires Proper(cl) && BadCut(cl, text, fragment)
    ensures Reopens(cl, text) && AtBreak(text + "\n", rest) && !BadCut(cl, text + "\n", rest)
    ensures text + fragment == text + "\n" + rest && tail + fragment == tail + "\n" + rest
  {
    BlankEnd(cl, text);
    hide Reopens;
    rest := fragment[1..];
    assert fragment == "\n" + rest;
  }

  /** Each of these tokenizers loses nothing, leaves text as it is, and obeys the law, whatever the characters are. */
  lemma {:induction false} ObeysLaw(cl: Classes, count: string -> nat)
    requires Proper(cl)
    ensures var tok := LineTokenizer(cl, count);
      Lawful(tok) && Plain(tok) && BlankLineLaw(tok, cl)
  {
    var tok := LineTokenizer(cl, count);
    forall text: string ensures Flat(tok.split(text)) == text { PiecesFlat(cl, text); }
    forall s: string, t: string | AtBreak(s, t) ensures Cut(tok, s, t) <==> !BadCut(cl, s, t) {
      if s != "" { CutIff(cl, count, s, t); }
    }
  }

  lemma CutIff(cl: Classes, count: string -> nat, s: string, t: string)
    requires Proper(cl) && s != "" && AtBreak(s, t)
    ensures Cut(LineTokenizer(cl, count), s, t) <==> !BadCut(cl, s, t)
  {
    LastAlone(cl, s);
    PiecesEnd(cl, s);
    hide BadCut, Reopens, Pieces;
    CutCounts(cl, s, Last(Pieces(cl, s)), t);
  }
}

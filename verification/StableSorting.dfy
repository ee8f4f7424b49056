/**
 What it means to be *the* stable sort of a sequence, apart from any algorithm:
 a bijection of positions, ordered by the comparator and then by position.
 `StableSort` stands for the standard library's `sort_by`.
 */
module StableSorting {

  datatype Ordering = Less | Equal | Greater

  type Comparator<!T> = (T, T) -> Ordering

  /** What `sort_by` asks of its comparator. */
  ghost predicate TotalPreorder<T(!new)>(cmp: Comparator<T>) {
    && (forall a :: cmp(a, a) == Equal)
    && (forall a, b :: cmp(a, b) == Less <==> cmp(b, a) == Greater)
    && (forall a, b, c :: cmp(a, b) != Greater && cmp(b, c) != Greater ==> cmp(a, c) != Greater)
  }

  /** Position `i` of `xs` comes before position `j` in the stable order. */
  predicate Before<T>(cmp: Comparator<T>, xs: seq<T>, i: nat, j: nat)
    requires i < |xs| && j < |xs|
  {
    cmp(xs[i], xs[j]) == Less || (cmp(xs[i], xs[j]) == Equal && i < j)
  }

  /** Every position of a sequence of length `n` occurs. */
  ghost predicate Covers(order: seq<nat>, n: nat) {
    && (forall k :: 0 <= k < |order| ==> order[k] < n)
    && (forall i: nat :: i < n ==> i in order)
  }

  ghost predicate Distinct(order: seq<nat>) {
    forall j, k :: 0 <= j < k < |order| ==> order[j] != order[k]
  }

  function IndexIn(order: seq<nat>, i: nat): (k: nat)
    requires i in order
    ensures k < |order| && order[k] == i
  {
    if order[0] == i then 0 else 1 + IndexIn(order[1..], i)
  }

  function Select<T>(xs: seq<T>, order: seq<nat>): (ys: seq<T>)
    requires forall k :: 0 <= k < |order| ==> order[k] < |xs|
    ensures |ys| == |order|
  {
    seq(|order|, k requires 0 <= k < |order| => xs[order[k]])
  }

  ghost predicate Ascending<T>(cmp: Comparator<T>, xs: seq<T>, order: seq<nat>)
    requires forall k :: 0 <= k < |order| ==> order[k] < |xs|
  {
    forall j, k :: 0 <= j < k < |order| ==> Before(cmp, xs, order[j], order[k])
  }

  ghost predicate Sorts<T>(cmp: Comparator<T>, xs: seq<T>, order: seq<nat>) {
    Covers(order, |xs|) && Distinct(order) && Ascending(cmp, xs, order)
  }

  /** `ys` holds every item of `xs` once, ascending, with ties in their original order. */
  ghost predicate IsStableSort<T>(cmp: Comparator<T>, xs: seq<T>, ys: seq<T>) {
    exists order :: Sorts(cmp, xs, order) && ys == Select(xs, order)
  }

  lemma OrderingFacts<T(!new)>(cmp: Comparator<T>, a: T, b: T, c: T)
    requires TotalPreorder(cmp)
    ensures cmp(a, b) == Less && cmp(b, c) != Greater ==> cmp(a, c) == Less
    ensures cmp(a, b) != Greater && cmp(b, c) == Less ==> cmp(a, c) == Less
    ensures cmp(a, b) == Equal && cmp(b, c) == Equal ==> cmp(a, c) == Equal
    ensures cmp(a, b) == Less <==> cmp(b, a) == Greater
    ensures cmp(a, a) == Equal
    ensures cmp(a, b) != Greater && cmp(b, c) != Greater ==> cmp(a, c) != Greater
  {
    assert cmp(c, a) != Greater && cmp(a, b) != Greater ==> cmp(c, b) != Greater;
    assert cmp(b, c) != Greater && cmp(c, a) != Greater ==> cmp(b, a) != Greater;
  }

  lemma BeforeIsStrict<T(!new)>(cmp: Comparator<T>, xs: seq<T>, i: nat, j: nat)
    requires TotalPreorder(cmp) && i < |xs| && j < |xs|
    ensures Before(cmp, xs, i, j) ==> !Before(cmp, xs, j, i)
    ensures i != j ==> Before(cmp, xs, i, j) || Before(cmp, xs, j, i)
  {
    OrderingFacts(cmp, xs[i], xs[j], xs[i]);
    OrderingFacts(cmp, xs[j], xs[i], xs[j]);
  }

  /** Two ascending enumerations of the same positions are equal. */
  lemma {:induction false} AscendingUnique<T(!new)>(cmp: Comparator<T>, xs: seq<T>, a: seq<nat>, b: seq<nat>)
    requires TotalPreorder(cmp)
    requires forall k :: 0 <= k < |a| ==> a[k] < |xs|
    requires forall k :: 0 <= k < |b| ==> b[k] < |xs|
    requires Distinct(a) && Distinct(b) && Ascending(cmp, xs, a) && Ascending(cmp, xs, b)
    requires forall p :: p in a <==> p in b
    ensures a == b
  {
    if a != [] { assert a[0] in a; }
    if b != [] { assert b[0] in b; }
    if a == [] {
      return;
    }
    if a[0] != b[0] {
      BeforeIsStrict(cmp, xs, a[0], b[0]);
      assert false;
    }
    forall p ensures p in a[1..] <==> p in b[1..] {
      assert p in a <==> p == a[0] || p in a[1..];
      assert p in b <==> p == b[0] || p in b[1..];
    }
    AscendingUnique(cmp, xs, a[1..], b[1..]);
    assert a == [a[0]] + a[1..] && b == [b[0]] + b[1..];
  }

  /** There is only one stable sort. */
  lemma StableSortUnique<T(!new)>(cmp: Comparator<T>, xs: seq<T>, ys: seq<T>, zs: seq<T>)
    requires TotalPreorder(cmp) && IsStableSort(cmp, xs, ys) && IsStableSort(cmp, xs, zs)
    ensures ys == zs
  {
    var a :| Sorts(cmp, xs, a) && ys == Select(xs, a);
    var b :| Sorts(cmp, xs, b) && zs == Select(xs, b);
    forall p ensures p in a <==> p in b {
    }
    AscendingUnique(cmp, xs, a, b);
  }

  /** A stable sort holds exactly the items it was given. */
  lemma {:induction false} SelectionIsPermutation<T>(xs: seq<T>, order: seq<nat>)
    requires Covers(order, |xs|) && Distinct(order)
    ensures multiset(Select(xs, order)) == multiset(xs)
  {
    if xs == [] {
      assert Select(xs, order) == [];
      return;
    }
    var n := |xs| - 1;
    var k := IndexIn(order, n);
    var rest := order[..k] + order[k + 1..];
    forall i: nat | i < n ensures i in rest {
      var j := IndexIn(order, i);
      assert rest[if j < k then j else j - 1] == i;
    }
    SelectionIsPermutation(xs[..n], rest);
    SelectionWithout(xs, order, k);
    assert xs == xs[..n] + [xs[n]];
  }

  lemma SelectionWithout<T>(xs: seq<T>, order: seq<nat>, k: nat)
    requires xs != [] && k < |order| && order[k] == |xs| - 1
    requires forall j :: 0 <= j < |order| ==> order[j] < |xs| && (j != k ==> order[j] != |xs| - 1)
    ensures var n, rest := |xs| - 1, order[..k] + order[k + 1..];
      && (forall j :: 0 <= j < |rest| ==> rest[j] < n)
      && multiset(Select(xs, order)) == multiset(Select(xs[..n], rest)) + multiset{xs[n]}
  {
    var n, rest := |xs| - 1, order[..k] + order[k + 1..];
    var s := Select(xs[..n], rest);
    assert Select(xs, order) == s[..k] + [xs[n]] + s[k..];
    assert s == s[..k] + s[k..];
  }

  lemma StableSortIsPermutation<T>(cmp: Comparator<T>, xs: seq<T>, ys: seq<T>)
    requires IsStableSort(cmp, xs, ys)
    ensures multiset(ys) == multiset(xs) && |ys| == |xs|
  {
    var order :| Sorts(cmp, xs, order) && ys == Select(xs, order);
    SelectionIsPermutation(xs, order);
    assert |multiset(ys)| == |ys| && |multiset(xs)| == |xs|;
  }

  // ----- the standard library's stable sort

  /** Where the last item goes: after everything that is not greater. */
  function Place<T>(cmp: Comparator<T>, ys: seq<T>, x: T): (p: nat)
    ensures p <= |ys|
    ensures forall k :: p <= k < |ys| ==> cmp(ys[k], x) == Greater
    ensures p > 0 ==> cmp(ys[p - 1], x) != Greater
  {
    if ys == [] then 0
    else if cmp(ys[|ys| - 1], x) == Greater then Place(cmp, ys[..|ys| - 1], x)
    else |ys|
  }

  function StableSort<T>(cmp: Comparator<T>, xs: seq<T>): seq<T> {
    if xs == [] then []
    else
      var ys := StableSort(cmp, xs[..|xs| - 1]);
      var p := Place(cmp, ys, xs[|xs| - 1]);
      ys[..p] + [xs[|xs| - 1]] + ys[p..]
  }

  lemma {:induction false} SortingOrder<T(!new)>(cmp: Comparator<T>, xs: seq<T>) returns (order: seq<nat>)
    requires TotalPreorder(cmp)
    ensures Sorts(cmp, xs, order) && StableSort(cmp, xs) == Select(xs, order)
  {
    if xs == [] {
      order := [];
      return;
    }
    hide TotalPreorder, Place, Covers, Distinct, Ascending, Before;
    var n := |xs| - 1;
    var before := SortingOrder(cmp, xs[..n]);
    var ys := StableSort(cmp, xs[..n]);
    var p := Place(cmp, ys, xs[n]);
    OrderInside(before, n);
    order := before[..p] + [n] + before[p..];
    PlacedCovers(before, n, p);
    PlacedIsAscending(cmp, xs, before, p);
    PlacedSelects(xs, before, p);
  }

  lemma OrderInside(order: seq<nat>, n: nat)
    requires Covers(order, n)
    ensures forall k :: 0 <= k < |order| ==> order[k] < n
  {
  }

  lemma PlacedCovers(before: seq<nat>, n: nat, p: nat)
    requires Covers(before, n) && Distinct(before) && p <= |before|
    ensures Covers(before[..p] + [n] + before[p..], n + 1) && Distinct(before[..p] + [n] + before[p..])
  {
    var order := before[..p] + [n] + before[p..];
    forall i: nat | i < n + 1 ensures i in order {
      if i < n {
        var j := IndexIn(before, i);
        assert order[if j < p then j else j + 1] == i;
      } else {
        assert order[p] == n;
      }
    }
  }

  lemma PlacedSelects<T>(xs: seq<T>, before: seq<nat>, p: nat)
    requires xs != [] && p <= |before| && forall k :: 0 <= k < |before| ==> before[k] < |xs| - 1
    ensures var n, ys, order := |xs| - 1, Select(xs[..|xs| - 1], before), before[..p] + [|xs| - 1] + before[p..];
      && (forall k :: 0 <= k < |order| ==> order[k] < |xs|)
      && ys[..p] + [xs[n]] + ys[p..] == Select(xs, order)
  {
  }

  lemma PlacedIsAscending<T(!new)>(cmp: Comparator<T>, xs: seq<T>, before: seq<nat>, p: nat)
    requires TotalPreorder(cmp) && xs != []
    requires Sorts(cmp, xs[..|xs| - 1], before)
    requires p == Place(cmp, Select(xs[..|xs| - 1], before), xs[|xs| - 1])
    ensures var order := before[..p] + [|xs| - 1] + before[p..];
      (forall k :: 0 <= k < |order| ==> order[k] < |xs|) && Ascending(cmp, xs, order)
  {
    hide TotalPreorder, Before, Sorts, Place, Select;
    var n := |xs| - 1;
    var order := before[..p] + [n] + before[p..];
    forall j, k | 0 <= j < k < |order|
      ensures order[j] < |xs| && order[k] < |xs| && Before(cmp, xs, order[j], order[k])
    {
      if j == p {
        assert order[k] == before[k - 1];
        PlacedNeighbour(cmp, xs, before, p, k - 1);
      } else if k == p {
        assert order[j] == before[j];
        PlacedNeighbour(cmp, xs, before, p, j);
      } else {
        var j', k' := if j < p then j else j - 1, if k < p then k else k - 1;
        assert order[j] == before[j'] && order[k] == before[k'];
        PrefixBefore(cmp, xs, before, j', k');
      }
    }
    assert forall k :: 0 <= k < |order| ==> order[k] < |xs| by {
      forall k | 0 <= k < |order| ensures order[k] < |xs| {
        if k < p { PrefixInside(cmp, xs, before, k); } else if k > p { PrefixInside(cmp, xs, before, k - 1); }
      }
    }
  }

  lemma PrefixInside<T>(cmp: Comparator<T>, xs: seq<T>, before: seq<nat>, k: nat)
    requires xs != [] && Sorts(cmp, xs[..|xs| - 1], before) && k < |before|
    ensures before[k] < |xs|
  {
  }

  lemma PrefixBefore<T>(cmp: Comparator<T>, xs: seq<T>, before: seq<nat>, j: nat, k: nat)
    requires xs != [] && Sorts(cmp, xs[..|xs| - 1], before) && j < k < |before|
    ensures before[j] < |xs| && before[k] < |xs| && Before(cmp, xs, before[j], before[k])
  {
    assert Before(cmp, xs[..|xs| - 1], before[j], before[k]);
  }

  lemma PlacedNeighbour<T(!new)>(cmp: Comparator<T>, xs: seq<T>, before: seq<nat>, p: nat, k: nat)
    requires TotalPreorder(cmp) && xs != []
    requires Sorts(cmp, xs[..|xs| - 1], before) && k < |before|
    requires p == Place(cmp, Select(xs[..|xs| - 1], before), xs[|xs| - 1])
    ensures before[k] < |xs|
    ensures if k < p then Before(cmp, xs, before[k], |xs| - 1) else Before(cmp, xs, |xs| - 1, before[k])
  {
    hide TotalPreorder;
    var n := |xs| - 1;
    var ys := Select(xs[..n], before);
    assert ys[k] == xs[before[k]];
    if k >= p {
      OrderingFacts(cmp, xs[n], ys[k], xs[n]);
    } else {
      if k < p - 1 { PrefixBefore(cmp, xs, before, k, p - 1); }
      OrderingFacts(cmp, ys[k], ys[k], ys[k]);
      OrderingFacts(cmp, ys[k], ys[p - 1], xs[n]);
    }
  }

  lemma StableSortIsStable<T(!new)>(cmp: Comparator<T>, xs: seq<T>)
    requires TotalPreorder(cmp)
    ensures IsStableSort(cmp, xs, StableSort(cmp, xs))
  {
    var order := SortingOrder(cmp, xs);
  }

  // ----- sorting a concatenation chunk by chunk

  function Flatten<T>(chunks: seq<seq<T>>): seq<T> {
    if chunks == [] then [] else Flatten(chunks[..|chunks| - 1]) + chunks[|chunks| - 1]
  }

  /** Position of item `i` of chunk `c` in the concatenation. */
  function Position<T>(chunks: seq<seq<T>>, c: nat, i: nat): nat
    requires c <= |chunks|
  {
    |Flatten(chunks[..c])| + i
  }

  lemma {:induction false} PositionIsInside<T>(chunks: seq<seq<T>>, c: nat, i: nat)
    requires c < |chunks| && i < |chunks[c]|
    ensures Position(chunks, c, i) < |Flatten(chunks)|
    ensures Flatten(chunks)[Position(chunks, c, i)] == chunks[c][i]
    decreases |chunks|
  {
    var n := |chunks| - 1;
    if c < n {
      PositionIsInside(chunks[..n], c, i);
      assert chunks[..n][..c] == chunks[..c];
    }
  }

  lemma {:induction false} PositionsAscend<T>(chunks: seq<seq<T>>, c: nat, d: nat)
    requires c < d <= |chunks|
    ensures Position(chunks, c, |chunks[c]|) <= Position(chunks, d, 0)
    decreases d
  {
    assert chunks[..d][..d - 1] == chunks[..d - 1];
    if c < d - 1 { PositionsAscend(chunks, c, d - 1); }
  }

  lemma {:induction false} PositionExists<T>(chunks: seq<seq<T>>, p: nat) returns (c: nat, i: nat)
    requires p < |Flatten(chunks)|
    ensures c < |chunks| && i < |chunks[c]| && p == Position(chunks, c, i)
  {
    var n := |chunks| - 1;
    if p < |Flatten(chunks[..n])| {
      c, i := PositionExists(chunks[..n], p);
      assert chunks[..n][..c] == chunks[..c];
    } else {
      c, i := n, p - |Flatten(chunks[..n])|;
    }
  }

  /** A rearrangement that keeps equal items in their original order. */
  ghost predicate KeepsTies<T>(cmp: Comparator<T>, xs: seq<T>, order: seq<nat>) {
    && Covers(order, |xs|) && Distinct(order)
    && (forall j, k :: 0 <= j < k < |order| && cmp(xs[order[j]], xs[order[k]]) == Equal ==> order[j] < order[k])
  }

  lemma {:induction false} FlattenKeepsTies<T(!new)>(cmp: Comparator<T>, sources: seq<seq<T>>, chunks: seq<seq<T>>)
    returns (order: seq<nat>)
    requires |sources| == |chunks|
    requires forall c :: 0 <= c < |chunks| ==> IsStableSort(cmp, sources[c], chunks[c])
    ensures KeepsTies(cmp, Flatten(sources), order) && Flatten(chunks) == Select(Flatten(sources), order)
  {
    if sources == [] {
      order := [];
      return;
    }
    var n := |sources| - 1;
    var before := FlattenKeepsTies(cmp, sources[..n], chunks[..n]);
    var base := |Flatten(sources[..n])|;
    var last :| Sorts(cmp, sources[n], last) && chunks[n] == Select(sources[n], last);
    var shifted := seq(|last|, k requires 0 <= k < |last| => base + last[k]);
    order := before + shifted;
    ShiftCovers(base, |sources[n]|, before, last);
    ShiftKeepsTies(cmp, Flatten(sources[..n]), sources[n], before, last);
    assert Flatten(chunks) == Select(Flatten(sources), order);
  }

  lemma ShiftCovers(m: nat, n: nat, before: seq<nat>, last: seq<nat>)
    requires Covers(before, m) && Covers(last, n)
    ensures Covers(before + seq(|last|, k requires 0 <= k < |last| => m + last[k]), m + n)
  {
    var order := before + seq(|last|, k requires 0 <= k < |last| => m + last[k]);
    forall i: nat | i < m + n ensures i in order {
      if i < m {
        assert i in before;
      } else {
        var j := IndexIn(last, i - m);
        assert order[|before| + j] == i;
      }
    }
  }

  lemma ShiftKeepsTies<T>(cmp: Comparator<T>, xs: seq<T>, ys: seq<T>, before: seq<nat>, last: seq<nat>)
    requires KeepsTies(cmp, xs, before) && Sorts(cmp, ys, last)
    ensures var order := before + seq(|last|, k requires 0 <= k < |last| => |xs| + last[k]);
      && Distinct(order)
      && (forall k :: 0 <= k < |order| ==> order[k] < |xs + ys|)
      && (forall j, k :: 0 <= j < k < |order| && cmp((xs + ys)[order[j]], (xs + ys)[order[k]]) == Equal ==>
            order[j] < order[k])
  {
    var order := before + seq(|last|, k requires 0 <= k < |last| => |xs| + last[k]);
    forall j, k | 0 <= j < k < |order|
      ensures order[j] != order[k]
      ensures cmp((xs + ys)[order[j]], (xs + ys)[order[k]]) == Equal ==> order[j] < order[k]
    {
      if j >= |before| { assert Before(cmp, ys, last[j - |before|], last[k - |before|]); }
    }
  }

  /** Sorting a tie-keeping rearrangement is sorting the original. */
  lemma {:induction false} SortAfterRearranging<T(!new)>(cmp: Comparator<T>, xs: seq<T>, first: seq<nat>, ys: seq<T>)
    requires KeepsTies(cmp, xs, first) && IsStableSort(cmp, Select(xs, first), ys)
    ensures IsStableSort(cmp, xs, ys)
  {
    var mid := Select(xs, first);
    var second :| Sorts(cmp, mid, second) && ys == Select(mid, second);
    var order := seq(|second|, k requires 0 <= k < |second| => first[second[k]]);
    forall i: nat | i < |xs| ensures i in order {
      var k := IndexIn(second, IndexIn(first, i));
      assert order[k] == i;
    }
    forall j, k | 0 <= j < k < |order|
      ensures order[j] != order[k] && Before(cmp, xs, order[j], order[k])
    {
      assert Before(cmp, mid, second[j], second[k]);
    }
    assert ys == Select(xs, order);
    assert Sorts(cmp, xs, order);
  }
}

/**
 The hand-written binary heap of `bounded_sort.rs`. It stores stream indices;
 their order is that of the streams' current front items, so it changes as the
 streams are consumed.
 */
module IndexHeaps {
  import opened Wrappers
  import opened StableSorting

  datatype SortError = Cancelled | WorkerPanicked | WorkerDisconnected | Invariant

  /** Compares two stream fronts; ties go to the lower stream. */
  function StreamPrecedes<T>(cmp: Comparator<T>, streams: seq<seq<T>>, left: nat, right: nat): Result<bool, SortError> {
    if left >= |streams| || streams[left] == [] || right >= |streams| || streams[right] == [] then Err(Invariant)
    else
      var ordering := cmp(streams[left][0], streams[right][0]);
      Ok(ordering == Less || (ordering == Equal && left < right))
  }

  /** Every node names a stream that still has a front. */
  ghost predicate Live<T>(streams: seq<seq<T>>, nodes: seq<nat>) {
    forall x :: x in nodes ==> x < |streams| && streams[x] != []
  }

  /** `a` may stand above `b` in the heap. */
  ghost predicate Above<T>(cmp: Comparator<T>, streams: seq<seq<T>>, a: nat, b: nat) {
    StreamPrecedes(cmp, streams, b, a) == Ok(false)
  }

  /** `parent` is the parent position of `child` in an implicit binary tree. */
  predicate IsParent(parent: int, child: int) {
    0 < child && parent == (child - 1) / 2
  }

  ghost predicate HeapOrdered<T>(cmp: Comparator<T>, streams: seq<seq<T>>, nodes: seq<nat>) {
    forall p, k :: IsParent(p, k) && k < |nodes| ==> Above(cmp, streams, nodes[p], nodes[k])
  }

  function Swap(nodes: seq<nat>, i: nat, j: nat): (r: seq<nat>)
    requires i < |nodes| && j < |nodes|
    ensures |r| == |nodes| && multiset(r) == multiset(nodes)
  {
    nodes[i := nodes[j]][j := nodes[i]]
  }

  lemma AboveTransitive<T(!new)>(cmp: Comparator<T>, streams: seq<seq<T>>, a: nat, b: nat, c: nat)
    requires TotalPreorder(cmp) && Above(cmp, streams, a, b) && Above(cmp, streams, b, c)
    ensures Above(cmp, streams, a, c)
  {
    OrderingFacts(cmp, streams[c][0], streams[b][0], streams[a][0]);
    OrderingFacts(cmp, streams[b][0], streams[a][0], streams[b][0]);
    OrderingFacts(cmp, streams[a][0], streams[b][0], streams[c][0]);
    OrderingFacts(cmp, streams[c][0], streams[a][0], streams[c][0]);
    OrderingFacts(cmp, streams[c][0], streams[b][0], streams[c][0]);
  }

  lemma PrecedesIsAbove<T(!new)>(cmp: Comparator<T>, streams: seq<seq<T>>, a: nat, b: nat)
    requires TotalPreorder(cmp) && StreamPrecedes(cmp, streams, a, b) == Ok(true)
    ensures Above(cmp, streams, a, b)
  {
    OrderingFacts(cmp, streams[a][0], streams[b][0], streams[a][0]);
    OrderingFacts(cmp, streams[b][0], streams[a][0], streams[b][0]);
  }

  /** The root of a heap stands above every node. */
  lemma {:induction false} RootIsLeast<T(!new)>(cmp: Comparator<T>, streams: seq<seq<T>>, nodes: seq<nat>, k: nat)
    requires TotalPreorder(cmp) && HeapOrdered(cmp, streams, nodes) && Live(streams, nodes) && k < |nodes|
    ensures Above(cmp, streams, nodes[0], nodes[k])
  {
    if k == 0 {
      assert nodes[0] in nodes;
      OrderingFacts(cmp, streams[nodes[0]][0], streams[nodes[0]][0], streams[nodes[0]][0]);
    } else {
      RootIsLeast(cmp, streams, nodes, (k - 1) / 2);
      AboveTransitive(cmp, streams, nodes[0], nodes[(k - 1) / 2], nodes[k]);
    }
  }

  /** Consuming a stream that is not in the heap leaves the heap ordered. */
  lemma FrontChangeKeepsHeap<T>(cmp: Comparator<T>, streams: seq<seq<T>>, nodes: seq<nat>, c: nat, rest: seq<T>)
    requires HeapOrdered(cmp, streams, nodes) && c < |streams| && c !in nodes
    ensures HeapOrdered(cmp, streams[c := rest], nodes)
  {
    forall p, k | IsParent(p, k) && k < |nodes| ensures Above(cmp, streams[c := rest], nodes[p], nodes[k]) {
      assert nodes[k] in nodes && nodes[p] in nodes;
      assert Above(cmp, streams, nodes[p], nodes[k]);
    }
  }

  // ----- sifting

  /** Ordered but for `child` and its parent. */
  ghost predicate RisingAt<T>(cmp: Comparator<T>, streams: seq<seq<T>>, nodes: seq<nat>, child: nat) {
    && child < |nodes|
    && (forall p, k :: IsParent(p, k) && k < |nodes| && k != child ==> Above(cmp, streams, nodes[p], nodes[k]))
    && (forall p, k :: IsParent(p, child) && IsParent(child, k) && k < |nodes| ==> Above(cmp, streams, nodes[p], nodes[k]))
  }

  /** Ordered but for `parent` and its children. */
  ghost predicate SinkingAt<T>(cmp: Comparator<T>, streams: seq<seq<T>>, nodes: seq<nat>, parent: nat) {
    && (forall p, k :: IsParent(p, k) && k < |nodes| && p != parent ==> Above(cmp, streams, nodes[p], nodes[k]))
    && (forall p, k :: IsParent(p, parent) && IsParent(parent, k) && k < |nodes| ==> Above(cmp, streams, nodes[p], nodes[k]))
  }

  lemma RiseStep<T(!new)>(cmp: Comparator<T>, streams: seq<seq<T>>, nodes: seq<nat>, child: nat)
    requires TotalPreorder(cmp) && RisingAt(cmp, streams, nodes, child) && child > 0
    requires StreamPrecedes(cmp, streams, nodes[child], nodes[(child - 1) / 2]) == Ok(true)
    ensures RisingAt(cmp, streams, Swap(nodes, child, (child - 1) / 2), (child - 1) / 2)
  {
    hide TotalPreorder, Above;
    var parent := (child - 1) / 2;
    var swapped := Swap(nodes, child, parent);
    PrecedesIsAbove(cmp, streams, nodes[child], nodes[parent]);
    forall p, k | IsParent(p, k) && k < |swapped| && k != parent
      ensures Above(cmp, streams, swapped[p], swapped[k])
    {
      if k != child && p == parent {
        AboveTransitive(cmp, streams, nodes[child], nodes[parent], nodes[k]);
      }
    }
    forall p, k | IsParent(p, parent) && IsParent(parent, k) && k < |swapped|
      ensures Above(cmp, streams, swapped[p], swapped[k])
    {
      assert Above(cmp, streams, nodes[p], nodes[parent]);
      if k != child {
        AboveTransitive(cmp, streams, nodes[p], nodes[parent], nodes[k]);
      }
    }
  }

  lemma SinkStep<T(!new)>(cmp: Comparator<T>, streams: seq<seq<T>>, nodes: seq<nat>, parent: nat, child: nat)
    requires TotalPreorder(cmp) && SinkingAt(cmp, streams, nodes, parent)
    requires child < |nodes| && IsParent(parent, child)
    requires forall k :: IsParent(parent, k) && k < |nodes| && k != child ==> Above(cmp, streams, nodes[child], nodes[k])
    requires StreamPrecedes(cmp, streams, nodes[child], nodes[parent]) == Ok(true)
    ensures SinkingAt(cmp, streams, Swap(nodes, parent, child), child)
  {
    hide TotalPreorder, Above;
    var swapped := Swap(nodes, parent, child);
    PrecedesIsAbove(cmp, streams, nodes[child], nodes[parent]);
    forall p, k | IsParent(p, k) && k < |swapped| && p != child
      ensures Above(cmp, streams, swapped[p], swapped[k])
    {
    }
  }

  lemma SinkEnd<T(!new)>(cmp: Comparator<T>, streams: seq<seq<T>>, nodes: seq<nat>, parent: nat, child: nat)
    requires TotalPreorder(cmp) && SinkingAt(cmp, streams, nodes, parent)
    requires child < |nodes| && IsParent(parent, child)
    requires forall k :: IsParent(parent, k) && k < |nodes| && k != child ==> Above(cmp, streams, nodes[child], nodes[k])
    requires Above(cmp, streams, nodes[parent], nodes[child])
    ensures HeapOrdered(cmp, streams, nodes)
  {
    hide TotalPreorder, Above;
    forall k | IsParent(parent, k) && k < |nodes|
      ensures Above(cmp, streams, nodes[parent], nodes[k])
    {
      if k != child { AboveTransitive(cmp, streams, nodes[parent], nodes[child], nodes[k]); }
    }
  }

  /** The vector of stream indices that `merge_sorted_chunks` keeps. */
  class IndexHeap {
    var nodes: seq<nat>

    constructor ()
      ensures nodes == []
    {
      nodes := [];
    }

    method Push<T(!new)>(value: nat, streams: seq<seq<T>>, cmp: Comparator<T>) returns (r: Result<(), SortError>)
      requires TotalPreorder(cmp)
      modifies this
      ensures multiset(nodes) == multiset(old(nodes)) + multiset{value}
      ensures r.Ok? && HeapOrdered(cmp, streams, old(nodes)) ==> HeapOrdered(cmp, streams, nodes)
      ensures r.Err? ==> r.error == Invariant && !Live(streams, old(nodes) + [value])
    {
      hide TotalPreorder, Above, StreamPrecedes;
      nodes := nodes + [value];
      var child := |nodes| - 1;
      while child > 0
        invariant 0 <= child < |nodes|
        invariant multiset(nodes) == multiset(old(nodes) + [value])
        invariant HeapOrdered(cmp, streams, old(nodes)) ==> RisingAt(cmp, streams, nodes, child)
      {
        var parent := (child - 1) / 2;
        var before := StreamPrecedes(cmp, streams, nodes[child], nodes[parent]);
        if before.Err? {
          NotLive(cmp, streams, nodes, child, parent);
          SameLive(streams, nodes, old(nodes) + [value]);
          return Err(Invariant);
        }
        if !before.value {
          AboveNow(cmp, streams, nodes[parent], nodes[child]);
          break;
        }
        if HeapOrdered(cmp, streams, old(nodes)) { RiseStep(cmp, streams, nodes, child); }
        nodes := Swap(nodes, child, parent);
        child := parent;
      }
      r := Ok(());
    }

    method Pop<T(!new)>(streams: seq<seq<T>>, cmp: Comparator<T>) returns (r: Result<nat, SortError>)
      requires TotalPreorder(cmp)
      modifies this
      ensures r.Ok? ==> old(nodes) != [] && r.value == old(nodes)[0]
      ensures r.Ok? ==> multiset(nodes) == multiset(old(nodes)) - multiset{r.value}
      ensures r.Ok? && HeapOrdered(cmp, streams, old(nodes)) ==> HeapOrdered(cmp, streams, nodes)
      ensures r.Err? ==> r.error == Invariant && (old(nodes) == [] || !Live(streams, old(nodes)))
    {
      hide TotalPreorder, Above, StreamPrecedes, SinkingAt, HeapOrdered, Live, IsParent;
      if nodes == [] { return Err(Invariant); }
      var root := nodes[0];
      SwapRemoved(nodes);
      nodes := if |nodes| == 1 then [] else [nodes[|nodes| - 1]] + nodes[1..|nodes| - 1];
      ghost var rest := nodes;
      ghost var ordered := HeapOrdered(cmp, streams, old(nodes));
      if ordered { SinkStart(cmp, streams, old(nodes), nodes); }
      NotLiveRest(streams, old(nodes), rest);
      var parent := 0;
      while 2 * parent + 1 < |nodes|
        invariant multiset(nodes) == multiset(rest) && |nodes| == |rest|
        invariant ordered ==> SinkingAt(cmp, streams, nodes, parent)
        decreases |nodes| - parent
      {
        SameLive(streams, nodes, rest);
        var child :- SmallerChild(parent, streams, cmp);
        var childFirst := StreamPrecedes(cmp, streams, nodes[child], nodes[parent]);
        if childFirst.Err? {
          NotLive(cmp, streams, nodes, child, parent);
          return Err(Invariant);
        }
        if !childFirst.value {
          AboveNow(cmp, streams, nodes[parent], nodes[child]);
          if ordered { SinkEnd(cmp, streams, nodes, parent, child); }
          return Ok(root);
        }
        if ordered { SinkStep(cmp, streams, nodes, parent, child); }
        ParentIsLess(parent, child);
        nodes := Swap(nodes, parent, child);
        parent := child;
      }
      if ordered { SunkIsOrdered(cmp, streams, nodes, parent); }
      r := Ok(root);
    }

    /** The child that stands above its sibling. */
    method SmallerChild<T(!new)>(parent: nat, streams: seq<seq<T>>, cmp: Comparator<T>) returns (r: Result<nat, SortError>)
      requires TotalPreorder(cmp) && 2 * parent + 1 < |nodes|
      ensures r.Ok? ==> r.value < |nodes| && IsParent(parent, r.value)
      ensures r.Ok? ==> forall k :: IsParent(parent, k) && k < |nodes| && k != r.value ==>
                          Above(cmp, streams, nodes[r.value], nodes[k])
      ensures r.Err? ==> r.error == Invariant && !Live(streams, nodes)
    {
      hide TotalPreorder, Above, StreamPrecedes, Live;
      var left := 2 * parent + 1;
      var right := left + 1;
      if right >= |nodes| { return Ok(left); }
      var rightFirst := StreamPrecedes(cmp, streams, nodes[right], nodes[left]);
      if rightFirst.Err? {
        NotLive(cmp, streams, nodes, right, left);
        return Err(Invariant);
      }
      if rightFirst.value {
        PrecedesIsAbove(cmp, streams, nodes[right], nodes[left]);
        return Ok(right);
      }
      AboveNow(cmp, streams, nodes[left], nodes[right]);
      r := Ok(left);
    }
  }

  lemma ParentIsLess(parent: int, child: int)
    requires IsParent(parent, child)
    ensures parent < child
  {
  }

  lemma NotLiveRest<T>(streams: seq<seq<T>>, nodes: seq<nat>, rest: seq<nat>)
    requires forall x :: x in rest ==> x in nodes
    ensures Live(streams, nodes) ==> Live(streams, rest)
  {
  }

  /** A node without children has nothing left to sink past. */
  lemma SunkIsOrdered<T>(cmp: Comparator<T>, streams: seq<seq<T>>, nodes: seq<nat>, parent: nat)
    requires SinkingAt(cmp, streams, nodes, parent)
    requires |nodes| <= 2 * parent + 1
    ensures HeapOrdered(cmp, streams, nodes)
  {
    hide Above;
  }

  lemma NotLive<T>(cmp: Comparator<T>, streams: seq<seq<T>>, nodes: seq<nat>, j: nat, k: nat)
    requires j < |nodes| && k < |nodes| && StreamPrecedes(cmp, streams, nodes[j], nodes[k]).Err?
    ensures !Live(streams, nodes)
  {
    assert nodes[j] in nodes && nodes[k] in nodes;
  }

  lemma SameLive<T>(streams: seq<seq<T>>, nodes: seq<nat>, others: seq<nat>)
    requires multiset(nodes) == multiset(others)
    ensures Live(streams, nodes) == Live(streams, others)
  {
    forall x ensures x in nodes <==> x in others {
      assert x in nodes <==> x in multiset(nodes);
      assert x in others <==> x in multiset(others);
    }
  }

  lemma AboveNow<T>(cmp: Comparator<T>, streams: seq<seq<T>>, a: nat, b: nat)
    requires StreamPrecedes(cmp, streams, b, a) == Ok(false)
    ensures Above(cmp, streams, a, b)
  {
  }

  /** `swap_remove(0)`: the last node takes the root's place. */
  lemma SwapRemoved(nodes: seq<nat>)
    requires nodes != []
    ensures var rest := if |nodes| == 1 then [] else [nodes[|nodes| - 1]] + nodes[1..|nodes| - 1];
      && multiset(rest) == multiset(nodes) - multiset{nodes[0]}
      && (forall x :: x in rest ==> x in nodes)
  {
    if |nodes| > 1 {
      assert nodes == [nodes[0]] + nodes[1..|nodes| - 1] + [nodes[|nodes| - 1]];
    } else {
      assert nodes == [nodes[0]];
    }
  }

  lemma SinkStart<T>(cmp: Comparator<T>, streams: seq<seq<T>>, nodes: seq<nat>, rest: seq<nat>)
    requires HeapOrdered(cmp, streams, nodes) && nodes != []
    requires rest == if |nodes| == 1 then [] else [nodes[|nodes| - 1]] + nodes[1..|nodes| - 1]
    ensures SinkingAt(cmp, streams, rest, 0)
  {
    hide Above;
  }
}

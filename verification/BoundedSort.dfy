/**
 The cancelable chunked sort of `bounded_sort.rs`: fixed chunks, some sorted by
 spawned workers and some inline, then a k-way merge through the index heap.
 Placement, arrival order and cancellation are arbitrary inputs.
 */
module BoundedSort {
  import opened Wrappers
  import opened StableSorting
  import opened IndexHeaps

  const SORT_CHUNK_ITEMS: nat := 4096
  const MERGE_CANCEL_ITEMS: nat := 1024

  /** The request's cancellation token: the answer to each successive check. */
  class Operation {
    const cancelledAt: nat -> bool
    var polls: nat
    /** Some check so far answered that the request was cancelled. */
    var observed: bool

    constructor (cancelledAt: nat -> bool)
      ensures polls == 0 && !observed && this.cancelledAt == cancelledAt
    {
      this.cancelledAt := cancelledAt;
      polls := 0;
      observed := false;
    }

    method Check() returns (r: Result<(), SortError>)
      modifies this
      ensures polls == old(polls) + 1
      ensures observed == (old(observed) || cancelledAt(old(polls)))
      ensures r == if cancelledAt(old(polls)) then Err(Cancelled) else Ok(())
    {
      r := if cancelledAt(polls) then Err(Cancelled) else Ok(());
      observed := observed || cancelledAt(polls);
      polls := polls + 1;
    }
  }

  // ----- what has been merged so far

  ghost predicate SortedChunk<T>(cmp: Comparator<T>, chunk: seq<T>) {
    forall i, j :: 0 <= i < j < |chunk| ==> cmp(chunk[i], chunk[j]) != Greater
  }

  ghost predicate Bounded<T>(chunks: seq<seq<T>>, taken: seq<nat>) {
    |taken| == |chunks| && forall c :: 0 <= c < |chunks| ==> taken[c] <= |chunks[c]|
  }

  ghost predicate Inside<T>(chunks: seq<seq<T>>, order: seq<nat>) {
    forall k :: 0 <= k < |order| ==> order[k] < |Flatten(chunks)|
  }

  /** The merged positions are exactly the consumed front parts of the chunks. */
  ghost predicate Consumed<T>(chunks: seq<seq<T>>, taken: seq<nat>, order: seq<nat>)
    requires Bounded(chunks, taken)
  {
    forall c, i :: 0 <= c < |chunks| && 0 <= i < |chunks[c]| ==> (Position(chunks, c, i) in order <==> i < taken[c])
  }

  /** Everything merged comes before everything that is left. */
  ghost predicate Ahead<T>(cmp: Comparator<T>, chunks: seq<seq<T>>, taken: seq<nat>, order: seq<nat>)
    requires Bounded(chunks, taken) && Inside(chunks, order)
  {
    forall k, c, i :: 0 <= k < |order| && 0 <= c < |chunks| && taken[c] <= i < |chunks[c]| ==>
      FrontBefore(cmp, chunks, order[k], c, i)
  }

  ghost predicate FrontBefore<T>(cmp: Comparator<T>, chunks: seq<seq<T>>, p: nat, c: nat, i: nat)
    requires p < |Flatten(chunks)| && c < |chunks| && i < |chunks[c]|
  {
    PositionIsInside(chunks, c, i);
    Before(cmp, Flatten(chunks), p, Position(chunks, c, i))
  }

  ghost predicate Merging<T>(cmp: Comparator<T>, chunks: seq<seq<T>>, taken: seq<nat>, order: seq<nat>) {
    && Bounded(chunks, taken) && Inside(chunks, order)
    && Consumed(chunks, taken, order)
    && Distinct(order) && Ascending(cmp, Flatten(chunks), order)
    && Ahead(cmp, chunks, taken, order)
  }

  ghost function Remaining<T>(chunks: seq<seq<T>>, taken: seq<nat>): seq<seq<T>>
    requires Bounded(chunks, taken)
  {
    seq(|chunks|, c requires 0 <= c < |chunks| => chunks[c][taken[c]..])
  }

  /** The least front, by the heap's own order, comes before everything left. */
  lemma LeastFront<T(!new)>(cmp: Comparator<T>, chunks: seq<seq<T>>, taken: seq<nat>, c: nat, d: nat, j: nat)
    requires TotalPreorder(cmp) && Bounded(chunks, taken) && c < |chunks| && d < |chunks|
    requires taken[c] < |chunks[c]| && taken[d] <= j < |chunks[d]|
    requires SortedChunk(cmp, chunks[d])
    requires Above(cmp, Remaining(chunks, taken), c, d) && (c, taken[c]) != (d, j)
    ensures Position(chunks, c, taken[c]) < |Flatten(chunks)|
    ensures FrontBefore(cmp, chunks, Position(chunks, c, taken[c]), d, j)
  {
    hide TotalPreorder, Flatten;
    PositionIsInside(chunks, c, taken[c]);
    PositionIsInside(chunks, d, j);
    var front, item := chunks[c][taken[c]], chunks[d][j];
    assert Remaining(chunks, taken)[c][0] == front;
    OrderingFacts(cmp, front, chunks[d][taken[d]], item);
    OrderingFacts(cmp, chunks[d][taken[d]], front, chunks[d][taken[d]]);
    OrderingFacts(cmp, front, item, front);
    if c < d { PositionsAscend(chunks, c, d); }
    if d < c { PositionsAscend(chunks, d, c); }
  }

  lemma {:induction false} PositionUnique<T>(chunks: seq<seq<T>>, c: nat, i: nat, d: nat, j: nat)
    requires c < |chunks| && i < |chunks[c]| && d < |chunks| && j < |chunks[d]|
    requires Position(chunks, c, i) == Position(chunks, d, j)
    ensures c == d && i == j
  {
    if c < d { PositionsAscend(chunks, c, d); }
    if d < c { PositionsAscend(chunks, d, c); }
  }

  /** Taking the least front keeps the merge on course. */
  lemma MergeStep<T(!new)>(cmp: Comparator<T>, chunks: seq<seq<T>>, taken: seq<nat>, order: seq<nat>, c: nat)
    requires TotalPreorder(cmp) && Merging(cmp, chunks, taken, order)
    requires forall d :: 0 <= d < |chunks| ==> SortedChunk(cmp, chunks[d])
    requires c < |chunks| && taken[c] < |chunks[c]|
    requires forall d :: 0 <= d < |chunks| && taken[d] < |chunks[d]| ==> Above(cmp, Remaining(chunks, taken), c, d)
    ensures Merging(cmp, chunks, taken[c := taken[c] + 1], order + [Position(chunks, c, taken[c])])
  {
    hide TotalPreorder, SortedChunk, Above, Flatten, Position, FrontBefore;
    var p := Position(chunks, c, taken[c]);
    var taken' := taken[c := taken[c] + 1];
    var order' := order + [p];
    PositionIsInside(chunks, c, taken[c]);
    assert Consumed(chunks, taken', order') by {
      forall d, i | 0 <= d < |chunks| && 0 <= i < |chunks[d]|
        ensures Position(chunks, d, i) in order' <==> i < taken'[d]
      {
        assert Position(chunks, d, i) in order <==> i < taken[d];
        if Position(chunks, d, i) == p { PositionUnique(chunks, d, i, c, taken[c]); }
      }
    }
    assert p !in order;
    assert Ascending(cmp, Flatten(chunks), order') by {
      forall k | 0 <= k < |order| ensures Before(cmp, Flatten(chunks), order[k], p) {
        assert FrontBefore(cmp, chunks, order[k], c, taken[c]);
        FrontIsBefore(cmp, chunks, order[k], c, taken[c]);
      }
    }
    forall k, d, i | 0 <= k < |order'| && 0 <= d < |chunks| && taken'[d] <= i < |chunks[d]|
      ensures FrontBefore(cmp, chunks, order'[k], d, i)
    {
      if k == |order| {
        LeastFront(cmp, chunks, taken, c, d, i);
      } else {
        assert FrontBefore(cmp, chunks, order[k], d, i);
      }
    }
  }

  lemma FrontIsBefore<T>(cmp: Comparator<T>, chunks: seq<seq<T>>, p: nat, c: nat, i: nat)
    requires p < |Flatten(chunks)| && c < |chunks| && i < |chunks[c]| && FrontBefore(cmp, chunks, p, c, i)
    ensures Position(chunks, c, i) < |Flatten(chunks)| && Before(cmp, Flatten(chunks), p, Position(chunks, c, i))
  {
    PositionIsInside(chunks, c, i);
  }

  /** When every chunk is used up, the merge is the stable sort of the concatenation. */
  lemma MergeDone<T>(cmp: Comparator<T>, chunks: seq<seq<T>>, taken: seq<nat>, order: seq<nat>)
    requires Merging(cmp, chunks, taken, order)
    requires forall c :: 0 <= c < |chunks| ==> taken[c] == |chunks[c]|
    ensures IsStableSort(cmp, Flatten(chunks), Select(Flatten(chunks), order))
  {
    forall p: nat | p < |Flatten(chunks)| ensures p in order {
      var c, i := PositionExists(chunks, p);
      assert Position(chunks, c, i) in order;
    }
    assert Sorts(cmp, Flatten(chunks), order);
  }

  lemma {:induction false} FlattenShrinks<T>(streams: seq<seq<T>>, c: nat)
    requires c < |streams| && streams[c] != []
    ensures |Flatten(streams[c := streams[c][1..]])| == |Flatten(streams)| - 1
  {
    var n := |streams| - 1;
    var after := streams[c := streams[c][1..]];
    if c == n {
      assert after[..n] == streams[..n];
    } else {
      FlattenShrinks(streams[..n], c);
      assert after[..n] == streams[..n][c := streams[c][1..]];
    }
  }

  /** The streams that still have a front. */
  ghost function Fronts<T>(streams: seq<seq<T>>): set<nat> {
    set c: nat | c < |streams| && streams[c] != []
  }

  lemma NodesAreFronts<T>(streams: seq<seq<T>>, nodes: seq<nat>)
    requires multiset(nodes) == multiset(Fronts(streams))
    ensures Live(streams, nodes)
    ensures nodes == [] <==> Fronts(streams) == {}
    ensures forall c: nat :: c < |streams| && streams[c] != [] ==> c in nodes
  {
    forall x ensures x in nodes <==> x in Fronts(streams) {
      assert x in nodes <==> x in multiset(nodes);
    }
    if nodes != [] { assert nodes[0] in nodes; }
  }

  lemma FrontTaken<T>(streams: seq<seq<T>>, nodes: seq<nat>, c: nat, rest: seq<nat>)
    requires c < |streams| && streams[c] != [] && multiset(nodes) == multiset(Fronts(streams))
    requires multiset(rest) == multiset(nodes) - multiset{c}
    ensures c !in rest
    ensures multiset(rest) + (if streams[c][1..] == [] then multiset{} else multiset{c})
         == multiset(Fronts(streams[c := streams[c][1..]]))
  {
    assert c in rest <==> c in multiset(rest);
    assert c in Fronts(streams);
    var after := streams[c := streams[c][1..]];
    if streams[c][1..] == [] {
      assert Fronts(after) == Fronts(streams) - {c};
    } else {
      assert Fronts(after) == Fronts(streams);
    }
  }

  /** The root of the heap is the least front of all. */
  lemma RootIsLeastFront<T(!new)>(cmp: Comparator<T>, streams: seq<seq<T>>, nodes: seq<nat>)
    requires TotalPreorder(cmp) && HeapOrdered(cmp, streams, nodes) && nodes != []
    requires multiset(nodes) == multiset(Fronts(streams))
    ensures nodes[0] < |streams| && streams[nodes[0]] != []
    ensures forall d :: 0 <= d < |streams| && streams[d] != [] ==> Above(cmp, streams, nodes[0], d)
  {
    NodesAreFronts(streams, nodes);
    assert nodes[0] in nodes;
    forall d | 0 <= d < |streams| && streams[d] != [] ensures Above(cmp, streams, nodes[0], d) {
      assert d in nodes;
      RootIsLeast(cmp, streams, nodes, IndexIn(nodes, d));
    }
  }

  lemma RemainingStep<T>(chunks: seq<seq<T>>, taken: seq<nat>, c: nat)
    requires Bounded(chunks, taken) && c < |chunks| && taken[c] < |chunks[c]|
    ensures Remaining(chunks, taken[c := taken[c] + 1])
         == Remaining(chunks, taken)[c := Remaining(chunks, taken)[c][1..]]
  {
  }

  lemma MergeStart<T>(cmp: Comparator<T>, chunks: seq<seq<T>>)
    ensures var none := seq(|chunks|, c => 0);
      Merging(cmp, chunks, none, []) && Remaining(chunks, none) == chunks
  {
  }

  // ----- the merge

  /** `try_fold(checked_add)` over the chunk lengths. */
  method TotalLength<T>(chunks: seq<seq<T>>) returns (total: Option<nat>)
    ensures total == if |Flatten(chunks)| <= WORD_MAX then Some(|Flatten(chunks)|) else None
  {
    var sum := 0;
    var c := 0;
    while c < |chunks|
      invariant 0 <= c <= |chunks|
      invariant sum == |Flatten(chunks[..c])| <= WORD_MAX
    {
      assert chunks[..c + 1][..c] == chunks[..c];
      if sum + |chunks[c]| > WORD_MAX {
        PositionsMonotone(chunks, c + 1);
        return None;
      }
      sum := sum + |chunks[c]|;
      c := c + 1;
    }
    assert chunks[..c] == chunks;
    total := Some(sum);
  }

  lemma {:induction false} PositionsMonotone<T>(chunks: seq<seq<T>>, c: nat)
    requires c <= |chunks|
    ensures |Flatten(chunks[..c])| <= |Flatten(chunks)|
  {
    if c == |chunks| {
      assert chunks[..c] == chunks;
    } else {
      PositionsMonotone(chunks[..|chunks| - 1], c);
      assert chunks[..|chunks| - 1][..c] == chunks[..c];
    }
  }

  /** Pushes every nonempty stream onto a new heap. */
  method BuildHeap<T(!new)>(streams: seq<seq<T>>, cmp: Comparator<T>) returns (heap: IndexHeap, r: Result<(), SortError>)
    requires TotalPreorder(cmp)
    ensures fresh(heap) && r == Ok(())
    ensures HeapOrdered(cmp, streams, heap.nodes)
    ensures multiset(heap.nodes) == multiset(Fronts(streams))
  {
    hide TotalPreorder, HeapOrdered, Live;
    heap := new IndexHeap();
    assert HeapOrdered(cmp, streams, heap.nodes) by { EmptyHeap(cmp, streams); }
    ghost var pushed: set<nat> := {};
    for index := 0 to |streams|
      invariant HeapOrdered(cmp, streams, heap.nodes)
      invariant multiset(heap.nodes) == multiset(pushed)
      invariant pushed == set c: nat | c < index && streams[c] != []
    {
      if streams[index] != [] {
        ghost var before := heap.nodes;
        LiveWith(streams, before, pushed, index);
        var outcome := heap.Push(index, streams, cmp);
        if outcome.Err? {
          assert false;
          return heap, outcome;
        }
        pushed := pushed + {index};
      }
    }
    assert pushed == Fronts(streams);
    r := Ok(());
  }

  lemma EmptyHeap<T>(cmp: Comparator<T>, streams: seq<seq<T>>)
    ensures HeapOrdered(cmp, streams, [])
  {
  }

  lemma LiveWith<T>(streams: seq<seq<T>>, nodes: seq<nat>, names: set<nat>, index: nat)
    requires multiset(nodes) == multiset(names)
    requires forall x :: x in names ==> x < |streams| && streams[x] != []
    requires index < |streams| && streams[index] != []
    ensures Live(streams, nodes + [index])
  {
    forall x | x in nodes + [index] ensures x < |streams| && streams[x] != [] {
      assert x in nodes <==> x in multiset(nodes);
    }
  }

  /**
   One turn of the merge loop: the least front leaves its stream, which rejoins
   the heap unless it is used up. Neither heap operation can fail here.
   */
  method TakeFront<T(!new)>(
    heap: IndexHeap, streams: seq<seq<T>>, cmp: Comparator<T>, ghost chunks: seq<seq<T>>, ghost output: seq<T>,
    ghost taken: seq<nat>, ghost order: seq<nat>)
    returns (item: T, streams': seq<seq<T>>, ghost taken': seq<nat>, ghost order': seq<nat>)
    requires TotalPreorder(cmp) && heap.nodes != []
    requires forall c :: 0 <= c < |chunks| ==> SortedChunk(cmp, chunks[c])
    requires HeapOrdered(cmp, streams, heap.nodes)
    requires MergeInv(cmp, chunks, streams, heap.nodes, output, taken, order)
    modifies heap
    ensures HeapOrdered(cmp, streams', heap.nodes)
    ensures MergeInv(cmp, chunks, streams', heap.nodes, output + [item], taken', order')
    ensures |Flatten(streams')| < |Flatten(streams)|
  {
    hide TotalPreorder, SortedChunk, MergeInv, HeapOrdered, Live, Fronts, Merging, Above, Flatten;
    ghost var before := heap.nodes;
    MergeInvRoot(cmp, chunks, streams, before, output, taken, order);
    var popped := heap.Pop(streams, cmp);
    var stream := popped.value;
    item := streams[stream][0];
    streams' := streams[stream := streams[stream][1..]];
    FlattenShrinks(streams, stream);
    taken', order' := MergeAdvance(cmp, chunks, streams, before, heap.nodes, output, taken, order);
    FrontChangeKeepsHeap(cmp, streams, heap.nodes, stream, streams[stream][1..]);
    if streams'[stream] != [] {
      ghost var rest := heap.nodes;
      var pushed := heap.Push(stream, streams', cmp);
      SameNodes(cmp, chunks, streams', rest + [stream], heap.nodes, output + [item], taken', order');
    }
  }

  /** Merging sorted chunks yields the stable sort of their concatenation, or reports a cancellation it saw. */
  method MergeSortedChunks<T(!new)>(chunks: seq<seq<T>>, cmp: Comparator<T>, operation: Operation)
    returns (r: Result<seq<T>, SortError>)
    requires TotalPreorder(cmp)
    requires forall c :: 0 <= c < |chunks| ==> SortedChunk(cmp, chunks[c])
    requires !operation.observed
    modifies operation
    ensures r.Ok? ==> IsStableSort(cmp, Flatten(chunks), r.value)
    ensures r == Err(Cancelled) <==> operation.observed
    ensures r.Err? ==> r.error == Cancelled || r.error == Invariant
    ensures r == Err(Invariant) <==> |chunks| != 1 && |Flatten(chunks)| > WORD_MAX
  {
    if |chunks| == 1 {
      SingleChunk(cmp, chunks);
      return Ok(chunks[0]);
    }
    hide TotalPreorder, SortedChunk, IsStableSort, MergeInv, HeapOrdered, Live, Fronts, Merging, Above, Flatten;
    var total := TotalLength(chunks);
    if total.None? { return Err(Invariant); }
    var _ :- operation.Check();
    var streams := chunks;
    var heap, built := BuildHeap(streams, cmp);
    var output: seq<T> := [];
    ghost var taken: seq<nat> := seq(|chunks|, c => 0);
    ghost var order: seq<nat> := [];
    MergeInvStart(cmp, chunks, heap.nodes);
    while heap.nodes != []
      invariant fresh(heap)
      invariant !operation.observed
      invariant HeapOrdered(cmp, streams, heap.nodes)
      invariant MergeInv(cmp, chunks, streams, heap.nodes, output, taken, order)
      decreases |Flatten(streams)|
    {
      if output != [] && |output| % MERGE_CANCEL_ITEMS == 0 {
        var _ :- operation.Check();
      }
      var item;
      item, streams, taken, order := TakeFront(heap, streams, cmp, chunks, output, taken, order);
      output := output + [item];
    }
    MergeInvDone(cmp, chunks, streams, output, taken, order);
    var _ :- operation.Check();
    r := Ok(output);
  }

  /** The merge loop's state: nodes are the live streams, output is what was merged. */
  ghost predicate MergeInv<T>(
    cmp: Comparator<T>, chunks: seq<seq<T>>, streams: seq<seq<T>>, nodes: seq<nat>, output: seq<T>,
    taken: seq<nat>, order: seq<nat>)
  {
    && multiset(nodes) == multiset(Fronts(streams))
    && Merging(cmp, chunks, taken, order)
    && streams == Remaining(chunks, taken)
    && output == Select(Flatten(chunks), order)
  }

  lemma MergeInvStart<T>(cmp: Comparator<T>, chunks: seq<seq<T>>, nodes: seq<nat>)
    requires multiset(nodes) == multiset(Fronts(chunks))
    ensures MergeInv(cmp, chunks, chunks, nodes, [], seq(|chunks|, c => 0), [])
  {
    MergeStart(cmp, chunks);
  }

  lemma MergeInvRoot<T(!new)>(
    cmp: Comparator<T>, chunks: seq<seq<T>>, streams: seq<seq<T>>, nodes: seq<nat>, output: seq<T>,
    taken: seq<nat>, order: seq<nat>)
    requires MergeInv(cmp, chunks, streams, nodes, output, taken, order) && nodes != []
    ensures Live(streams, nodes) && nodes[0] < |streams| && streams[nodes[0]] != []
  {
    hide Merging, Fronts;
    NodesAreFronts(streams, nodes);
    assert nodes[0] in nodes;
  }

  lemma MergeAdvance<T(!new)>(
    cmp: Comparator<T>, chunks: seq<seq<T>>, streams: seq<seq<T>>, nodes: seq<nat>, rest: seq<nat>, output: seq<T>,
    taken: seq<nat>, order: seq<nat>) returns (taken': seq<nat>, order': seq<nat>)
    requires TotalPreorder(cmp)
    requires forall c :: 0 <= c < |chunks| ==> SortedChunk(cmp, chunks[c])
    requires MergeInv(cmp, chunks, streams, nodes, output, taken, order)
    requires nodes != [] && HeapOrdered(cmp, streams, nodes)
    requires nodes[0] < |streams| && streams[nodes[0]] != []
    requires multiset(rest) == multiset(nodes) - multiset{nodes[0]}
    ensures nodes[0] !in rest
    ensures var c := nodes[0];
      var streams', output' := streams[c := streams[c][1..]], output + [streams[c][0]];
      if streams'[c] == [] then MergeInv(cmp, chunks, streams', rest, output', taken', order')
      else MergeInv(cmp, chunks, streams', rest + [c], output', taken', order') && Live(streams', rest + [c])
  {
    hide TotalPreorder, SortedChunk, Merging, HeapOrdered, Fronts, Live, Above;
    var c := nodes[0];
    var streams' := streams[c := streams[c][1..]];
    RootIsLeastFront(cmp, streams, nodes);
    MergingIsInside(cmp, chunks, taken, order);
    FrontTaken(streams, nodes, c, rest);
    MergeStep(cmp, chunks, taken, order, c);
    RemainingStep(chunks, taken, c);
    PositionIsInside(chunks, c, taken[c]);
    taken', order' := taken[c := taken[c] + 1], order + [Position(chunks, c, taken[c])];
    MergingIsInside(cmp, chunks, taken', order');
    assert output + [streams[c][0]] == Select(Flatten(chunks), order');
    if streams'[c] != [] { LiveAgain(streams', rest, c); }
  }

  lemma SameNodes<T>(
    cmp: Comparator<T>, chunks: seq<seq<T>>, streams: seq<seq<T>>, before: seq<nat>, nodes: seq<nat>, output: seq<T>,
    taken: seq<nat>, order: seq<nat>)
    requires multiset(before) == multiset(nodes) && MergeInv(cmp, chunks, streams, before, output, taken, order)
    ensures MergeInv(cmp, chunks, streams, nodes, output, taken, order)
  {
  }

  lemma MergeInvDone<T>(
    cmp: Comparator<T>, chunks: seq<seq<T>>, streams: seq<seq<T>>, output: seq<T>, taken: seq<nat>, order: seq<nat>)
    requires MergeInv(cmp, chunks, streams, [], output, taken, order)
    ensures IsStableSort(cmp, Flatten(chunks), output)
  {
    NodesAreFronts(streams, []);
    assert Fronts(streams) == {};
    AllTaken(chunks, taken);
    MergeDone(cmp, chunks, taken, order);
  }

  lemma AllTaken<T>(chunks: seq<seq<T>>, taken: seq<nat>)
    requires Bounded(chunks, taken) && Fronts(Remaining(chunks, taken)) == {}
    ensures forall c :: 0 <= c < |chunks| ==> taken[c] == |chunks[c]|
  {
    forall c | 0 <= c < |chunks| ensures taken[c] == |chunks[c]| {
      assert c !in Fronts(Remaining(chunks, taken));
    }
  }

  lemma MergingIsInside<T>(cmp: Comparator<T>, chunks: seq<seq<T>>, taken: seq<nat>, order: seq<nat>)
    requires Merging(cmp, chunks, taken, order)
    ensures Bounded(chunks, taken) && Inside(chunks, order)
  {
  }

  lemma LiveAgain<T>(streams: seq<seq<T>>, nodes: seq<nat>, c: nat)
    requires c < |streams| && streams[c] != []
    requires multiset(nodes) + multiset{c} == multiset(Fronts(streams))
    ensures Live(streams, nodes + [c])
  {
    assert multiset(nodes + [c]) == multiset(Fronts(streams));
    NodesAreFronts(streams, nodes + [c]);
  }

  lemma SingleChunk<T>(cmp: Comparator<T>, chunks: seq<seq<T>>)
    requires |chunks| == 1 && SortedChunk(cmp, chunks[0])
    ensures IsStableSort(cmp, Flatten(chunks), chunks[0])
  {
    assert Flatten(chunks) == chunks[0] by { assert Flatten(chunks[..0]) == []; }
    var order := seq(|chunks[0]|, k requires 0 <= k < |chunks[0]| => k);
    assert forall i: nat :: i < |chunks[0]| ==> order[i] == i;
    assert chunks[0] == Select(chunks[0], order);
    forall j, k | 0 <= j < k < |order| ensures Before(cmp, chunks[0], order[j], order[k]) {
      assert cmp(chunks[0][j], chunks[0][k]) != Greater;
    }
    assert Covers(order, |chunks[0]|) by {
      forall i: nat | i < |chunks[0]| ensures i in order { assert order[i] == i; }
    }
    assert Sorts(cmp, chunks[0], order);
  }

  // ----- sorting with spawned and inline chunks

  /** What one wait on the result channel returns. Past the end of the sequence every sender is gone. */
  datatype Arrival = Timeout | Finished(chunk: nat) | Failed(error: SortError)

  /** Each spawned worker sends at most one message, for its own chunk. */
  ghost predicate Faithful(arrivals: seq<Arrival>, spawned: nat -> bool, chunkCount: nat) {
    && (forall a :: 0 <= a < |arrivals| && arrivals[a].Finished? ==>
          1 <= arrivals[a].chunk < chunkCount && spawned(arrivals[a].chunk))
    && (forall a, b :: 0 <= a < b < |arrivals| && arrivals[a].Finished? && arrivals[b].Finished? ==>
          arrivals[a].chunk != arrivals[b].chunk)
    && (forall a :: 0 <= a < |arrivals| && arrivals[a].Failed? ==>
          arrivals[a].error == Cancelled || arrivals[a].error == WorkerPanicked)
  }

  /** Number of fixed-size chunks of `n` items. */
  function ChunkCount(n: nat): nat {
    if n % SORT_CHUNK_ITEMS == 0 then n / SORT_CHUNK_ITEMS else n / SORT_CHUNK_ITEMS + 1
  }

  method SplitChunks<T>(items: seq<T>) returns (chunks: seq<seq<T>>)
    ensures Flatten(chunks) == items && |chunks| == ChunkCount(|items|)
    ensures forall c :: 0 <= c < |chunks| ==> 0 < |chunks[c]| <= SORT_CHUNK_ITEMS
    ensures |items| <= 4096 * |chunks| < |items| + 4096
    ensures forall c :: 0 <= c < |chunks| - 1 ==> |chunks[c]| == 4096
  {
    chunks := [];
    var start := 0;
    while start < |items|
      invariant start <= |items|
      invariant start == if SORT_CHUNK_ITEMS * |chunks| <= |items| then SORT_CHUNK_ITEMS * |chunks| else |items|
      invariant SORT_CHUNK_ITEMS * |chunks| < |items| + SORT_CHUNK_ITEMS
      invariant Flatten(chunks) == items[..start]
      invariant forall c :: 0 <= c < |chunks| ==> 0 < |chunks[c]| <= SORT_CHUNK_ITEMS
      invariant start < |items| ==> forall c :: 0 <= c < |chunks| ==> |chunks[c]| == 4096
      invariant forall c :: 0 <= c < |chunks| - 1 ==> |chunks[c]| == 4096
    {
      var end := Min(start + SORT_CHUNK_ITEMS, |items|);
      ghost var before := chunks;
      chunks := chunks + [items[start..end]];
      assert chunks[..|chunks| - 1] == before;
      assert items[..start] + items[start..end] == items[..end];
      start := end;
    }
    assert items[..start] == items;
  }

  /** `sort_by` on one chunk, with a cancellation check before and after. */
  method SortInlineChunk<T>(chunk: seq<T>, cmp: Comparator<T>, operation: Operation) returns (r: Result<seq<T>, SortError>)
    requires !operation.observed
    modifies operation
    ensures r == (if operation.observed then Err(Cancelled) else Ok(StableSort(cmp, chunk)))
  {
    var _ :- operation.Check();
    var sorted := StableSort(cmp, chunk);
    var _ :- operation.Check();
    r := Ok(sorted);
  }

  /** Every chunk has been sorted into its own place. */
  ghost predicate Filled<T>(cmp: Comparator<T>, chunks: seq<seq<T>>, sorted: seq<Option<seq<T>>>, have: set<nat>) {
    && |sorted| == |chunks|
    && (forall c :: c in have ==> c < |chunks|)
    && (forall c :: 0 <= c < |chunks| ==>
          sorted[c] == if c in have then Some(StableSort(cmp, chunks[c])) else None)
  }

  ghost predicate AllFilled<T>(cmp: Comparator<T>, chunks: seq<seq<T>>, sorted: seq<Option<seq<T>>>) {
    && |sorted| == |chunks|
    && (forall c :: 0 <= c < |chunks| ==> sorted[c] == Some(StableSort(cmp, chunks[c])))
  }

  /** The chunks sorted on the calling thread: the first, and those not spawned. */
  ghost function Inline(spawned: nat -> bool, n: nat): set<nat> {
    set c: nat | c < n && (c == 0 || !spawned(c))
  }

  /** Decides chunk by chunk what is spawned, checking for cancellation before each decision. */
  method PlaceChunks(chunkCount: nat, spawned: nat -> bool, operation: Operation)
    returns (r: Result<(nat, nat), SortError>)
    requires !operation.observed && chunkCount > 0
    modifies operation
    ensures r == Err(Cancelled) <==> operation.observed
    ensures r.Err? ==> r.error == Cancelled
    ensures r.Ok? ==> r.value.0 == |Inline(spawned, chunkCount)| && r.value.0 + r.value.1 == chunkCount
  {
    var inlineCount, spawnedCount := 1, 0;
    assert Inline(spawned, 1) == {0};
    for c := 1 to chunkCount
      invariant !operation.observed
      invariant inlineCount == |Inline(spawned, c)| && inlineCount + spawnedCount == c
    {
      var _ :- operation.Check();
      if spawned(c) {
        assert Inline(spawned, c + 1) == Inline(spawned, c);
        spawnedCount := spawnedCount + 1;
      } else {
        assert Inline(spawned, c + 1) == Inline(spawned, c) + {c};
        inlineCount := inlineCount + 1;
      }
    }
    r := Ok((inlineCount, spawnedCount));
  }

  /** Sorts the chunks that were not spawned; the first one never is. */
  method SortInlineChunks<T>(chunks: seq<seq<T>>, spawned: nat -> bool, cmp: Comparator<T>, operation: Operation)
    returns (r: Result<seq<Option<seq<T>>>, SortError>)
    requires !operation.observed && chunks != []
    modifies operation
    ensures r == Err(Cancelled) <==> operation.observed
    ensures r.Err? ==> r.error == Cancelled
    ensures r.Ok? ==> Filled(cmp, chunks, r.value, Inline(spawned, |chunks|))
  {
    var sorted: seq<Option<seq<T>>> := seq(|chunks|, c => None);
    for c := 0 to |chunks|
      invariant !operation.observed
      invariant Filled(cmp, chunks, sorted, Inline(spawned, c))
    {
      if c == 0 || !spawned(c) {
        var chunk :- SortInlineChunk(chunks[c], cmp, operation);
        assert Inline(spawned, c + 1) == Inline(spawned, c) + {c};
        FillOne(cmp, chunks, sorted, Inline(spawned, c), c);
        sorted := sorted[c := Some(chunk)];
      } else {
        assert Inline(spawned, c + 1) == Inline(spawned, c);
      }
    }
    r := Ok(sorted);
  }

  lemma FillOne<T>(cmp: Comparator<T>, chunks: seq<seq<T>>, sorted: seq<Option<seq<T>>>, have: set<nat>, c: nat)
    requires Filled(cmp, chunks, sorted, have) && c < |chunks|
    ensures Filled(cmp, chunks, sorted[c := Some(StableSort(cmp, chunks[c]))], have + {c})
  {
  }

  /** The chunks whose results have arrived among the first `n` messages. */
  ghost function Arrived(arrivals: seq<Arrival>, n: nat): set<nat>
    requires n <= |arrivals|
  {
    set a | 0 <= a < n && arrivals[a].Finished? :: arrivals[a].chunk
  }

  lemma ArrivedNone(arrivals: seq<Arrival>)
    ensures Arrived(arrivals, 0) == {}
  {
  }

  lemma ArrivedNext(arrivals: seq<Arrival>, n: nat)
    requires n < |arrivals|
    ensures Arrived(arrivals, n + 1)
         == Arrived(arrivals, n) + if arrivals[n].Finished? then {arrivals[n].chunk} else {}
  {
  }

  /** A set of numbers below `n` with fewer than `n` members misses one of them. */
  lemma {:induction false} SomeMissing(n: nat, s: set<nat>) returns (c: nat)
    requires (forall c :: c in s ==> c < n) && |s| < n
    ensures c < n && c !in s
  {
    if n - 1 !in s {
      c := n - 1;
    } else {
      c := SomeMissing(n - 1, s - {n - 1});
    }
  }

  lemma {:induction false} NoneMissing(n: nat, s: set<nat>)
    requires (forall c :: c in s ==> c < n) && |s| >= n
    ensures forall c: nat :: c < n ==> c in s
  {
    forall c: nat | c < n ensures c in s {
      if c !in s { TooMany(n, s + {c}); }
    }
  }

  lemma {:induction false} TooMany(n: nat, s: set<nat>)
    requires forall c :: c in s ==> c < n
    ensures |s| <= n
  {
    if n == 0 {
      assert s == {};
    } else {
      TooMany(n - 1, s - {n - 1});
    }
  }

  lemma NeverArrived<T>(chunks: seq<seq<T>>, spawned: nat -> bool, arrivals: seq<Arrival>, c: nat)
    requires c < |chunks| && c !in Inline(spawned, |chunks|) + Arrived(arrivals, |arrivals|)
    ensures spawned(c) && Finished(c) !in arrivals
  {
    forall a | 0 <= a < |arrivals| && arrivals[a].Finished?
      ensures arrivals[a].chunk in Arrived(arrivals, |arrivals|)
    {
    }
    assert Finished(c) !in arrivals;
  }

  /** A message that arrives now is for a chunk that has not been filled yet. */
  lemma NewArrival(arrivals: seq<Arrival>, spawned: nat -> bool, chunkCount: nat, next: nat)
    requires Faithful(arrivals, spawned, chunkCount) && next < |arrivals| && arrivals[next].Finished?
    ensures arrivals[next].chunk < chunkCount
    ensures arrivals[next].chunk !in Inline(spawned, chunkCount) + Arrived(arrivals, next)
  {
  }

  /** Collects the spawned chunks in whatever order they arrive. */
  method ReceiveChunks<T>(
    chunks: seq<seq<T>>, spawned: nat -> bool, arrivals: seq<Arrival>, cmp: Comparator<T>, operation: Operation,
    inline: seq<Option<seq<T>>>, inlineCount: nat, spawnedCount: nat) returns (r: Result<seq<Option<seq<T>>>, SortError>)
    requires !operation.observed && Faithful(arrivals, spawned, |chunks|)
    requires Filled(cmp, chunks, inline, Inline(spawned, |chunks|))
    requires inlineCount == |Inline(spawned, |chunks|)| && inlineCount + spawnedCount == |chunks|
    modifies operation
    ensures operation.observed ==> r == Err(Cancelled)
    ensures r.Ok? ==> AllFilled(cmp, chunks, r.value)
    ensures r.Err? ==> r.error != Invariant
    ensures r == Err(Cancelled) ==> operation.observed || Failed(Cancelled) in arrivals
    ensures r == Err(WorkerPanicked) ==> Failed(WorkerPanicked) in arrivals
    ensures r == Err(WorkerDisconnected) ==>
              exists c: nat :: c < |chunks| && spawned(c) && Finished(c) !in arrivals
  {
    hide Filled, AllFilled, Faithful, Inline, StableSort, Arrived;
    ArrivedNone(arrivals);
    var sorted := inline;
    ghost var got := Inline(spawned, |chunks|);
    var received := inlineCount;
    var next := 0;
    assert got + Arrived(arrivals, 0) == got;
    while received < inlineCount + spawnedCount
      invariant !operation.observed
      invariant next <= |arrivals|
      invariant got == Inline(spawned, |chunks|) + Arrived(arrivals, next) && received == |got|
      invariant Filled(cmp, chunks, sorted, got)
      decreases |arrivals| - next
    {
      var _ :- operation.Check();
      FilledFacts(cmp, chunks, sorted, got);
      if next == |arrivals| {
        ghost var c := SomeMissing(|chunks|, got);
        NeverArrived(chunks, spawned, arrivals, c);
        return Err(WorkerDisconnected);
      }
      ArrivedNext(arrivals, next);
      match arrivals[next] {
        case Timeout =>
        case Failed(error) =>
          FailureCause(arrivals, spawned, |chunks|, next);
          return Err(error);
        case Finished(chunk) =>
          NewArrival(arrivals, spawned, |chunks|, next);
          if chunk >= |sorted| || sorted[chunk].Some? {
            assert false;
            return Err(Invariant);
          }
          FillOne(cmp, chunks, sorted, got, chunk);
          sorted := sorted[chunk := Some(StableSort(cmp, chunks[chunk]))];
          got := got + {chunk};
          received := received + 1;
      }
      next := next + 1;
    }
    FilledFacts(cmp, chunks, sorted, got);
    NoneMissing(|chunks|, got);
    FilledUp(cmp, chunks, sorted, got);
    r := Ok(sorted);
  }

  lemma FailureCause(arrivals: seq<Arrival>, spawned: nat -> bool, chunkCount: nat, next: nat)
    requires Faithful(arrivals, spawned, chunkCount) && next < |arrivals| && arrivals[next].Failed?
    ensures arrivals[next].error == Cancelled || arrivals[next].error == WorkerPanicked
    ensures arrivals[next] in arrivals
  {
  }

  lemma FilledFacts<T>(cmp: Comparator<T>, chunks: seq<seq<T>>, sorted: seq<Option<seq<T>>>, have: set<nat>)
    requires Filled(cmp, chunks, sorted, have)
    ensures |sorted| == |chunks|
    ensures forall c :: c in have ==> c < |chunks|
    ensures forall c :: 0 <= c < |chunks| && c !in have ==> sorted[c] == None
  {
  }

  lemma FilledUp<T>(cmp: Comparator<T>, chunks: seq<seq<T>>, sorted: seq<Option<seq<T>>>, have: set<nat>)
    requires Filled(cmp, chunks, sorted, have) && forall c: nat :: c < |chunks| ==> c in have
    ensures AllFilled(cmp, chunks, sorted)
  {
  }

  /**
   The whole sort. Whatever is spawned, whenever results arrive and wherever
   cancellation strikes, the outcome is the stable sort or an error with a
   cause; the `Invariant` error cannot occur.
   */
  method SortCancelable<T(!new)>(
    items: seq<T>, cmp: Comparator<T>, operation: Operation, spawned: nat -> bool, arrivals: seq<Arrival>)
    returns (r: Result<seq<T>, SortError>)
    requires TotalPreorder(cmp) && |items| <= WORD_MAX
    requires !operation.observed && Faithful(arrivals, spawned, ChunkCount(|items|))
    modifies operation
    ensures r.Ok? ==> r.value == StableSort(cmp, items)
    ensures r != Err(Invariant)
    ensures operation.observed ==> r == Err(Cancelled)
    ensures r == Err(Cancelled) ==> operation.observed || Failed(Cancelled) in arrivals
    ensures r == Err(WorkerPanicked) ==> Failed(WorkerPanicked) in arrivals
    ensures r == Err(WorkerDisconnected) ==>
              exists c: nat :: c < ChunkCount(|items|) && spawned(c) && Finished(c) !in arrivals
  {
    hide TotalPreorder, IsStableSort, Faithful;
    var _ :- operation.Check();
    if |items| <= SORT_CHUNK_ITEMS {
      r := SortInlineChunk(items, cmp, operation);
      return;
    }
    var chunks := SplitChunks(items);
    var counts :- PlaceChunks(|chunks|, spawned, operation);
    var inline :- SortInlineChunks(chunks, spawned, cmp, operation);
    var slots :- ReceiveChunks(chunks, spawned, arrivals, cmp, operation, inline, counts.0, counts.1);
    var _ :- operation.Check();
    var sorted := seq(|slots|, c requires 0 <= c < |slots| => slots[c].value);
    SortedChunks(cmp, chunks, sorted);
    r := MergeSortedChunks(sorted, cmp, operation);
    if r.Ok? {
      SortedPieces(cmp, chunks, sorted, r.value);
      StableSortIsStable(cmp, items);
      StableSortUnique(cmp, items, r.value, StableSort(cmp, items));
    }
  }

  lemma SortedChunks<T(!new)>(cmp: Comparator<T>, chunks: seq<seq<T>>, sorted: seq<seq<T>>)
    requires TotalPreorder(cmp) && |sorted| == |chunks|
    requires forall c :: 0 <= c < |chunks| ==> sorted[c] == StableSort(cmp, chunks[c])
    ensures forall c :: 0 <= c < |chunks| ==> IsStableSort(cmp, chunks[c], sorted[c]) && SortedChunk(cmp, sorted[c])
    ensures |Flatten(sorted)| == |Flatten(chunks)|
  {
    hide TotalPreorder;
    forall c | 0 <= c < |chunks| ensures IsStableSort(cmp, chunks[c], sorted[c]) && SortedChunk(cmp, sorted[c]) {
      StableSortIsStable(cmp, chunks[c]);
      StableIsSorted(cmp, chunks[c], sorted[c]);
    }
    SameLength(cmp, chunks, sorted);
  }

  lemma {:induction false} SameLength<T>(cmp: Comparator<T>, chunks: seq<seq<T>>, sorted: seq<seq<T>>)
    requires |sorted| == |chunks|
    requires forall c :: 0 <= c < |chunks| ==> IsStableSort(cmp, chunks[c], sorted[c])
    ensures |Flatten(sorted)| == |Flatten(chunks)|
  {
    if chunks != [] {
      var n := |chunks| - 1;
      StableSortIsPermutation(cmp, chunks[n], sorted[n]);
      SameLength(cmp, chunks[..n], sorted[..n]);
    }
  }

  lemma StableIsSorted<T(!new)>(cmp: Comparator<T>, xs: seq<T>, ys: seq<T>)
    requires TotalPreorder(cmp) && IsStableSort(cmp, xs, ys)
    ensures SortedChunk(cmp, ys)
  {
    var order :| Sorts(cmp, xs, order) && ys == Select(xs, order);
    forall i, j | 0 <= i < j < |ys| ensures cmp(ys[i], ys[j]) != Greater {
      assert Before(cmp, xs, order[i], order[j]);
    }
  }

  /** Sorting the concatenation of sorted chunks is sorting the concatenation of the chunks. */
  lemma SortedPieces<T(!new)>(cmp: Comparator<T>, chunks: seq<seq<T>>, sorted: seq<seq<T>>, ys: seq<T>)
    requires |sorted| == |chunks|
    requires forall c :: 0 <= c < |chunks| ==> IsStableSort(cmp, chunks[c], sorted[c])
    requires IsStableSort(cmp, Flatten(sorted), ys)
    ensures IsStableSort(cmp, Flatten(chunks), ys)
  {
    var order := FlattenKeepsTies(cmp, chunks, sorted);
    SortAfterRearranging(cmp, Flatten(chunks), order, ys);
  }
}

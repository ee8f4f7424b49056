/**
 Serial and parallel collection of a directory walk, after `traversal.rs`.
 Workers gather entries in local batches and flush them into a shared result;
 which worker gets which entry, and when it flushes, is arbitrary.
 */
module TraversalWalk {
  import opened Wrappers
  import opened SkipReports

  const TRAVERSAL_BATCH_ITEMS: nat := 256

  /** What evaluating one walked entry gives; a walk error is not an entry. */
  datatype Outcome<+T, +K> =
    | Found(item: T)
    | Nothing
    | Failed(failure: Failure<K>)
    | WalkError(failures: seq<Failure<K>>)

  function ItemsOf<T, K>(outcomes: seq<Outcome<T, K>>): seq<T> {
    if outcomes == [] then []
    else ItemsOf(outcomes[..|outcomes| - 1]) + (if outcomes[|outcomes| - 1].Found? then [outcomes[|outcomes| - 1].item] else [])
  }

  function FailuresIn<T, K>(outcome: Outcome<T, K>): seq<Failure<K>> {
    match outcome
    case Failed(failure) => [failure]
    case WalkError(failures) => failures
    case _ => []
  }

  function FailuresOf<T, K>(outcomes: seq<Outcome<T, K>>): seq<Failure<K>> {
    if outcomes == [] then [] else FailuresOf(outcomes[..|outcomes| - 1]) + FailuresIn(outcomes[|outcomes| - 1])
  }

  function EntriesIn<T, K>(outcomes: seq<Outcome<T, K>>): nat {
    if outcomes == [] then 0
    else EntriesIn(outcomes[..|outcomes| - 1]) + (if outcomes[|outcomes| - 1].WalkError? then 0 else 1)
  }

  // ----- counting is insensitive to order

  lemma {:induction false} ItemsOfAppend<T, K>(a: seq<Outcome<T, K>>, b: seq<Outcome<T, K>>)
    ensures ItemsOf(a + b) == ItemsOf(a) + ItemsOf(b)
  {
    if b == [] {
      assert a + b == a;
    } else {
      assert (a + b)[..|a + b| - 1] == a + b[..|b| - 1];
      ItemsOfAppend(a, b[..|b| - 1]);
    }
  }

  lemma {:induction false} FailuresOfAppend<T, K>(a: seq<Outcome<T, K>>, b: seq<Outcome<T, K>>)
    ensures FailuresOf(a + b) == FailuresOf(a) + FailuresOf(b)
  {
    if b == [] {
      assert a + b == a;
    } else {
      assert (a + b)[..|a + b| - 1] == a + b[..|b| - 1];
      hide FailuresIn;
      FailuresOfAppend(a, b[..|b| - 1]);
    }
  }

  lemma {:induction false} EntriesInAppend<T, K>(a: seq<Outcome<T, K>>, b: seq<Outcome<T, K>>)
    ensures EntriesIn(a + b) == EntriesIn(a) + EntriesIn(b)
  {
    if b == [] {
      assert a + b == a;
    } else {
      assert (a + b)[..|a + b| - 1] == a + b[..|b| - 1];
      EntriesInAppend(a, b[..|b| - 1]);
    }
  }

  lemma OfAppend<T, K>(a: seq<Outcome<T, K>>, b: seq<Outcome<T, K>>)
    ensures ItemsOf(a + b) == ItemsOf(a) + ItemsOf(b)
    ensures FailuresOf(a + b) == FailuresOf(a) + FailuresOf(b)
    ensures EntriesIn(a + b) == EntriesIn(a) + EntriesIn(b)
  {
    hide *;
    ItemsOfAppend(a, b);
    FailuresOfAppend(a, b);
    EntriesInAppend(a, b);
  }

  /** Two lists of outcomes yield the same items, failures and entries, up to order. */
  ghost predicate Alike<T, K>(a: seq<Outcome<T, K>>, b: seq<Outcome<T, K>>) {
    && multiset(ItemsOf(a)) == multiset(ItemsOf(b))
    && multiset(FailuresOf(a)) == multiset(FailuresOf(b))
    && EntriesIn(a) == EntriesIn(b)
  }

  lemma AlikeMoved<T, K>(front: seq<Outcome<T, K>>, x: Outcome<T, K>, back: seq<Outcome<T, K>>)
    ensures Alike(front + back + [x], front + [x] + back)
  {
    hide ItemsOf, FailuresOf, EntriesIn;
    OfAppend(front + back, [x]);
    OfAppend(front, back);
    OfAppend(front + [x], back);
    OfAppend(front, [x]);
  }

  lemma AlikeExtended<T, K>(a: seq<Outcome<T, K>>, b: seq<Outcome<T, K>>, x: Outcome<T, K>)
    requires Alike(a, b)
    ensures Alike(a + [x], b + [x])
  {
    hide ItemsOf, FailuresOf, EntriesIn;
    OfAppend(a, [x]);
    OfAppend(b, [x]);
  }

  lemma TakeOut<X>(b: seq<X>, x: X) returns (front: seq<X>, back: seq<X>)
    requires x in multiset(b)
    ensures b == front + [x] + back && multiset(front + back) == multiset(b) - multiset{x}
  {
    var k :| 0 <= k < |b| && b[k] == x;
    front, back := b[..k], b[k + 1..];
    assert b == front + [x] + back;
  }

  lemma LastApart<X>(a: seq<X>)
    requires a != []
    ensures a == a[..|a| - 1] + [a[|a| - 1]]
    ensures multiset(a[..|a| - 1]) == multiset(a) - multiset{a[|a| - 1]} && a[|a| - 1] in multiset(a)
  {
    assert a == a[..|a| - 1] + [a[|a| - 1]];
  }

  lemma {:induction false} OfPermutation<T, K>(a: seq<Outcome<T, K>>, b: seq<Outcome<T, K>>)
    requires multiset(a) == multiset(b)
    ensures Alike(a, b)
  {
    if a == [] {
      assert |multiset(b)| == |b| && |multiset(a)| == |a|;
      return;
    }
    hide *;
    var x := a[|a| - 1];
    LastApart(a);
    var front, back := TakeOut(b, x);
    OfPermutation(a[..|a| - 1], front + back);
    AlikeExtended(a[..|a| - 1], front + back, x);
    AlikeMoved(front, x, back);
    AlikeTransitive(a, front + back + [x], b);
  }

  lemma AlikeTransitive<T, K>(a: seq<Outcome<T, K>>, b: seq<Outcome<T, K>>, c: seq<Outcome<T, K>>)
    requires Alike(a, b) && Alike(b, c)
    ensures Alike(a, c)
  {
  }

  /** What each kind of outcome adds: an item, nothing, one failure, or the failures of a walk error, which is no entry. */
  lemma {:induction false} OutcomeAdds<T, K>(outcomes: seq<Outcome<T, K>>, item: T, f: Failure<K>, fs: seq<Failure<K>>)
    ensures var found := outcomes + [Found(item)];
      ItemsOf(found) == ItemsOf(outcomes) + [item] && FailuresOf(found) == FailuresOf(outcomes)
      && EntriesIn(found) == EntriesIn(outcomes) + 1
    ensures var nothing := outcomes + [Nothing];
      ItemsOf(nothing) == ItemsOf(outcomes) && FailuresOf(nothing) == FailuresOf(outcomes)
      && EntriesIn(nothing) == EntriesIn(outcomes) + 1
    ensures var failed := outcomes + [Failed(f)];
      ItemsOf(failed) == ItemsOf(outcomes) && FailuresOf(failed) == FailuresOf(outcomes) + [f]
      && EntriesIn(failed) == EntriesIn(outcomes) + 1
    ensures var erred := outcomes + [WalkError(fs)];
      ItemsOf(erred) == ItemsOf(outcomes) && FailuresOf(erred) == FailuresOf(outcomes) + fs
      && EntriesIn(erred) == EntriesIn(outcomes)
    ensures ItemsOf<T, K>([]) == [] && FailuresOf<T, K>([]) == [] && EntriesIn<T, K>([]) == 0
  {
    AddOutcome(outcomes, Found(item));
    AddOutcome(outcomes, Nothing);
    AddOutcome(outcomes, Failed(f));
    AddOutcome(outcomes, WalkError(fs));
  }

  /** This failure was met: on its own, or inside a walk error. */
  ghost predicate Met<T, K>(outcomes: seq<Outcome<T, K>>, f: Failure<K>) {
    exists k :: 0 <= k < |outcomes| && (outcomes[k] == Failed(f) || (outcomes[k].WalkError? && f in outcomes[k].failures))
  }

  lemma {:induction false} FailuresAreMet<T, K>(outcomes: seq<Outcome<T, K>>, f: Failure<K>)
    ensures f in FailuresOf(outcomes) <==> Met(outcomes, f)
  {
    if outcomes != [] {
      var n := |outcomes| - 1;
      FailuresAreMet(outcomes[..n], f);
      assert f in FailuresIn(outcomes[n]) <==> outcomes[n] == Failed(f) || (outcomes[n].WalkError? && f in outcomes[n].failures);
      if Met(outcomes, f) && f !in FailuresIn(outcomes[n]) {
        var k :| 0 <= k < |outcomes|
          && (outcomes[k] == Failed(f) || (outcomes[k].WalkError? && f in outcomes[k].failures));
        assert outcomes[..n][k] == outcomes[k];
      }
      if Met(outcomes[..n], f) {
        var k :| 0 <= k < n
          && (outcomes[..n][k] == Failed(f) || (outcomes[..n][k].WalkError? && f in outcomes[..n][k].failures));
        assert outcomes[..n][k] == outcomes[k];
      }
    }
  }

  /** A report holds a failure exactly if it was met. */
  lemma RecordedIsMet<T, K(!new)>(outcomes: seq<Outcome<T, K>>, recorded: seq<Failure<K>>)
    requires multiset(recorded) == multiset(FailuresOf(outcomes))
    ensures forall f :: f in recorded <==> Met(outcomes, f)
  {
    SameMembers(recorded, FailuresOf(outcomes));
    hide FailuresOf, Met;
    forall f ensures f in recorded <==> Met(outcomes, f) { FailuresAreMet(outcomes, f); }
  }

  // ----- how a walk ends

  datatype Ending<+T> = Collected(items: seq<T>) | TooMany | RootUnreadable(message: string)

  predicate OverLimit<T, K>(limit: Option<nat>, outcomes: seq<Outcome<T, K>>) {
    limit.Some? && |ItemsOf(outcomes)| > limit.value
  }

  /** The ending a walk with these outcomes must have, and the report that goes with it. */
  ghost predicate EndsWith<T, K(!new)>(
    less: Less<K>, limit: Option<nat>, outcomes: seq<Outcome<T, K>>, ending: Ending<T>, skipped: SkippedPaths<K>)
    reads skipped
  {
    if OverLimit(limit, outcomes) then ending.TooMany?
    else
      && skipped.less == less && skipped.Valid()
      && multiset(skipped.recorded) == multiset(FailuresOf(outcomes))
      && (if EntriesIn(outcomes) == 0 && FailuresOf(outcomes) != [] then
            skipped.minimum.Some? && ending == RootUnreadable(skipped.minimum.value.1)
          else ending.Collected? && multiset(ending.items) == multiset(ItemsOf(outcomes)))
  }

  /** The message of some recorded failure that no other recorded failure ranks below. */
  ghost predicate LeastFailure<K>(less: Less<K>, recorded: seq<Failure<K>>, message: string) {
    exists f :: f in recorded && f.message == message && forall g :: g in recorded ==> !less(g.key, f.key)
  }

  /** `finish_collection`: a walk that never yielded an entry fails whole. */
  method FinishCollection<T, K(!new)>(items: seq<T>, skipped: SkippedPaths<K>, entriesSeen: nat) returns (ending: Ending<T>)
    requires skipped.Valid()
    ensures ending.RootUnreadable? <==> entriesSeen == 0 && skipped.recorded != []
    ensures ending.RootUnreadable? ==>
              skipped.minimum.Some? && ending.message == skipped.minimum.value.1 && LeastFailure(skipped.less, skipped.recorded, ending.message)
    ensures !ending.RootUnreadable? ==> ending == Collected(items)
  {
    ending := if entriesSeen == 0 && skipped.minimum.Some? then RootUnreadable(skipped.minimum.value.1) else Collected(items);
  }

  lemma EndsByParts<T, K(!new)>(
    less: Less<K>, limit: Option<nat>, outcomes: seq<Outcome<T, K>>, ending: Ending<T>, skipped: SkippedPaths<K>,
    items: seq<T>, entriesSeen: nat)
    requires !OverLimit(limit, outcomes) && skipped.less == less && skipped.Valid()
    requires multiset(skipped.recorded) == multiset(FailuresOf(outcomes)) && multiset(items) == multiset(ItemsOf(outcomes))
    requires entriesSeen == EntriesIn(outcomes)
    requires ending.RootUnreadable? <==> entriesSeen == 0 && skipped.recorded != []
    requires ending.RootUnreadable? ==> skipped.minimum.Some? && ending.message == skipped.minimum.value.1
    requires !ending.RootUnreadable? ==> ending == Collected(items)
    ensures EndsWith(less, limit, outcomes, ending, skipped)
  {
    assert |multiset(skipped.recorded)| == |skipped.recorded| && |multiset(FailuresOf(outcomes))| == |FailuresOf(outcomes)|;
  }

  method RecordAll<K(!new)>(skipped: SkippedPaths<K>, failures: seq<Failure<K>>)
    requires skipped.Valid()
    modifies skipped
    ensures skipped.Valid() && skipped.recorded == old(skipped.recorded) + failures
    ensures skipped.entries == ListedFrom(old(skipped.entries), failures)
    ensures skipped.beyondCap == TalliedFrom(old(skipped.entries), old(skipped.beyondCap), failures)
  {
    hide *;
    ListedFromNone(skipped.entries, skipped.beyondCap);
    for k := 0 to |failures|
      invariant skipped.Valid() && skipped.recorded == old(skipped.recorded) + failures[..k]
      invariant skipped.entries == ListedFrom(old(skipped.entries), failures[..k])
      invariant skipped.beyondCap == TalliedFrom(old(skipped.entries), old(skipped.beyondCap), failures[..k])
    {
      assert failures[..k + 1] == failures[..k] + [failures[k]];
      ListedFromNext(old(skipped.entries), failures[..k], failures[k]);
      TalliedFromNext(old(skipped.entries), old(skipped.beyondCap), failures[..k], failures[k]);
      skipped.Record(failures[k]);
    }
    assert failures[..|failures|] == failures;
  }

  lemma ListedFromNone<K>(entries: map<K, string>, beyondCap: nat)
    ensures ListedFrom(entries, []) == entries && TalliedFrom(entries, beyondCap, []) == beyondCap
  {
  }

  /** The serial walker: stops at the first item beyond the limit, and lists failures as they are met. */
  method CollectSerial<T, K(!new)>(less: Less<K>, limit: Option<nat>, outcomes: seq<Outcome<T, K>>)
    returns (ending: Ending<T>, skipped: SkippedPaths<K>)
    requires StrictTotalOrder(less) && |outcomes| <= WORD_MAX
    ensures EndsWith(less, limit, outcomes, ending, skipped)
    ensures !OverLimit(limit, outcomes) ==> (skipped.entries, skipped.beyondCap) == WalkReport(outcomes)
    ensures !OverLimit(limit, outcomes) ==> forall f :: f in skipped.recorded <==> Met(outcomes, f)
  {
    hide StrictTotalOrder, EntriesOk, MinimumOk, EndsWith, ItemsOf, FailuresOf, EntriesIn, SkippedPaths<K>.Valid, ListedFrom, TalliedFrom, Met;
    ListedFromNone<K>(map[], 0);
    skipped := new SkippedPaths(less);
    var items: seq<T> := [];
    var entriesSeen := 0;
    NoOutcomes<T, K>();
    for k := 0 to |outcomes|
      invariant fresh(skipped) && skipped.Valid() && skipped.less == less
      invariant items == ItemsOf(outcomes[..k]) && skipped.recorded == FailuresOf(outcomes[..k])
      invariant skipped.entries == ListedBy(FailuresOf(outcomes[..k]))
      invariant skipped.beyondCap == TalliedBy(FailuresOf(outcomes[..k]))
      invariant entriesSeen == EntriesIn(outcomes[..k]) <= k
      invariant !OverLimit(limit, outcomes[..k])
    {
      NextOutcome(outcomes, k);
      if !outcomes[k].WalkError? { entriesSeen := SaturatingAdd(entriesSeen, 1); }
      RecordAll(skipped, FailuresIn(outcomes[k]));
      ListedFromAppend(map[], FailuresOf(outcomes[..k]), FailuresIn(outcomes[k]));
      TalliedFromAppend(map[], 0, FailuresOf(outcomes[..k]), FailuresIn(outcomes[k]));
      if outcomes[k].Found? {
        if limit.Some? && |items| >= limit.value {
          MoreItems(outcomes, k + 1);
          ending := TooMany;
          OverLimitEnds(less, limit, outcomes, skipped);
          return;
        }
        items := items + [outcomes[k].item];
      }
    }
    assert outcomes[..|outcomes|] == outcomes;
    ending := FinishCollection(items, skipped, entriesSeen);
    EndsByParts(less, limit, outcomes, ending, skipped, items, entriesSeen);
    RecordedIsMet(outcomes, skipped.recorded);
  }

  lemma NoOutcomes<T, K>()
    ensures ItemsOf<T, K>([]) == [] && FailuresOf<T, K>([]) == [] && EntriesIn<T, K>([]) == 0
  {
  }

  lemma AddOutcome<T, K>(outcomes: seq<Outcome<T, K>>, outcome: Outcome<T, K>)
    ensures ItemsOf(outcomes + [outcome]) == ItemsOf(outcomes) + (if outcome.Found? then [outcome.item] else [])
    ensures FailuresOf(outcomes + [outcome]) == FailuresOf(outcomes) + FailuresIn(outcome)
    ensures EntriesIn(outcomes + [outcome]) == EntriesIn(outcomes) + (if outcome.WalkError? then 0 else 1)
  {
    assert (outcomes + [outcome])[..|outcomes|] == outcomes;
    hide FailuresIn;
  }

  lemma NextOutcome<T, K>(outcomes: seq<Outcome<T, K>>, k: nat)
    requires k < |outcomes|
    ensures ItemsOf(outcomes[..k + 1]) == ItemsOf(outcomes[..k]) + (if outcomes[k].Found? then [outcomes[k].item] else [])
    ensures FailuresOf(outcomes[..k + 1]) == FailuresOf(outcomes[..k]) + FailuresIn(outcomes[k])
    ensures EntriesIn(outcomes[..k + 1]) == EntriesIn(outcomes[..k]) + (if outcomes[k].WalkError? then 0 else 1)
  {
    assert outcomes[..k + 1] == outcomes[..k] + [outcomes[k]];
    AddOutcome(outcomes[..k], outcomes[k]);
    hide *;
  }

  lemma OverLimitEnds<T, K(!new)>(
    less: Less<K>, limit: Option<nat>, outcomes: seq<Outcome<T, K>>, skipped: SkippedPaths<K>)
    requires OverLimit(limit, outcomes)
    ensures EndsWith(less, limit, outcomes, TooMany, skipped)
  {
  }

  lemma MoreItems<T, K>(outcomes: seq<Outcome<T, K>>, k: nat)
    requires k <= |outcomes|
    ensures |ItemsOf(outcomes[..k])| <= |ItemsOf(outcomes)|
  {
    OfAppend(outcomes[..k], outcomes[k..]);
    assert outcomes == outcomes[..k] + outcomes[k..];
  }

  // ----- the parallel walker

  /** One step: a worker visits an entry, or flushes early. A worker that sees the stop flag quits. */
  datatype Event<+T, +K> =
    | Visit(worker: nat, outcome: Outcome<T, K>, heedsStop: bool)
    | Flush(worker: nat)

  /** The walked entries, in the order the events reach them. */
  function Visited<T, K>(events: seq<Event<T, K>>): seq<Outcome<T, K>> {
    if events == [] then []
    else Visited(events[..|events| - 1]) + (if events[|events| - 1].Visit? then [events[|events| - 1].outcome] else [])
  }

  /** Every visit adds its entry, whichever worker makes it and whether or not it heeds the stop flag; a flush adds none. */
  lemma {:induction false} VisitsAreWalked<T, K>(before: seq<Event<T, K>>, event: Event<T, K>, after: seq<Event<T, K>>)
    ensures Visited(before + after) == Visited(before) + Visited(after)
    ensures match event
            case Visit(_, outcome, _) => Visited(before + [event] + after) == Visited(before) + [outcome] + Visited(after)
            case Flush(_) => Visited(before + [event] + after) == Visited(before + after)
  {
    VisitedAppend(before, after);
    VisitedAppend(before, [event] + after);
    VisitedAppend([event], after);
    assert before + [event] + after == before + ([event] + after);
    assert [event][..0] == [];
  }

  lemma {:induction false} VisitedAppend<T, K>(a: seq<Event<T, K>>, b: seq<Event<T, K>>)
    ensures Visited(a + b) == Visited(a) + Visited(b)
  {
    if b == [] {
      assert a + b == a;
    } else {
      assert (a + b)[..|a + b| - 1] == a + b[..|b| - 1];
      VisitedAppend(a, b[..|b| - 1]);
    }
  }

  /** `ParallelCollectionState` and the stop flag. */
  class SharedState<T, K(==,!new)> {
    const limit: Option<nat>
    const skipped: SkippedPaths<K>
    var items: seq<T>
    var entriesSeen: nat
    var tooMany: bool
    var stop: bool
    /** Everything flushed so far. */
    ghost var flushed: seq<Outcome<T, K>>

    ghost predicate Valid(less: Less<K>)
      reads this, skipped
    {
      && skipped.Valid() && skipped.less == less
      && skipped.recorded == FailuresOf(flushed)
      && entriesSeen == Min(EntriesIn(flushed), WORD_MAX)
      && tooMany == OverLimit(limit, flushed)
      && (!tooMany ==> items == ItemsOf(flushed))
      && (tooMany ==> |items| == limit.value)
      && stop == tooMany
    }

    constructor (less: Less<K>, limit: Option<nat>)
      requires StrictTotalOrder(less)
      ensures Valid(less) && flushed == [] && fresh(skipped) && this.limit == limit
    {
      this.limit := limit;
      skipped := new SkippedPaths(less);
      items, entriesSeen, tooMany, stop, flushed := [], 0, false, false, [];
    }

    /** Moves items over until the limit is hit; the rest is dropped. */
    method Absorb(batch: seq<T>)
      requires tooMany ==> limit.Some? && |items| == limit.value
      requires limit.Some? ==> |items| <= limit.value
      modifies this`items, this`tooMany, this`stop
      ensures tooMany == (old(tooMany) || (limit.Some? && |old(items)| + |batch| > limit.value))
      ensures stop == (old(stop) || (limit.Some? && |old(items)| + |batch| > limit.value))
      ensures limit.Some? ==> |items| <= limit.value
      ensures tooMany ==> limit.Some? && |items| == limit.value
      ensures !tooMany ==> items == old(items) + batch
    {
      for k := 0 to |batch|
        invariant items == old(items) + batch[..k]
        invariant tooMany == old(tooMany) && stop == old(stop)
        invariant limit.Some? ==> |items| <= limit.value
      {
        if limit.Some? && |items| >= limit.value {
          tooMany, stop := true, true;
          return;
        }
        assert batch[..k + 1] == batch[..k] + [batch[k]];
        items := items + [batch[k]];
      }
      assert batch[..|batch|] == batch;
    }
  }

  /** `ParallelLocalBatch`: what one worker has gathered since its last flush. */
  class LocalBatch<T, K(==,!new)> {
    const less: Less<K>
    var items: seq<T>
    var skipped: SkippedPaths<K>
    var entriesSeen: nat
    ghost var pending: seq<Outcome<T, K>>

    ghost predicate Valid()
      reads this, skipped
    {
      && StrictTotalOrder(less) && skipped.Valid() && skipped.less == less
      && skipped.recorded == FailuresOf(pending) && items == ItemsOf(pending)
      && entriesSeen == Min(EntriesIn(pending), WORD_MAX)
    }

    constructor (less: Less<K>)
      requires StrictTotalOrder(less)
      ensures Valid() && pending == [] && this.less == less && fresh(skipped)
    {
      this.less := less;
      skipped := new SkippedPaths(less);
      items, entriesSeen, pending := [], 0, [];
    }

    method Gather(outcome: Outcome<T, K>)
      requires Valid()
      modifies this`items, this`entriesSeen, this`pending, skipped
      ensures Valid() && pending == old(pending) + [outcome] && skipped == old(skipped)
    {
      hide StrictTotalOrder, ItemsOf, FailuresOf, EntriesIn, FailuresIn, SkippedPaths<K>.Valid;
      AddOutcome(pending, outcome);
      if !outcome.WalkError? { entriesSeen := SaturatingAdd(entriesSeen, 1); }
      RecordAll(skipped, FailuresIn(outcome));
      if outcome.Found? { items := items + [outcome.item]; }
      pending := pending + [outcome];
    }

    /** Hands everything gathered to the shared state. */
    method FlushInto(shared: SharedState<T, K>)
      requires Valid() && shared.Valid(less) && skipped != shared.skipped
      modifies this, shared, shared.skipped
      ensures Valid() && pending == [] && fresh(skipped)
      ensures shared.Valid(less) && shared.flushed == old(shared.flushed) + old(pending)
    {
      hide StrictTotalOrder, ItemsOf, FailuresOf, EntriesIn, SkippedPaths<K>.Valid;
      OfAppend(shared.flushed, pending);
      NoOutcomes<T, K>();
      shared.skipped.Merge(skipped);
      skipped := new SkippedPaths(less);
      shared.entriesSeen := SaturatingAdd(shared.entriesSeen, entriesSeen);
      entriesSeen := 0;
      shared.Absorb(items);
      items := [];
      shared.flushed := shared.flushed + pending;
      pending := [];
    }
  }

  /** What the workers still hold. */
  function Bag<X>(batches: seq<seq<X>>): multiset<X> {
    if batches == [] then multiset{} else Bag(batches[..|batches| - 1]) + multiset(batches[|batches| - 1])
  }

  lemma {:induction false} BagUpdate<X>(batches: seq<seq<X>>, w: nat, batch: seq<X>)
    requires w < |batches|
    ensures Bag(batches[w := batch]) + multiset(batches[w]) == Bag(batches) + multiset(batch)
  {
    var n := |batches| - 1;
    var after := batches[w := batch];
    if w == n {
      assert after[..n] == batches[..n];
    } else {
      assert after[..n] == batches[..n][w := batch];
      BagUpdate(batches[..n], w, batch);
      assert batches[..n][w] == batches[w];
      AddToBoth(Bag(after[..n]), multiset(batches[w]), Bag(batches[..n]), multiset(batch), multiset(batches[n]));
    }
  }

  lemma AddToBoth<X>(a: multiset<X>, b: multiset<X>, c: multiset<X>, d: multiset<X>, e: multiset<X>)
    requires a + b == c + d
    ensures a + e + b == c + e + d
  {
    assert a + e + b == a + b + e && c + e + d == c + d + e;
  }

  lemma {:induction false} BagOfEmpty<X>(batches: seq<seq<X>>)
    requires forall i :: 0 <= i < |batches| ==> batches[i] == []
    ensures Bag(batches) == multiset{}
  {
    if batches != [] { BagOfEmpty(batches[..|batches| - 1]); }
  }

  /** The workers' batches are valid and share nothing with each other or with the shared state. */
  ghost predicate Fleet<T, K(!new)>(less: Less<K>, locals: seq<LocalBatch<T, K>>, shared: SharedState<T, K>)
    reads shared, locals, set i | 0 <= i < |locals| :: locals[i].skipped, shared.skipped
  {
    && shared.Valid(less)
    && (forall i :: 0 <= i < |locals| ==>
          locals[i].Valid() && locals[i].less == less && locals[i].skipped != shared.skipped)
    && (forall i, j :: 0 <= i < j < |locals| ==> locals[i] != locals[j] && locals[i].skipped != locals[j].skipped)
  }

  ghost function Batches<T, K(!new)>(locals: seq<LocalBatch<T, K>>): seq<seq<Outcome<T, K>>>
    reads locals
  {
    seq(|locals|, i requires 0 <= i < |locals| reads locals => locals[i].pending)
  }

  ghost predicate Footprint<T, K(!new)>(locals: seq<LocalBatch<T, K>>, shared: SharedState<T, K>, objects: set<object>)
    reads locals
  {
    && shared in objects && shared.skipped in objects
    && (forall i :: 0 <= i < |locals| ==> locals[i] in objects && locals[i].skipped in objects)
  }

  /** One worker flushes; the others are untouched. */
  method FlushWorker<T, K(==,!new)>(less: Less<K>, locals: seq<LocalBatch<T, K>>, shared: SharedState<T, K>, w: nat)
    requires w < |locals| && Fleet(less, locals, shared)
    modifies locals[w], shared, shared.skipped
    ensures Fleet(less, locals, shared) && fresh(locals[w].skipped)
    ensures forall i :: 0 <= i < |locals| && i != w ==> locals[i].skipped == old(locals[i].skipped)
    ensures Batches(locals) == old(Batches(locals))[w := []]
    ensures shared.flushed == old(shared.flushed) + old(locals[w].pending)
  {
    hide StrictTotalOrder, SkippedPaths<K>.Valid, SharedState<T, K>.Valid, LocalBatch<T, K>.Valid;
    locals[w].FlushInto(shared);
  }

  method VisitEntry<T, K(==,!new)>(
    less: Less<K>, locals: seq<LocalBatch<T, K>>, shared: SharedState<T, K>, w: nat, outcome: Outcome<T, K>)
    requires w < |locals| && Fleet(less, locals, shared)
    modifies locals[w], locals[w].skipped
    ensures Fleet(less, locals, shared)
    ensures forall i :: 0 <= i < |locals| ==> locals[i].skipped == old(locals[i].skipped)
    ensures Batches(locals) == old(Batches(locals))[w := old(Batches(locals))[w] + [outcome]]
  {
    hide StrictTotalOrder, SkippedPaths<K>.Valid, SharedState<T, K>.Valid, LocalBatch<T, K>.Valid;
    locals[w].Gather(outcome);
  }

  /** Everything visited so far is flushed, still pending, or was dropped after the limit was hit. */
  ghost predicate Balanced<X>(visited: seq<X>, flushed: seq<X>, batches: seq<seq<X>>, dropped: seq<X>) {
    multiset(visited) == multiset(flushed) + Bag(batches) + multiset(dropped)
  }

  lemma BalancedVisit<X>(visited: seq<X>, flushed: seq<X>, batches: seq<seq<X>>, dropped: seq<X>, w: nat, x: X)
    requires w < |batches| && Balanced(visited, flushed, batches, dropped)
    ensures Balanced(visited + [x], flushed, batches[w := batches[w] + [x]], dropped)
  {
    BagUpdate(batches, w, batches[w] + [x]);
    var before, after := Bag(batches), Bag(batches[w := batches[w] + [x]]);
    assert multiset(batches[w] + [x]) == multiset(batches[w]) + multiset{x};
    assert after + multiset(batches[w]) == before + multiset{x} + multiset(batches[w]);
    BagCancel(after, before + multiset{x}, multiset(batches[w]));
  }

  lemma BalancedFlush<X>(visited: seq<X>, flushed: seq<X>, batches: seq<seq<X>>, dropped: seq<X>, w: nat)
    requires w < |batches| && Balanced(visited, flushed, batches, dropped)
    ensures Balanced(visited, flushed + batches[w], batches[w := []], dropped)
  {
    BagUpdate(batches, w, []);
    assert Bag(batches[w := []]) + multiset(batches[w]) == Bag(batches);
  }

  lemma BagCancel<X>(a: multiset<X>, b: multiset<X>, c: multiset<X>)
    requires a + c == b + c
    ensures a == b
  {
    assert a == (a + c) - c && b == (b + c) - c;
  }

  /** Dropping only happens after the limit is exceeded, and what was flushed was visited. */
  lemma ParallelEnds<T, K(!new)>(
    limit: Option<nat>, visited: seq<Outcome<T, K>>, flushed: seq<Outcome<T, K>>, batches: seq<seq<Outcome<T, K>>>,
    dropped: seq<Outcome<T, K>>)
    requires Balanced(visited, flushed, batches, dropped)
    requires forall i :: 0 <= i < |batches| ==> batches[i] == []
    requires dropped != [] ==> OverLimit(limit, flushed)
    ensures OverLimit(limit, visited) == OverLimit(limit, flushed)
    ensures !OverLimit(limit, flushed) ==> Alike(flushed, visited)
  {
    BagOfEmpty(batches);
    assert multiset(flushed + dropped) == multiset(visited);
    OfPermutation(flushed + dropped, visited);
    OfAppend(flushed, dropped);
    assert |multiset(ItemsOf(flushed + dropped))| == |ItemsOf(flushed + dropped)|;
    assert |multiset(ItemsOf(visited))| == |ItemsOf(visited)|;
    if dropped == [] { assert flushed + dropped == flushed; }
  }

  lemma BalancedStart<X>(batches: seq<seq<X>>)
    requires forall i :: 0 <= i < |batches| ==> batches[i] == []
    ensures Balanced([], [], batches, [])
  {
    BagOfEmpty(batches);
  }

  lemma BalancedDrop<X>(visited: seq<X>, flushed: seq<X>, batches: seq<seq<X>>, dropped: seq<X>, x: X)
    requires Balanced(visited, flushed, batches, dropped)
    ensures Balanced(visited + [x], flushed, batches, dropped + [x])
  {
  }

  lemma OverLimitStays<T, K>(limit: Option<nat>, flushed: seq<Outcome<T, K>>, batch: seq<Outcome<T, K>>)
    ensures OverLimit(limit, flushed) ==> OverLimit(limit, flushed + batch)
  {
    OfAppend(flushed, batch);
  }

  lemma FleetFacts<T, K(!new)>(less: Less<K>, locals: seq<LocalBatch<T, K>>, shared: SharedState<T, K>)
    requires Fleet(less, locals, shared)
    ensures shared.Valid(less) && shared.stop == OverLimit(shared.limit, shared.flushed)
  {
  }

  method NewFleet<T, K(==,!new)>(less: Less<K>, shared: SharedState<T, K>, workers: nat) returns (locals: seq<LocalBatch<T, K>>)
    requires StrictTotalOrder(less) && shared.Valid(less)
    ensures |locals| == workers && Fleet(less, locals, shared)
    ensures forall i :: 0 <= i < workers ==> fresh(locals[i]) && fresh(locals[i].skipped) && locals[i].pending == []
  {
    hide StrictTotalOrder, EntriesOk, MinimumOk;
    locals := [];
    for w := 0 to workers
      invariant |locals| == w && Fleet(less, locals, shared)
      invariant forall i :: 0 <= i < w ==> fresh(locals[i]) && fresh(locals[i].skipped) && locals[i].pending == []
    {
      var batch := new LocalBatch<T, K>(less);
      locals := locals + [batch];
    }
  }

  /** One event. A worker that heeds the stop flag drops its entry; a full batch is flushed at once. */
  method Step<T, K(==,!new)>(
    less: Less<K>, locals: seq<LocalBatch<T, K>>, shared: SharedState<T, K>, event: Event<T, K>,
    ghost visited: seq<Outcome<T, K>>, ghost dropped: seq<Outcome<T, K>>) returns (ghost dropped': seq<Outcome<T, K>>)
    requires event.worker < |locals| && Fleet(less, locals, shared)
    requires Balanced(visited, shared.flushed, Batches(locals), dropped)
    requires dropped != [] ==> OverLimit(shared.limit, shared.flushed)
    modifies locals[event.worker], locals[event.worker].skipped, shared, shared.skipped
    ensures Fleet(less, locals, shared)
    ensures forall i :: 0 <= i < |locals| ==> locals[i].skipped == old(locals[i].skipped) || fresh(locals[i].skipped)
    ensures Balanced(visited + (if event.Visit? then [event.outcome] else []), shared.flushed, Batches(locals), dropped')
    ensures dropped' != [] ==> OverLimit(shared.limit, shared.flushed)
  {
    assert |Batches(locals)| == |locals|;
    hide *;
    dropped' := dropped;
    var w := event.worker;
    FleetFacts(less, locals, shared);
    match event
    case Flush(_) =>
      assert visited + [] == visited;
      FlushBalanced(less, locals, shared, w, visited, dropped);
    case Visit(_, outcome, heedsStop) =>
      if shared.stop && heedsStop {
        BalancedDrop(visited, shared.flushed, Batches(locals), dropped, outcome);
        dropped' := dropped + [outcome];
      } else {
        VisitBalanced(less, locals, shared, w, outcome, visited, dropped);
      }
  }

  /** A visit seen from the accounting; a batch that has become full is flushed at once. */
  method VisitBalanced<T, K(==,!new)>(
    less: Less<K>, locals: seq<LocalBatch<T, K>>, shared: SharedState<T, K>, w: nat, outcome: Outcome<T, K>,
    ghost visited: seq<Outcome<T, K>>, ghost dropped: seq<Outcome<T, K>>)
    requires w < |locals| && Fleet(less, locals, shared)
    requires Balanced(visited, shared.flushed, Batches(locals), dropped)
    requires dropped != [] ==> OverLimit(shared.limit, shared.flushed)
    modifies locals[w], locals[w].skipped, shared, shared.skipped
    ensures Fleet(less, locals, shared)
    ensures forall i :: 0 <= i < |locals| && i != w ==> locals[i].skipped == old(locals[i].skipped)
    ensures locals[w].skipped == old(locals[w].skipped) || fresh(locals[w].skipped)
    ensures Balanced(visited + [outcome], shared.flushed, Batches(locals), dropped)
    ensures dropped != [] ==> OverLimit(shared.limit, shared.flushed)
  {
    assert |Batches(locals)| == |locals|;
    hide *;
    BalancedVisit(visited, shared.flushed, Batches(locals), dropped, w, outcome);
    VisitEntry(less, locals, shared, w, outcome);
    if outcome.Found? && |locals[w].items| == TRAVERSAL_BATCH_ITEMS {
      FlushBalanced(less, locals, shared, w, visited + [outcome], dropped);
    }
  }

  /** A flush seen from the accounting: what was pending is now flushed. */
  method FlushBalanced<T, K(==,!new)>(
    less: Less<K>, locals: seq<LocalBatch<T, K>>, shared: SharedState<T, K>, w: nat,
    ghost visited: seq<Outcome<T, K>>, ghost dropped: seq<Outcome<T, K>>)
    requires w < |locals| && Fleet(less, locals, shared)
    requires Balanced(visited, shared.flushed, Batches(locals), dropped)
    requires dropped != [] ==> OverLimit(shared.limit, shared.flushed)
    modifies locals[w], shared, shared.skipped
    ensures Fleet(less, locals, shared) && fresh(locals[w].skipped)
    ensures forall i :: 0 <= i < |locals| && i != w ==> locals[i].skipped == old(locals[i].skipped)
    ensures Batches(locals) == old(Batches(locals))[w := []]
    ensures Balanced(visited, shared.flushed, Batches(locals), dropped)
    ensures dropped != [] ==> OverLimit(shared.limit, shared.flushed)
  {
    BalancedFlush(visited, shared.flushed, Batches(locals), dropped, w);
    OverLimitStays(shared.limit, shared.flushed, Batches(locals)[w]);
    hide Fleet, Balanced, OverLimit;
    FlushWorker(less, locals, shared, w);
  }

  /** `finish_parallel_collection`. */
  method FinishParallel<T, K(==,!new)>(less: Less<K>, shared: SharedState<T, K>, ghost visited: seq<Outcome<T, K>>)
    returns (ending: Ending<T>)
    requires shared.Valid(less) && |visited| <= WORD_MAX
    requires OverLimit(shared.limit, visited) == OverLimit(shared.limit, shared.flushed)
    requires !OverLimit(shared.limit, shared.flushed) ==> Alike(shared.flushed, visited)
    ensures EndsWith(less, shared.limit, visited, ending, shared.skipped)
  {
    hide StrictTotalOrder, EntriesOk, MinimumOk, OverLimit;
    if shared.tooMany { return TooMany; }
    EntriesFit(visited);
    ending := FinishCollection(shared.items, shared.skipped, shared.entriesSeen);
    EndsByParts(less, shared.limit, visited, ending, shared.skipped, shared.items, shared.entriesSeen);
  }

  lemma {:induction false} EntriesFit<T, K>(outcomes: seq<Outcome<T, K>>)
    ensures EntriesIn(outcomes) <= |outcomes|
  {
    if outcomes != [] { EntriesFit(outcomes[..|outcomes| - 1]); }
  }

  lemma {:induction false} VisitedFit<T, K>(events: seq<Event<T, K>>)
    ensures |Visited(events)| <= |events|
  {
    if events != [] { VisitedFit(events[..|events| - 1]); }
  }

  /**
   The parallel walker, for any assignment of entries to workers and any
   flushing: it ends exactly as a serial walk over the same entries may end.
   */
  method CollectParallel<T, K(==,!new)>(less: Less<K>, limit: Option<nat>, workers: nat, events: seq<Event<T, K>>)
    returns (ending: Ending<T>, skipped: SkippedPaths<K>)
    requires StrictTotalOrder(less) && |events| <= WORD_MAX
    requires forall k :: 0 <= k < |events| ==> events[k].worker < workers
    ensures EndsWith(less, limit, Visited(events), ending, skipped)
    ensures !OverLimit(limit, Visited(events)) ==> forall f :: f in skipped.recorded <==> Met(Visited(events), f)
  {
    hide StrictTotalOrder, EntriesOk, MinimumOk, Fleet, Balanced, OverLimit, EndsWith, Bag, ItemsOf, FailuresOf, EntriesIn, Alike, Met;
    var shared := new SharedState(less, limit);
    var locals := NewFleet(less, shared, workers);
    ghost var dropped: seq<Outcome<T, K>> := [];
    BalancedStart(Batches(locals));
    for k := 0 to |events|
      invariant fresh(shared) && fresh(shared.skipped) && shared.limit == limit
      invariant |locals| == workers && Fleet(less, locals, shared)
      invariant forall i :: 0 <= i < workers ==> fresh(locals[i]) && fresh(locals[i].skipped)
      invariant Balanced(Visited(events[..k]), shared.flushed, Batches(locals), dropped)
      invariant dropped != [] ==> OverLimit(limit, shared.flushed)
    {
      assert events[..k + 1][..k] == events[..k];
      assert Visited(events[..k]) + [] == Visited(events[..k]);
      dropped := Step(less, locals, shared, events[k], Visited(events[..k]), dropped);
    }
    assert events[..|events|] == events;
    FinalFlush(less, locals, shared, Visited(events), dropped);
    ParallelEnds(limit, Visited(events), shared.flushed, Batches(locals), dropped);
    VisitedFit(events);
    FleetFacts(less, locals, shared);
    skipped := shared.skipped;
    ending := FinishParallel(less, shared, Visited(events));
    if !OverLimit(limit, Visited(events)) {
      EndRecords(less, limit, Visited(events), ending, skipped);
      RecordedIsMet(Visited(events), skipped.recorded);
    }
  }

  lemma EndRecords<T, K(!new)>(
    less: Less<K>, limit: Option<nat>, outcomes: seq<Outcome<T, K>>, ending: Ending<T>, skipped: SkippedPaths<K>)
    requires EndsWith(less, limit, outcomes, ending, skipped) && !OverLimit(limit, outcomes)
    ensures multiset(skipped.recorded) == multiset(FailuresOf(outcomes))
  {
  }

  /** Every worker flushes once more when it is dropped. */
  method FinalFlush<T, K(==,!new)>(
    less: Less<K>, locals: seq<LocalBatch<T, K>>, shared: SharedState<T, K>, ghost visited: seq<Outcome<T, K>>,
    ghost dropped: seq<Outcome<T, K>>)
    requires Fleet(less, locals, shared) && Balanced(visited, shared.flushed, Batches(locals), dropped)
    requires dropped != [] ==> OverLimit(shared.limit, shared.flushed)
    modifies locals, shared, shared.skipped
    ensures Fleet(less, locals, shared) && Balanced(visited, shared.flushed, Batches(locals), dropped)
    ensures dropped != [] ==> OverLimit(shared.limit, shared.flushed)
    ensures forall i :: 0 <= i < |locals| ==> Batches(locals)[i] == []
  {
    hide Fleet, Balanced, OverLimit;
    for w := 0 to |locals|
      invariant Fleet(less, locals, shared) && Balanced(visited, shared.flushed, Batches(locals), dropped)
      invariant dropped != [] ==> OverLimit(shared.limit, shared.flushed)
      invariant forall i :: 0 <= i < w ==> Batches(locals)[i] == []
    {
      FlushBalanced(less, locals, shared, w, visited, dropped);
    }
  }

  // ----- serial and parallel agree

  /**
   Two walks over the same entries, serial or parallel: both hit the limit or
   neither does; both fail whole with the same message or neither does; else
   they collect the same items and, up to the detail cap, the same report.
   */
  lemma {:induction false} WalksAgree<T, K(!new)>(
    less: Less<K>, limit: Option<nat>, a: seq<Outcome<T, K>>, endA: Ending<T>, skippedA: SkippedPaths<K>,
    b: seq<Outcome<T, K>>, endB: Ending<T>, skippedB: SkippedPaths<K>)
    requires StrictTotalOrder(less) && multiset(a) == multiset(b) && Determined(FailuresOf(a))
    requires EndsWith(less, limit, a, endA, skippedA) && EndsWith(less, limit, b, endB, skippedB)
    ensures endA.TooMany? <==> endB.TooMany?
    ensures endA.RootUnreadable? || endB.RootUnreadable? ==> endA == endB
    ensures endA.Collected? ==> endB.Collected? && multiset(endA.items) == multiset(endB.items)
    ensures !endA.TooMany? ==> skippedA.minimum == skippedB.minimum
    ensures !endA.TooMany? && |KeySet(FailuresOf(a))| <= SKIPPED_DETAIL_CAP ==>
              skippedA.entries == skippedB.entries && skippedA.beyondCap == skippedB.beyondCap == 0
  {
    hide StrictTotalOrder, Determined, EntriesOk, MinimumOk, KeySet, ItemsOf, FailuresOf, EntriesIn;
    OfPermutation(a, b);
    assert |multiset(ItemsOf(a))| == |ItemsOf(a)| && |multiset(ItemsOf(b))| == |ItemsOf(b)|;
    assert |multiset(FailuresOf(a))| == |FailuresOf(a)| && |multiset(FailuresOf(b))| == |FailuresOf(b)|;
    if !OverLimit(limit, a) {
      SameFailures(skippedA.recorded, FailuresOf(a));
      ReportsAgree(
        less, skippedA.entries, skippedA.beyondCap, skippedA.minimum, skippedA.recorded,
        skippedB.entries, skippedB.beyondCap, skippedB.minimum, skippedB.recorded);
    }
  }

  lemma SameFailures<K>(a: seq<Failure<K>>, b: seq<Failure<K>>)
    requires multiset(a) == multiset(b)
    ensures KeySet(a) == KeySet(b) && (Determined(b) ==> Determined(a))
  {
    SameMembers(a, b);
  }

  // ----- past the cap

  /** The paths an outcome lists when it comes first. */
  function FirstListed<T, K(==)>(outcome: Outcome<T, K>): set<K> {
    ListedBy(FailuresIn(outcome)).Keys
  }

  /** The paths a serial walk lists. */
  function WalkListed<T, K(==)>(outcomes: seq<Outcome<T, K>>): set<K> {
    ListedBy(FailuresOf(outcomes)).Keys
  }

  /** The details and the tally that a serial walk reports. */
  function WalkReport<T, K(==)>(outcomes: seq<Outcome<T, K>>): (map<K, string>, nat) {
    (ListedBy(FailuresOf(outcomes)), TalliedBy(FailuresOf(outcomes)))
  }

  /** One outcome fills the list all by itself, and no other would list anything else. */
  ghost predicate Dominates<T, K>(outcomes: seq<Outcome<T, K>>, outcome: Outcome<T, K>) {
    && |FirstListed(outcome)| == SKIPPED_DETAIL_CAP
    && forall o :: o in outcomes ==> FirstListed(o) <= FirstListed(outcome)
  }

  ghost predicate Dominated<T, K>(outcomes: seq<Outcome<T, K>>) {
    exists o :: o in outcomes && Dominates(outcomes, o)
  }

  function ToFront<X>(xs: seq<X>, k: nat): seq<X>
    requires k < |xs|
  {
    [xs[k]] + (xs[..k] + xs[k + 1..])
  }

  lemma ToFrontPermutes<X>(xs: seq<X>, k: nat)
    requires k < |xs|
    ensures multiset(ToFront(xs, k)) == multiset(xs)
  {
    assert xs == xs[..k] + [xs[k]] + xs[k + 1..];
  }

  lemma {:induction false} FailureHasOutcome<T, K>(outcomes: seq<Outcome<T, K>>, key: K) returns (k: nat)
    requires key in KeySet(FailuresOf(outcomes))
    ensures k < |outcomes| && key in KeySet(FailuresIn(outcomes[k]))
  {
    var before, last := outcomes[..|outcomes| - 1], outcomes[|outcomes| - 1];
    if key in KeySet(FailuresIn(last)) {
      k := |outcomes| - 1;
    } else {
      KeySetOfAppend(FailuresOf(before), FailuresIn(last));
      hide KeySet;
      k := FailureHasOutcome(before, key);
    }
  }

  /** An outcome at the front has all it can list listed. */
  lemma FrontIsListed<T, K>(outcomes: seq<Outcome<T, K>>, k: nat)
    requires k < |outcomes|
    ensures FirstListed(outcomes[k]) <= WalkListed(ToFront(outcomes, k))
  {
    var o, rest := outcomes[k], outcomes[..k] + outcomes[k + 1..];
    OfAppend([o], rest);
    AddOutcome<T, K>([], o);
    NoOutcomes<T, K>();
    assert [] + [o] == [o] && [] + FailuresIn(o) == FailuresIn(o);
    hide FailuresOf, FailuresIn;
    ListedFromAppend(map[], FailuresIn(o), FailuresOf(rest));
    ReportFacts(FailuresIn(o));
    ListedGrows(ListedBy(FailuresIn(o)), FailuresOf(rest));
  }

  /** A recorded path is missing only from a full list. */
  lemma ReportFacts<K>(failures: seq<Failure<K>>)
    ensures |ListedBy(failures)| == |ListedBy(failures).Keys| <= SKIPPED_DETAIL_CAP
    ensures ListedBy(failures).Keys <= KeySet(failures)
    ensures ListedBy(failures).Keys == KeySet(failures) || |ListedBy(failures).Keys| == SKIPPED_DETAIL_CAP
  {
    var tally := ListedIsReport(failures);
    assert |ListedBy(failures)| == |ListedBy(failures).Keys|;
  }

  /**
   With more distinct paths than the cap, and no dominating outcome, meeting one
   outcome first makes the walk list other paths.
   */
  lemma {:induction false} PastTheCapOrderMatters<T, K(!new)>(outcomes: seq<Outcome<T, K>>) returns (k: nat)
    requires |KeySet(FailuresOf(outcomes))| > SKIPPED_DETAIL_CAP && !Dominated(outcomes)
    ensures k < |outcomes| && multiset(ToFront(outcomes, k)) == multiset(outcomes)
    ensures WalkListed(ToFront(outcomes, k)) != WalkListed(outcomes)
  {
    var listed, all := WalkListed(outcomes), KeySet(FailuresOf(outcomes));
    ReportFacts(FailuresOf(outcomes));
    var missing := Missing(listed, all);
    k := FailureHasOutcome(outcomes, missing);
    ReportFacts(FailuresIn(outcomes[k]));
    if FirstListed(outcomes[k]) <= listed {
      FullSubset(FirstListed(outcomes[k]), listed);
      assert !Dominates(outcomes, outcomes[k]);
      var o :| o in outcomes && !(FirstListed(o) <= listed);
      k :| 0 <= k < |outcomes| && outcomes[k] == o;
    }
    FrontIsListed(outcomes, k);
    ToFrontPermutes(outcomes, k);
  }

  lemma Missing<K>(a: set<K>, b: set<K>) returns (x: K)
    requires a <= b && |a| < |b|
    ensures x in b && x !in a
  {
    assert b == a + (b - a);
    x :| x in b && x !in a;
  }

  lemma FullSubset<K>(a: set<K>, b: set<K>)
    requires a <= b && |a| == |b|
    ensures a == b
  {
    if a != b { SubsetSize(a, b); }
  }

  /** One more outcome, all of whose paths a full list holds. */
  lemma DominatedStep<K>(entries: map<K, string>, failures: seq<Failure<K>>, full: set<K>)
    requires |entries| <= SKIPPED_DETAIL_CAP && |full| == SKIPPED_DETAIL_CAP
    requires entries.Keys <= full && ListedBy(failures).Keys <= full
    ensures ListedFrom(entries, failures).Keys <= full
    ensures entries.Keys == full || ListedBy(failures).Keys == full ==> ListedFrom(entries, failures).Keys == full
  {
    ListedOver(entries, failures);
    ListedGrows(entries, failures);
    hide ListedFrom;
    var after := ListedFrom(entries, failures);
    assert |after.Keys| == |after|;
    if |after| == SKIPPED_DETAIL_CAP { FullSubset(after.Keys, full); }
  }

  lemma NextListed<T, K>(outcomes: seq<Outcome<T, K>>, n: nat)
    requires n < |outcomes|
    ensures |ListedBy(FailuresOf(outcomes[..n]))| <= SKIPPED_DETAIL_CAP
    ensures WalkListed(outcomes[..n + 1]) == ListedFrom(ListedBy(FailuresOf(outcomes[..n])), FailuresIn(outcomes[n])).Keys
  {
    NextOutcome(outcomes, n);
    ListedFromAppend(map[], FailuresOf(outcomes[..n]), FailuresIn(outcomes[n]));
    ReportFacts(FailuresOf(outcomes[..n]));
    hide FailuresOf, FailuresIn, ListedFrom;
  }

  lemma DominatesAll<T, K>(outcomes: seq<Outcome<T, K>>, o: Outcome<T, K>, n: nat)
    requires Dominates(outcomes, o) && n < |outcomes|
    ensures |FirstListed(o)| == SKIPPED_DETAIL_CAP && FirstListed(outcomes[n]) <= FirstListed(o)
    ensures o in outcomes[..n + 1] <==> o in outcomes[..n] || o == outcomes[n]
  {
    hide FirstListed;
    assert outcomes[..n + 1] == outcomes[..n] + [outcomes[n]];
  }

  lemma ListedParts<T, K>(outcomes: seq<Outcome<T, K>>, o: Outcome<T, K>)
    ensures WalkListed(outcomes) == ListedBy(FailuresOf(outcomes)).Keys && FirstListed(o) == ListedBy(FailuresIn(o)).Keys
    ensures outcomes == [] ==> WalkListed(outcomes) == {}
  {
  }

  /** With a dominating outcome, every order lists what that outcome lists. */
  lemma {:induction false} DominatedOrder<T, K(!new)>(outcomes: seq<Outcome<T, K>>, n: nat, o: Outcome<T, K>)
    requires Dominates(outcomes, o) && n <= |outcomes|
    ensures WalkListed(outcomes[..n]) <= FirstListed(o)
    ensures o in outcomes[..n] ==> WalkListed(outcomes[..n]) == FirstListed(o)
  {
    hide *;
    if n == 0 {
      ListedParts(outcomes[..0], o);
    } else {
      DominatedOrder(outcomes, n - 1, o);
      DominatesAll(outcomes, o, n - 1);
      NextListed(outcomes, n - 1);
      ListedParts(outcomes[..n - 1], outcomes[n - 1]);
      DominatedStep(ListedBy(FailuresOf(outcomes[..n - 1])), FailuresIn(outcomes[n - 1]), FirstListed(o));
    }
  }

  lemma {:induction false} OutsideOfPermutation<K>(a: seq<Failure<K>>, b: seq<Failure<K>>, keys: set<K>)
    requires multiset(a) == multiset(b)
    ensures CountOutside(a, keys) == CountOutside(b, keys)
    decreases |a|
  {
    if a == [] {
      assert |multiset(b)| == |b| && |multiset(a)| == |a|;
    } else {
      var x := a[|a| - 1];
      LastApart(a);
      var front, back := TakeOut(b, x);
      OutsideOfPermutation(a[..|a| - 1], front + back, keys);
      OutsideOfAppend(front, back, keys);
      OutsideOfAppend(front + [x], back, keys);
      assert (front + [x])[..|front|] == front;
    }
  }

  lemma {:induction false} OutsideOfAppend<K>(a: seq<Failure<K>>, b: seq<Failure<K>>, keys: set<K>)
    ensures CountOutside(a + b, keys) == CountOutside(a, keys) + CountOutside(b, keys)
  {
    if b == [] {
      assert a + b == a;
    } else {
      assert (a + b)[..|a + b| - 1] == a + b[..|b| - 1];
      OutsideOfAppend(a, b[..|b| - 1], keys);
    }
  }

  lemma ListedReasons<K>(a: seq<Failure<K>>, b: seq<Failure<K>>)
    requires multiset(a) == multiset(b) && Determined(a) && ListedBy(a).Keys == ListedBy(b).Keys
    ensures ListedBy(a) == ListedBy(b)
  {
    SameMembers(a, b);
    var tally := ListedIsReport(a);
    var tally' := ListedIsReport(b);
    hide ListedFrom;
    forall k | k in ListedBy(a) ensures ListedBy(a)[k] == ListedBy(b)[k] {
      assert k in ListedBy(b).Keys;
      var f :| f in a && f.key == k && f.reason == ListedBy(a)[k];
      var g :| g in b && g.key == k && g.reason == ListedBy(b)[k];
    }
  }

  /** Two orders that list the same paths report the same in all: the tally always, the reasons if keys determine them. */
  lemma {:induction false} SamePathsSameReport<T, K(!new)>(a: seq<Outcome<T, K>>, b: seq<Outcome<T, K>>)
    requires multiset(a) == multiset(b) && WalkListed(a) == WalkListed(b)
    ensures WalkReport(a).1 == WalkReport(b).1
    ensures Determined(FailuresOf(a)) ==> WalkReport(a) == WalkReport(b)
  {
    OfPermutation(a, b);
    TallyCountsTheUnlisted(FailuresOf(a));
    TallyCountsTheUnlisted(FailuresOf(b));
    OutsideOfPermutation(FailuresOf(a), FailuresOf(b), WalkListed(a));
    if Determined(FailuresOf(a)) { ListedReasons(FailuresOf(a), FailuresOf(b)); }
    hide ItemsOf, FailuresOf, EntriesIn, ListedFrom, TalliedFrom, CountOutside, Determined;
  }

  /** Up to the cap, or with a dominating outcome, every order lists the same paths. */
  lemma {:induction false} OtherwiseOrderIsHidden<T, K(!new)>(a: seq<Outcome<T, K>>, b: seq<Outcome<T, K>>)
    requires multiset(a) == multiset(b)
    requires |KeySet(FailuresOf(a))| <= SKIPPED_DETAIL_CAP || Dominated(a)
    ensures WalkListed(a) == WalkListed(b)
  {
    SameOutcomes(a, b);
    if Dominated(a) {
      var o :| o in a && Dominates(a, o);
      assert Dominates(b, o);
      DominatedOrder(a, |a|, o);
      DominatedOrder(b, |b|, o);
      assert a[..|a|] == a && b[..|b|] == b;
    } else {
      hide Dominated;
      OfPermutation(a, b);
      SameFailures(FailuresOf(a), FailuresOf(b));
      ListsAll(FailuresOf(a));
      ListsAll(FailuresOf(b));
    }
  }

  lemma SameOutcomes<X>(a: seq<X>, b: seq<X>)
    requires multiset(a) == multiset(b)
    ensures forall x :: x in a <==> x in b
  {
    SameMembers(a, b);
  }

  lemma ListsAll<K>(failures: seq<Failure<K>>)
    requires |KeySet(failures)| <= SKIPPED_DETAIL_CAP
    ensures ListedBy(failures).Keys == KeySet(failures)
  {
    ReportFacts(failures);
    if ListedBy(failures).Keys != KeySet(failures) { SubsetSize(ListedBy(failures).Keys, KeySet(failures)); }
  }

  /**
   The order shows in the listed paths, and in the report as a whole if keys
   determine reasons, exactly past the cap and without a dominating outcome.
   */
  lemma {:induction false} OrderMattersExactly<T, K(!new)>(outcomes: seq<Outcome<T, K>>)
    ensures (exists k: nat :: k < |outcomes| && WalkListed(ToFront(outcomes, k)) != WalkListed(outcomes)) <==>
            |KeySet(FailuresOf(outcomes))| > SKIPPED_DETAIL_CAP && !Dominated(outcomes)
    ensures Determined(FailuresOf(outcomes)) ==>
              ((exists k: nat :: k < |outcomes| && WalkReport(ToFront(outcomes, k)) != WalkReport(outcomes)) <==>
               |KeySet(FailuresOf(outcomes))| > SKIPPED_DETAIL_CAP && !Dominated(outcomes))
  {
    hide *;
    if |KeySet(FailuresOf(outcomes))| > SKIPPED_DETAIL_CAP && !Dominated(outcomes) {
      var k := PastTheCapOrderMatters(outcomes);
      ReportLists(outcomes);
      ReportLists(ToFront(outcomes, k));
    } else {
      forall k: nat | k < |outcomes|
        ensures WalkListed(ToFront(outcomes, k)) == WalkListed(outcomes)
        ensures Determined(FailuresOf(outcomes)) ==> WalkReport(ToFront(outcomes, k)) == WalkReport(outcomes)
      {
        ToFrontPermutes(outcomes, k);
        OtherwiseOrderIsHidden(outcomes, ToFront(outcomes, k));
        SamePathsSameReport(outcomes, ToFront(outcomes, k));
      }
    }
  }

  lemma ReportLists<T, K>(outcomes: seq<Outcome<T, K>>)
    ensures WalkReport(outcomes).0.Keys == WalkListed(outcomes)
  {
  }

  lemma ReorderedFits<T, K>(limit: Option<nat>, outcomes: seq<Outcome<T, K>>, k: nat)
    requires k < |outcomes|
    ensures multiset(ToFront(outcomes, k)) == multiset(outcomes) && |ToFront(outcomes, k)| == |outcomes|
    ensures OverLimit(limit, ToFront(outcomes, k)) == OverLimit(limit, outcomes)
  {
    ToFrontPermutes(outcomes, k);
    OfPermutation(outcomes, ToFront(outcomes, k));
    hide ItemsOf, FailuresOf, EntriesIn;
    assert |multiset(ItemsOf(outcomes))| == |ItemsOf(outcomes)|;
    assert |multiset(ItemsOf(ToFront(outcomes, k)))| == |ItemsOf(ToFront(outcomes, k))|;
  }

  lemma ListedDiffers<T, K>(a: seq<Outcome<T, K>>, b: seq<Outcome<T, K>>)
    ensures WalkListed(a) != WalkListed(b) <==> WalkReport(a).0.Keys != WalkReport(b).0.Keys
  {
  }

  /** Two serial walks over the same entries whose reports list different paths. */
  method WalkInTwoOrders<T(==), K(==,!new)>(less: Less<K>, limit: Option<nat>, outcomes: seq<Outcome<T, K>>)
    returns (
      reordered: seq<Outcome<T, K>>, ending: Ending<T>, skipped: SkippedPaths<K>, ending': Ending<T>, skipped': SkippedPaths<K>)
    requires StrictTotalOrder(less) && |outcomes| <= WORD_MAX && !OverLimit(limit, outcomes)
    requires |KeySet(FailuresOf(outcomes))| > SKIPPED_DETAIL_CAP && !Dominated(outcomes)
    ensures multiset(reordered) == multiset(outcomes)
    ensures EndsWith(less, limit, outcomes, ending, skipped) && EndsWith(less, limit, reordered, ending', skipped')
    ensures skipped.entries.Keys != skipped'.entries.Keys
  {
    hide *;
    ghost var other := PastTheCapOrderMatters(outcomes);
    var k: nat :| k < |outcomes| && WalkListed(ToFront(outcomes, k)) != WalkListed(outcomes);
    reordered := ToFront(outcomes, k);
    ReorderedFits(limit, outcomes, k);
    ListedDiffers(reordered, outcomes);
    ending, skipped := CollectSerial(less, limit, outcomes);
    ending', skipped' := CollectSerial(less, limit, reordered);
  }
}

/**
 The mutex-guarded window of `ordered_window.rs`: a ring of `width` slots, the
 speculative generation, and the next index the reducer consumes.

 The first half gives every critical section as a function on window values;
 the second half is the same state as a class that updates its slots in place,
 each method proved equal to the function.
 */
module OrderedWindow {
  import opened Wrappers

  /** One ring position. `E` is the envelope a finished lane leaves behind. */
  datatype Slot<+E> =
    | Vacant
    | Running(index: nat, generation: nat, runner: nat)
    | Ready(index: nat, generation: nat, envelope: E)

  datatype Window<+E> = Window(
    width: nat,
    candidates: nat,
    generation: nat,
    nextReduce: nat,
    accepting: bool,
    liveSlots: nat,
    slots: seq<Slot<E>>)

  datatype Frontier<+E> = Taken(envelope: E) | Pending(runner: nat) | Inline

  ghost predicate Shaped<E>(w: Window<E>) {
    0 < w.width == |w.slots| && w.candidates <= WORD_MAX
  }

  function Fresh<E>(width: nat, candidates: nat): Window<E> {
    var width := Max(width, 1);
    Window(width, candidates, 0, 0, true, 0, seq(width, i => Vacant))
  }

  /** One past the last index the window may speculate on. */
  function End<E>(w: Window<E>): nat {
    Min(SaturatingAdd(w.nextReduce, w.width), w.candidates)
  }

  /** The slot of `index`, ignoring a ring position that holds another index. */
  function SlotAt<E>(w: Window<E>, index: nat): Slot<E>
    requires Shaped(w)
  {
    var slot := w.slots[index % w.width];
    if slot.Vacant? || slot.index != index then Vacant else slot
  }

  function Matches<E>(w: Window<E>, index: nat, generation: nat, runner: nat): bool
    requires Shaped(w)
  {
    SlotAt(w, index) == Running(index, generation, runner)
  }

  function CountVacant<E>(w: Window<E>, from: nat, to: nat): nat
    requires Shaped(w)
    decreases (to as int) - from
  {
    if from >= to then 0
    else (if SlotAt(w, from).Vacant? then 1 else 0) + CountVacant(w, from + 1, to)
  }

  function FirstVacancy<E>(w: Window<E>, from: nat, to: nat): Option<nat>
    requires Shaped(w)
    decreases (to as int) - from
  {
    if from >= to then None
    else if SlotAt(w, from).Vacant? then Some(from)
    else FirstVacancy(w, from + 1, to)
  }

  /** `fill_snapshot`: the generation to speculate under and how many lanes fit. */
  function FillSnapshot<E>(w: Window<E>): Option<(nat, nat)>
    requires Shaped(w)
  {
    if !w.accepting || w.nextReduce >= w.candidates then None
    else
      var vacancies := CountVacant(w, SaturatingAdd(w.nextReduce, 1), End(w));
      if vacancies > 0 then Some((w.generation, vacancies)) else None
  }

  /** `try_claim`: binds the first vacant future index to `runner`. */
  function Claim<E>(w: Window<E>, generation: nat, runner: nat): (Window<E>, Option<nat>)
    requires Shaped(w)
  {
    if !w.accepting || w.generation != generation then (w, None)
    else
      match FirstVacancy(w, SaturatingAdd(w.nextReduce, 1), End(w))
      case None => (w, None)
      case Some(index) =>
        (w.(slots := w.slots[index % w.width := Running(index, generation, runner)],
         liveSlots := w.liveSlots + 1),
         Some(index))
  }

  /** `RunningLease::publish`: replaces exactly the lease's own running slot. */
  function Publish<E>(w: Window<E>, index: nat, generation: nat, runner: nat, envelope: E): (Window<E>, bool)
    requires Shaped(w)
  {
    if w.accepting && w.generation == generation && Matches(w, index, generation, runner) then
      (w.(slots := w.slots[index % w.width := Ready(index, generation, envelope)]), true)
    else
      (w, false)
  }

  /** `RunningLease::drop`: clears exactly the lease's own running slot. */
  function DropLease<E>(w: Window<E>, index: nat, generation: nat, runner: nat): Window<E>
    requires Shaped(w)
    requires Matches(w, index, generation, runner) ==> w.liveSlots > 0
  {
    if Matches(w, index, generation, runner) then
      w.(slots := w.slots[index % w.width := Vacant], liveSlots := w.liveSlots - 1)
    else
      w
  }

  /** One pass of the `take_frontier` loop. */
  function TakeFrontier<E>(w: Window<E>): (Window<E>, Frontier<E>)
    requires Shaped(w)
    requires SlotAt(w, w.nextReduce).Ready? ==> w.liveSlots > 0
  {
    var slot := w.slots[w.nextReduce % w.width];
    if slot.Ready? && slot.index == w.nextReduce && slot.generation == w.generation then
      (w.(slots := w.slots[w.nextReduce % w.width := Vacant], liveSlots := w.liveSlots - 1),
       Taken(slot.envelope))
    else if slot.Running? && slot.index == w.nextReduce && slot.generation == w.generation then
      (w, Pending(slot.runner))
    else
      (w, Inline)
  }

  function Advance<E>(w: Window<E>): Window<E> {
    w.(nextReduce := SaturatingAdd(w.nextReduce, 1))
  }

  /** `retire_generation`: the flag is false exactly when the counter would overflow. */
  function Retire<E>(w: Window<E>, reactivate: bool): (Window<E>, bool) {
    var cleared := w.(accepting := false, slots := seq(|w.slots|, i => Vacant), liveSlots := 0);
    if w.generation == WORD_MAX then (cleared, false)
    else (cleared.(generation := w.generation + 1, accepting := reactivate), true)
  }

  function Occupied<E>(slots: seq<Slot<E>>): nat {
    if slots == [] then 0
    else (if slots[|slots| - 1].Vacant? then 0 else 1) + Occupied(slots[..|slots| - 1])
  }

  /**
   Every occupied ring position holds an index the window may speculate on, of
   the current generation, at its own position; `liveSlots` counts them; a
   window that stopped accepting is empty.
   */
  ghost predicate Inv<E>(w: Window<E>) {
    && Shaped(w)
    && w.nextReduce <= w.candidates
    && w.generation <= WORD_MAX
    && w.liveSlots == Occupied(w.slots)
    && (forall k :: 0 <= k < w.width && !w.slots[k].Vacant? ==>
      && w.slots[k].index % w.width == k
      && w.nextReduce <= w.slots[k].index < End(w)
      && w.slots[k].generation == w.generation
      && w.accepting)
  }

  // ----- counting

  lemma {:induction false} OccupiedUpdate<E>(slots: seq<Slot<E>>, k: nat, slot: Slot<E>)
    requires k < |slots|
    ensures Occupied(slots[k := slot]) + (if slots[k].Vacant? then 0 else 1)
         == Occupied(slots) + (if slot.Vacant? then 0 else 1)
  {
    var last := |slots| - 1;
    var updated := slots[k := slot];
    if k == last {
      assert updated[..last] == slots[..last];
    } else {
      assert updated[..last] == slots[..last][k := slot];
      OccupiedUpdate(slots[..last], k, slot);
    }
  }

  lemma {:induction false} OccupiedPositive<E>(slots: seq<Slot<E>>, k: nat)
    requires k < |slots| && !slots[k].Vacant?
    ensures Occupied(slots) > 0
  {
    OccupiedUpdate(slots, k, Vacant);
  }

  lemma {:induction false} OccupiedAllVacant<E>(slots: seq<Slot<E>>)
    requires forall k :: 0 <= k < |slots| ==> slots[k].Vacant?
    ensures Occupied(slots) == 0
  {
    if slots != [] { OccupiedAllVacant(slots[..|slots| - 1]); }
  }

  /** The set of occupied positions is what `Occupied` counts. */
  lemma {:induction false} OccupiedIsCardinality<E>(slots: seq<Slot<E>>)
    ensures |set k | 0 <= k < |slots| && !slots[k].Vacant?| == Occupied(slots)
  {
    var last := |slots| - 1;
    var all := set k | 0 <= k < |slots| && !slots[k].Vacant?;
    if slots == [] {
      assert all == {};
    } else {
      OccupiedIsCardinality(slots[..last]);
      var before := set k | 0 <= k < |slots[..last]| && !slots[..last][k].Vacant?;
      if slots[last].Vacant? {
        assert all == before;
      } else {
        assert all == before + {last};
      }
    }
  }

  // ----- ring arithmetic

  lemma RingGap(low: nat, high: nat, width: nat)
    requires width > 0 && low < high && low % width == high % width
    ensures low + width <= high
  {
    var a, b := low / width, high / width;
    assert low == width * a + low % width && high == width * b + high % width;
    assert width * b > width * a;
    assert b > a;
    assert width * b >= width * (a + 1) == width * a + width;
  }

  /** Two indices of one window-length range share a ring position only if equal. */
  lemma RingUnique(i: nat, j: nat, base: nat, width: nat)
    requires width > 0
    requires base <= i < base + width && base <= j < base + width
    requires i % width == j % width
    ensures i == j
  {
    if i < j { RingGap(i, j, width); }
    if j < i { RingGap(j, i, width); }
  }

  /** An occupied ring position inside the window is the slot of its own index. */
  lemma OccupiedIsOwn<E>(w: Window<E>, index: nat)
    requires Inv(w)
    requires w.nextReduce <= index < End(w)
    ensures w.slots[index % w.width] == SlotAt(w, index)
  {
    var slot := w.slots[index % w.width];
    if !slot.Vacant? {
      RingUnique(slot.index, index, w.nextReduce, w.width);
    }
  }

  lemma {:induction false} FirstVacancyIsFirst<E>(w: Window<E>, from: nat, to: nat)
    requires Shaped(w)
    ensures match FirstVacancy(w, from, to)
            case Some(index) =>
              && from <= index < to
              && SlotAt(w, index).Vacant?
              && (forall i :: from <= i < index ==> !SlotAt(w, i).Vacant?)
            case None =>
              forall i :: from <= i < to ==> !SlotAt(w, i).Vacant?
    decreases (to as int) - from
  {
    if from < to && !SlotAt(w, from).Vacant? { FirstVacancyIsFirst(w, from + 1, to); }
  }

  /** The indices that a lane may still be bound to: beyond the frontier, within the ring, and vacant. */
  ghost function Claimable<E>(w: Window<E>): set<nat>
    requires Shaped(w)
  {
    set i: nat | w.nextReduce < i < w.nextReduce + w.width && i < w.candidates && SlotAt(w, i).Vacant?
  }

  ghost function VacantWithin<E>(w: Window<E>, from: nat, to: nat): set<nat>
    requires Shaped(w)
  {
    set i: nat | from <= i < to && SlotAt(w, i).Vacant?
  }

  lemma {:induction false} CountIsCardinality<E>(w: Window<E>, from: nat, to: nat)
    requires Shaped(w)
    ensures CountVacant(w, from, to) == |VacantWithin(w, from, to)|
    decreases (to as int) - from
  {
    if from < to {
      CountIsCardinality(w, from + 1, to);
      assert VacantWithin(w, from, to)
          == (if SlotAt(w, from).Vacant? then {from} else {}) + VacantWithin(w, from + 1, to);
    } else {
      assert VacantWithin(w, from, to) == {};
    }
  }

  lemma ClaimableWithin<E>(w: Window<E>)
    requires Inv(w)
    ensures Claimable(w) == VacantWithin(w, SaturatingAdd(w.nextReduce, 1), End(w))
  {
  }

  /**
   A claim under the current generation succeeds exactly if some index beyond
   the frontier is free for it, and the snapshot promises exactly as many lanes
   as there are such indices, or nothing at all.
   */
  lemma {:induction false} VacanciesMeanClaimable<E>(w: Window<E>, runner: nat)
    requires Inv(w)
    ensures Claim(w, w.generation, runner).1.Some? <==> w.accepting && Claimable(w) != {}
    ensures FillSnapshot(w).Some? <==> Claim(w, w.generation, runner).1.Some?
    ensures FillSnapshot(w).Some? ==> FillSnapshot(w).value == (w.generation, |Claimable(w)|)
  {
    hide *;
    ClaimFindsClaimable(w, runner);
    SnapshotCounts(w);
  }

  lemma NothingClaimable<E>(w: Window<E>)
    requires Shaped(w)
    ensures Claimable(w) == {} <==>
            forall i :: w.nextReduce < i < w.nextReduce + w.width && i < w.candidates ==> !SlotAt(w, i).Vacant?
  {
    hide SlotAt;
    if Claimable(w) == {} {
      forall i | w.nextReduce < i < w.nextReduce + w.width && i < w.candidates ensures !SlotAt(w, i).Vacant? {
        assert i !in Claimable(w);
      }
    }
  }

  lemma ClaimFindsClaimable<E>(w: Window<E>, runner: nat)
    requires Inv(w)
    ensures Claim(w, w.generation, runner).1.Some? <==> w.accepting && Claimable(w) != {}
  {
    assert Shaped(w);
    hide *;
    ClaimKeepsInv(w, w.generation, runner);
    NothingClaimable(w);
  }

  lemma SnapshotCounts<E>(w: Window<E>)
    requires Inv(w)
    ensures FillSnapshot(w) == if w.accepting && Claimable(w) != {} then Some((w.generation, |Claimable(w)|)) else None
  {
    ClaimableWithin(w);
    CountIsCardinality(w, SaturatingAdd(w.nextReduce, 1), End(w));
    hide CountVacant, SlotAt;
    if w.nextReduce >= w.candidates { assert Claimable(w) == {}; }
    if Claimable(w) != {} {
      var i :| i in Claimable(w);
      assert |Claimable(w)| > 0;
    }
  }

  // ----- every critical section keeps the window invariant

  lemma FreshInv<E>(width: nat, candidates: nat)
    requires candidates <= WORD_MAX
    ensures Inv(Fresh<E>(width, candidates))
    ensures var w := Fresh<E>(width, candidates);
      && w.width == Max(width, 1) && w.candidates == candidates && w.generation == w.nextReduce == 0 && w.accepting
      && forall k :: 0 <= k < w.width ==> w.slots[k].Vacant?
  {
    OccupiedAllVacant(Fresh<E>(width, candidates).slots);
  }

  /** Only the slot at this ring position, and the count of live slots, differ. */
  ghost predicate OnlySlot<E>(w: Window<E>, w': Window<E>, index: nat, slot: Slot<E>)
    requires Shaped(w)
  {
    && w' == w.(slots := w'.slots, liveSlots := w'.liveSlots) && |w'.slots| == |w.slots|
    && w'.slots[index % w.width] == slot
    && forall k :: 0 <= k < |w.slots| && k != index % w.width ==> w'.slots[k] == w.slots[k]
  }

  /**
   A claim finds nothing exactly if the window is closed, of another generation,
   or full. Otherwise it takes the lowest vacant index strictly between the
   frontier and `nextReduce + width`, and changes nothing else.
   */
  lemma ClaimKeepsInv<E>(w: Window<E>, generation: nat, runner: nat)
    requires Inv(w)
    ensures Inv(Claim(w, generation, runner).0)
    ensures Claim(w, generation, runner).1.None? <==>
            || !w.accepting || w.generation != generation
            || (forall i :: w.nextReduce < i < w.nextReduce + w.width && i < w.candidates ==> !SlotAt(w, i).Vacant?)
    ensures match Claim(w, generation, runner).1
            case None => Claim(w, generation, runner).0 == w
            case Some(index) =>
              && w.accepting && w.generation == generation
              && w.nextReduce < index < End(w)
              && w.slots[index % w.width].Vacant?
              && (forall i :: w.nextReduce < i < index ==> !SlotAt(w, i).Vacant?)
              && Matches(Claim(w, generation, runner).0, index, generation, runner)
              && OnlySlot(w, Claim(w, generation, runner).0, index, Running(index, generation, runner))
  {
    FirstVacancyIsFirst(w, SaturatingAdd(w.nextReduce, 1), End(w));
    match Claim(w, generation, runner).1
    case None =>
    case Some(index) =>
      OccupiedIsOwn(w, index);
      OccupiedUpdate(w.slots, index % w.width, Running(index, generation, runner));
  }

  lemma PublishKeepsInv<E>(w: Window<E>, index: nat, generation: nat, runner: nat, envelope: E)
    requires Inv(w)
    ensures Inv(Publish(w, index, generation, runner, envelope).0)
    ensures Publish(w, index, generation, runner, envelope).1 <==> Matches(w, index, generation, runner)
    ensures Matches(w, index, generation, runner) ==>
              OnlySlot(w, Publish(w, index, generation, runner, envelope).0, index, Ready(index, generation, envelope))
    ensures !Matches(w, index, generation, runner) ==> Publish(w, index, generation, runner, envelope).0 == w
  {
    if Matches(w, index, generation, runner) {
      OccupiedUpdate(w.slots, index % w.width, Ready(index, generation, envelope));
    }
  }

  lemma DropLeaseKeepsInv<E>(w: Window<E>, index: nat, generation: nat, runner: nat)
    requires Inv(w)
    ensures Matches(w, index, generation, runner) ==> w.liveSlots > 0
    ensures Inv(DropLease(w, index, generation, runner))
    ensures Matches(w, index, generation, runner) ==> OnlySlot(w, DropLease(w, index, generation, runner), index, Vacant)
    ensures !Matches(w, index, generation, runner) ==> DropLease(w, index, generation, runner) == w
  {
    if Matches(w, index, generation, runner) {
      OccupiedPositive(w.slots, index % w.width);
      OccupiedUpdate(w.slots, index % w.width, Vacant);
    }
  }

  /** The frontier is taken, awaited, or computed inline; in no case does a slot for it remain unawaited. */
  lemma TakeFrontierKeepsInv<E>(w: Window<E>)
    requires Inv(w) && w.nextReduce < w.candidates
    ensures SlotAt(w, w.nextReduce).Ready? ==> w.liveSlots > 0
    ensures Inv(TakeFrontier(w).0)
    ensures match TakeFrontier(w).1
            case Taken(envelope) =>
              && w.accepting
              && w.slots[w.nextReduce % w.width] == Ready(w.nextReduce, w.generation, envelope)
              && OnlySlot(w, TakeFrontier(w).0, w.nextReduce, Vacant)
            case Pending(runner) =>
              && TakeFrontier(w).0 == w
              && w.slots[w.nextReduce % w.width] == Running(w.nextReduce, w.generation, runner)
            case Inline => TakeFrontier(w).0 == w && w.slots[w.nextReduce % w.width].Vacant?
  {
    OccupiedIsOwn(w, w.nextReduce);
    if SlotAt(w, w.nextReduce).Ready? {
      OccupiedPositive(w.slots, w.nextReduce % w.width);
      OccupiedUpdate(w.slots, w.nextReduce % w.width, Vacant);
    }
  }

  lemma AdvanceKeepsInv<E>(w: Window<E>)
    requires Inv(w) && w.nextReduce < w.candidates
    requires w.slots[w.nextReduce % w.width].Vacant?
    ensures Inv(Advance(w))
    ensures Advance(w) == w.(nextReduce := w.nextReduce + 1)
  {
  }

  lemma RetireKeepsInv<E>(w: Window<E>, reactivate: bool)
    requires Inv(w)
    ensures Inv(Retire(w, reactivate).0)
    ensures forall k :: 0 <= k < w.width ==> Retire(w, reactivate).0.slots[k].Vacant?
    ensures !Retire(w, reactivate).1 <==> w.generation == WORD_MAX
    ensures Retire(w, reactivate).1 ==>
              Retire(w, reactivate).0.generation == w.generation + 1 && Retire(w, reactivate).0.accepting == reactivate
    ensures !Retire(w, reactivate).1 ==>
              Retire(w, reactivate).0.generation == w.generation && !Retire(w, reactivate).0.accepting
    ensures var after := Retire(w, reactivate).0;
      (after.width, after.candidates, after.nextReduce) == (w.width, w.candidates, w.nextReduce)
  {
    OccupiedAllVacant(Retire(w, reactivate).0.slots);
  }

  // ----- the same window as a mutable object

  /** `RequestSpecState`: the fields behind the request's mutex. */
  class SpecState<E> {
    const width: nat
    const candidates: nat
    const slots: array<Slot<E>>
    var generation: nat
    var nextReduce: nat
    var accepting: bool
    var liveSlots: nat

    ghost function View(): Window<E>
      reads this, slots
    {
      Window(width, candidates, generation, nextReduce, accepting, liveSlots, slots[..])
    }

    constructor (parallelism: nat, candidates: nat)
      requires candidates <= WORD_MAX
      ensures View() == Fresh(parallelism, candidates)
      ensures fresh(slots)
    {
      var ring := Max(parallelism, 1);
      this.width := ring;
      this.candidates := candidates;
      this.slots := new Slot<E>[ring](_ => Vacant);
      generation, nextReduce, accepting, liveSlots := 0, 0, true, 0;
      new;
      assert slots[..] == seq(ring, i => Vacant);
    }

    /** The slot of `index` if its ring position holds that index. */
    method Slot(index: nat) returns (slot: Slot<E>)
      requires Shaped(View())
      ensures slot == SlotAt(View(), index)
    {
      slot := slots[index % width];
      if !slot.Vacant? && slot.index != index { slot := Vacant; }
    }

    method SnapshotVacancies() returns (snapshot: Option<(nat, nat)>)
      requires Shaped(View())
      ensures snapshot == FillSnapshot(View())
    {
      if !accepting || nextReduce >= candidates { return None; }
      var end := Min(SaturatingAdd(nextReduce, width), candidates);
      var index := SaturatingAdd(nextReduce, 1);
      var vacancies := 0;
      while index < end
        invariant vacancies + CountVacant(View(), index, end)
               == CountVacant(View(), SaturatingAdd(nextReduce, 1), end)
      {
        var slot := Slot(index);
        if slot.Vacant? { vacancies := vacancies + 1; }
        index := index + 1;
      }
      snapshot := if vacancies > 0 then Some((generation, vacancies)) else None;
    }

    method TryClaim(expected: nat, runner: nat) returns (claimed: Option<nat>)
      requires Shaped(View())
      modifies this, slots
      ensures (View(), claimed) == Claim(old(View()), expected, runner)
    {
      if !accepting || generation != expected { return None; }
      var end := Min(SaturatingAdd(nextReduce, width), candidates);
      var index := SaturatingAdd(nextReduce, 1);
      while index < end
        invariant View() == old(View())
        invariant FirstVacancy(View(), index, end)
               == FirstVacancy(View(), SaturatingAdd(nextReduce, 1), end)
      {
        var slot := Slot(index);
        if slot.Vacant? {
          slots[index % width] := Running(index, expected, runner);
          liveSlots := liveSlots + 1;
          assert slots[..] == old(slots[..])[index % width := Running(index, expected, runner)];
          return Some(index);
        }
        index := index + 1;
      }
      claimed := None;
    }

    method PublishLease(index: nat, expected: nat, runner: nat, envelope: E) returns (stored: bool)
      requires Shaped(View())
      modifies slots
      ensures (View(), stored) == Publish(old(View()), index, expected, runner, envelope)
    {
      var slot := Slot(index);
      stored := accepting && generation == expected
        && slot.Running? && slot.index == index && slot.generation == expected && slot.runner == runner;
      if stored {
        slots[index % width] := Ready(index, expected, envelope);
        assert slots[..] == old(slots[..])[index % width := Ready(index, expected, envelope)];
      }
    }

    method ClearLease(index: nat, expected: nat, runner: nat)
      requires Inv(View())
      modifies this, slots
      ensures Matches(old(View()), index, expected, runner) ==> old(View()).liveSlots > 0
      ensures View() == DropLease(old(View()), index, expected, runner)
    {
      DropLeaseKeepsInv(View(), index, expected, runner);
      var slot := Slot(index);
      if slot.Running? && slot.index == index && slot.generation == expected && slot.runner == runner {
        slots[index % width] := Vacant;
        liveSlots := liveSlots - 1;
        assert slots[..] == old(slots[..])[index % width := Vacant];
      }
    }

    method TakeFrontierSlot() returns (frontier: Frontier<E>)
      requires Inv(View()) && nextReduce < candidates
      modifies this, slots
      ensures SlotAt(old(View()), old(nextReduce)).Ready? ==> old(View()).liveSlots > 0
      ensures (View(), frontier) == TakeFrontier(old(View()))
    {
      TakeFrontierKeepsInv(View());
      var slot := slots[nextReduce % width];
      match slot
      case Ready(index, made, envelope) =>
        if index == nextReduce && made == generation {
          slots[nextReduce % width] := Vacant;
          liveSlots := liveSlots - 1;
          assert slots[..] == old(slots[..])[nextReduce % width := Vacant];
          return Taken(envelope);
        }
        frontier := Inline;
      case Running(index, made, runner) =>
        frontier := if index == nextReduce && made == generation then Pending(runner) else Inline;
      case Vacant =>
        frontier := Inline;
    }

    method AdvanceReduce()
      modifies this
      ensures View() == Advance(old(View()))
    {
      nextReduce := SaturatingAdd(nextReduce, 1);
    }

    method RetireGeneration(reactivate: bool) returns (ok: bool)
      modifies this, slots
      ensures (View(), ok) == Retire(old(View()), reactivate)
    {
      accepting := false;
      var k := 0;
      while k < slots.Length
        invariant 0 <= k <= slots.Length
        invariant forall j :: 0 <= j < k ==> slots[j].Vacant?
        invariant generation == old(generation) && nextReduce == old(nextReduce)
        invariant !accepting
      {
        slots[k] := Vacant;
        k := k + 1;
      }
      liveSlots := 0;
      assert slots[..] == seq(|old(slots[..])|, i => Vacant);
      if generation == WORD_MAX { return false; }
      generation := generation + 1;
      accepting := reactivate;
      ok := true;
    }
  }
}

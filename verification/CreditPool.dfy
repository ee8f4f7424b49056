/**
 The try-only credit counter of `file_executor.rs`.

 A thread acquires with a load followed by a weak compare-and-swap that writes
 the value it loaded minus one; a release adds one. The load and the swap are
 separate steps, so any number of other threads may act between them.
 `holders` is the linear ownership that Rust's move semantics enforce: one entry
 for every permit that has been created and not yet dropped.
 */
module CreditPool {

  datatype Pool<T, H> = Pool(
    capacity: nat,
    available: nat,
    seen: map<T, nat>,
    holders: map<nat, H>,
    issued: nat)

  function Full<T, H>(capacity: nat): Pool<T, H> {
    Pool(capacity, capacity, map[], map[], 0)
  }

  /** The first load of `try_acquire`, and the value observed by a failed swap. */
  function Load<T, H>(p: Pool<T, H>, thread: T): Pool<T, H> {
    p.(seen := p.seen[thread := p.available])
  }

  /** The swap can succeed only while the counter still holds the loaded value. */
  predicate CanTake<T, H>(p: Pool<T, H>, thread: T) {
    thread in p.seen && p.seen[thread] != 0 && p.seen[thread] == p.available
  }

  /** A successful swap: the loaded value minus one is written back. */
  function Take<T, H>(p: Pool<T, H>, thread: T, holder: H): Pool<T, H>
    requires CanTake(p, thread)
  {
    p.(available := p.seen[thread] - 1,
    seen := p.seen - {thread},
    holders := p.holders[p.issued := holder],
    issued := p.issued + 1)
  }

  /** Leaving the acquire loop empty-handed. */
  function Forget<T, H>(p: Pool<T, H>, thread: T): Pool<T, H> {
    p.(seen := p.seen - {thread})
  }

  /** Dropping a permit: `fetch_add(1)`. */
  function Release<T, H>(p: Pool<T, H>, id: nat): Pool<T, H>
    requires id in p.holders
  {
    p.(available := p.available + 1, holders := p.holders - {id})
  }

  /** Moving a permit between owners never touches the counter. */
  function Rehome<T, H>(p: Pool<T, H>, id: nat, holder: H): Pool<T, H>
    requires id in p.holders
  {
    p.(holders := p.holders[id := holder])
  }

  /** Moving every permit whose owner satisfies `from` to the owner `to`. */
  function RehomeAll<T, H>(p: Pool<T, H>, from: H -> bool, to: H): Pool<T, H> {
    p.(holders := map id | id in p.holders :: if from(p.holders[id]) then to else p.holders[id])
  }

  /** Conservation: the counter plus the live permits is the capacity. */
  ghost predicate Conserved<T, H>(p: Pool<T, H>) {
    && p.available + |p.holders| == p.capacity
    && (forall id :: id in p.holders ==> id < p.issued)
  }

  lemma TakeConserves<T, H>(p: Pool<T, H>, thread: T, holder: H)
    requires Conserved(p) && CanTake(p, thread)
    ensures Conserved(Take(p, thread, holder))
    ensures p.issued !in p.holders
  {
    assert p.issued !in p.holders;
    assert (p.holders[p.issued := holder]).Keys == p.holders.Keys + {p.issued};
  }

  lemma ReleaseConserves<T, H>(p: Pool<T, H>, id: nat)
    requires Conserved(p) && id in p.holders
    ensures Conserved(Release(p, id))
    ensures Release(p, id).available <= p.capacity
  {
    assert (p.holders - {id}).Keys == p.holders.Keys - {id};
    assert |p.holders.Keys - {id}| == |p.holders.Keys| - 1;
    assert |(p.holders - {id}).Keys| == |p.holders - {id}|;
  }

  lemma RehomeConserves<T, H>(p: Pool<T, H>, id: nat, holder: H)
    requires Conserved(p) && id in p.holders
    ensures Conserved(Rehome(p, id, holder))
  {
    assert p.holders[id := holder].Keys == p.holders.Keys;
    assert |p.holders[id := holder].Keys| == |p.holders[id := holder]|;
  }

  lemma RehomeAllConserves<T, H>(p: Pool<T, H>, from: H -> bool, to: H)
    requires Conserved(p)
    ensures Conserved(RehomeAll(p, from, to))
  {
    var q := RehomeAll(p, from, to);
    assert q.holders.Keys == p.holders.Keys;
    assert |q.holders| == |q.holders.Keys|;
  }
}

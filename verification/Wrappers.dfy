/** Optional values and fallible results shared by every component. */
module Wrappers {
  datatype Option<+T> = None | Some(value: T)

  datatype Result<+T, +E> = Ok(value: T) | Err(error: E) {
    predicate IsFailure() {
      Err?
    }

    function PropagateFailure<U>(): Result<U, E>
      requires IsFailure()
    {
      Err(error)
    }

    function Extract(): T
      requires !IsFailure()
    {
      value
    }
  }

  /** The largest value of Rust's `usize` and `u64` on a 64-bit platform. */
  const WORD_MAX: nat := 0xFFFF_FFFF_FFFF_FFFF

  function Min(a: int, b: int): int {
    if a <= b then a else b
  }

  function Max(a: int, b: int): int {
    if a <= b then b else a
  }

  /** `usize::saturating_add`. */
  function SaturatingAdd(a: nat, b: nat): nat {
    if a + b <= WORD_MAX then a + b else WORD_MAX
  }

  /** `usize::saturating_sub`. */
  function SaturatingSub(a: nat, b: nat): nat {
    if b <= a then a - b else 0
  }
}

/** Finite-set counting facts used to turn ownership into numeric bounds. */
module Counting {

  /** Pigeonhole: a set that maps injectively into `b` is no larger than `b`. */
  lemma {:induction false} InjectionBound<A, B>(a: set<A>, b: set<B>, f: map<A, B>)
    requires f.Keys == a
    requires forall x :: x in a ==> f[x] in b
    requires forall x, y :: x in a && y in a && f[x] == f[y] ==> x == y
    ensures |a| <= |b|
    decreases |a|
  {
    if a != {} {
      var x :| x in a;
      var a' := a - {x};
      var b' := b - {f[x]};
      var f' := map y | y in a' :: f[y];
      InjectionBound(a', b', f');
    }
  }
}

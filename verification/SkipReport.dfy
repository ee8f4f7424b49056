/**
 The report of paths a walk could not reach, after `SkippedPaths` in
 `traversal.rs`: details up to a cap, a tally beyond it, and the lowest-ranked
 failure. `recorded` names every failure an object accounts for, and the
 contracts say what survives of them whatever the order and the merging.
 */
module SkipReports {
  import opened Wrappers

  const SKIPPED_DETAIL_CAP: nat := 256

  datatype Failure<+K> = Failure(key: K, message: string, reason: string)

  type Less<!K> = (K, K) -> bool

  ghost predicate StrictTotalOrder<K(!new)>(less: Less<K>) {
    && (forall a :: !less(a, a))
    && (forall a, b, c :: less(a, b) && less(b, c) ==> less(a, c))
    && (forall a, b :: a != b ==> less(a, b) || less(b, a))
  }

  /** A failure's message and reason depend only on its key. */
  ghost predicate Determined<K>(failures: seq<Failure<K>>) {
    forall f, g :: f in failures && g in failures && f.key == g.key ==> f == g
  }

  ghost function KeySet<K>(failures: seq<Failure<K>>): set<K> {
    set f | f in failures :: f.key
  }

  /** The entries describe recorded failures, all of them up to the cap. */
  ghost predicate EntriesOk<K>(entries: map<K, string>, beyondCap: nat, recorded: seq<Failure<K>>) {
    && |entries| <= SKIPPED_DETAIL_CAP
    && (forall k :: k in entries ==> exists f :: f in recorded && f.key == k && f.reason == entries[k])
    && (|| (entries.Keys == KeySet(recorded) && beyondCap == 0)
        || (entries.Keys < KeySet(recorded) && beyondCap > 0 && |entries| == SKIPPED_DETAIL_CAP))
  }

  /** The lowest key recorded, with the message it came with. */
  ghost predicate MinimumOk<K>(less: Less<K>, minimum: Option<(K, string)>, recorded: seq<Failure<K>>) {
    && (minimum.None? <==> recorded == [])
    && (minimum.Some? ==>
          && (exists f :: f in recorded && f.key == minimum.value.0 && f.message == minimum.value.1)
          && (forall f :: f in recorded ==> !less(f.key, minimum.value.0)))
  }

  lemma KeySetOfAppend<K>(a: seq<Failure<K>>, b: seq<Failure<K>>)
    ensures KeySet(a + b) == KeySet(a) + KeySet(b)
  {
  }

  lemma SubsetSize<K>(a: set<K>, b: set<K>)
    requires a <= b
    ensures |a| <= |b|
    ensures a != b ==> |a| < |b|
  {
    assert b == a + (b - a);
    if b - a == {} { assert a == b; }
  }

  /** The detail list after one insertion. */
  function Inserted<K(==)>(entries: map<K, string>, key: K, reason: string): map<K, string> {
    if key in entries || |entries| >= SKIPPED_DETAIL_CAP then entries else entries[key := reason]
  }

  /** The tally after one insertion. */
  function Tallied<K(==)>(entries: map<K, string>, beyondCap: nat, key: K): nat {
    if key in entries || |entries| < SKIPPED_DETAIL_CAP then beyondCap else SaturatingAdd(beyondCap, 1)
  }

  lemma InsertedSize<K>(entries: map<K, string>, key: K, reason: string)
    ensures |entries| <= SKIPPED_DETAIL_CAP ==> |Inserted(entries, key, reason)| <= SKIPPED_DETAIL_CAP
    ensures Inserted(entries, key, reason).Keys ==
            if key in entries || |entries| >= SKIPPED_DETAIL_CAP then entries.Keys else entries.Keys + {key}
  {
    if key !in entries {
      assert entries[key := reason].Keys == entries.Keys + {key};
      assert |entries[key := reason]| == |entries[key := reason].Keys|;
    }
  }

  /** The details kept when these failures are recorded, one by one, over those already kept. */
  function ListedFrom<K(==)>(entries: map<K, string>, failures: seq<Failure<K>>): map<K, string> {
    if failures == [] then entries
    else
      var last := failures[|failures| - 1];
      Inserted(ListedFrom(entries, failures[..|failures| - 1]), last.key, last.reason)
  }

  /** The details that recording these failures in this order keeps. */
  function ListedBy<K(==)>(failures: seq<Failure<K>>): map<K, string> {
    ListedFrom(map[], failures)
  }

  /** The tally when these failures are recorded, one by one, over those already counted. */
  function TalliedFrom<K(==)>(entries: map<K, string>, beyondCap: nat, failures: seq<Failure<K>>): nat {
    if failures == [] then beyondCap
    else
      var before := failures[..|failures| - 1];
      Tallied(ListedFrom(entries, before), TalliedFrom(entries, beyondCap, before), failures[|failures| - 1].key)
  }

  /** The tally that recording these failures in this order leaves. */
  function TalliedBy<K(==)>(failures: seq<Failure<K>>): nat {
    TalliedFrom(map[], 0, failures)
  }

  lemma RecordEntries<K>(entries: map<K, string>, beyondCap: nat, recorded: seq<Failure<K>>, f: Failure<K>)
    requires EntriesOk(entries, beyondCap, recorded)
    ensures EntriesOk(Inserted(entries, f.key, f.reason), Tallied(entries, beyondCap, f.key), recorded + [f])
  {
    KeySetOfAppend(recorded, [f]);
    assert KeySet([f]) == {f.key};
    InsertedSize(entries, f.key, f.reason);
    var after := Inserted(entries, f.key, f.reason);
    forall k | k in after ensures exists g :: g in recorded + [f] && g.key == k && g.reason == after[k] {
      if k in entries {
        var g :| g in recorded && g.key == k && g.reason == entries[k];
        assert g in recorded + [f];
      } else {
        assert f in recorded + [f];
      }
    }
  }

  class SkippedPaths<K(==,!new)> {
    const less: Less<K>
    var entries: map<K, string>
    var beyondCap: nat
    var minimum: Option<(K, string)>
    ghost var recorded: seq<Failure<K>>

    ghost predicate Valid()
      reads this
    {
      && StrictTotalOrder(less)
      && EntriesOk(entries, beyondCap, recorded)
      && MinimumOk(less, minimum, recorded)
    }

    constructor (less: Less<K>)
      requires StrictTotalOrder(less)
      ensures Valid() && recorded == [] && this.less == less
      ensures entries == map[] && beyondCap == 0 && minimum.None?
    {
      this.less := less;
      entries, beyondCap, minimum, recorded := map[], 0, None, [];
    }

    /** Keeps a new failure in detail, or counts it once the cap is reached. */
    method Insert(key: K, reason: string)
      modifies this`entries, this`beyondCap
      ensures entries == Inserted(old(entries), key, reason)
      ensures beyondCap == Tallied(old(entries), old(beyondCap), key)
    {
      if key in entries { return; }
      if |entries| < SKIPPED_DETAIL_CAP {
        entries := entries[key := reason];
      } else {
        beyondCap := SaturatingAdd(beyondCap, 1);
      }
    }

    /** Accounts for one more failure. */
    method Record(failure: Failure<K>)
      requires Valid()
      modifies this
      ensures Valid() && recorded == old(recorded) + [failure]
      ensures entries == Inserted(old(entries), failure.key, failure.reason)
      ensures beyondCap == Tallied(old(entries), old(beyondCap), failure.key)
      ensures minimum == MinimumOf(less, old(minimum), Some((failure.key, failure.message)))
    {
      hide StrictTotalOrder, EntriesOk, MinimumOk;
      RecordMinimum(less, minimum, recorded, failure);
      RecordEntries(entries, beyondCap, recorded, failure);
      if minimum.None? || less(failure.key, minimum.value.0) {
        minimum := Some((failure.key, failure.message));
      }
      Insert(failure.key, failure.reason);
      recorded := recorded + [failure];
    }

    /** Inserts another report's details, in any order. */
    method InsertAll(details: map<K, string>) returns (ghost lost: Option<K>)
      requires |entries| <= SKIPPED_DETAIL_CAP
      modifies this`entries, this`beyondCap
      ensures Merging(old(entries), old(beyondCap), details, details.Keys, entries, beyondCap, lost)
    {
      hide StrictTotalOrder, EntriesOk, MinimumOk, Inserted, Tallied;
      lost := None;
      var left := details.Keys;
      ghost var done: set<K> := {};
      while left != {}
        invariant done + left == details.Keys && done !! left
        invariant Merging(old(entries), old(beyondCap), details, done, entries, beyondCap, lost)
        decreases |left|
      {
        hide Merging;
        var key :| key in left;
        lost := MergeStep(old(entries), old(beyondCap), details, done, entries, beyondCap, lost, key);
        Insert(key, details[key]);
        left := left - {key};
        done := done + {key};
      }
      assert done == details.Keys;
    }

    method AdoptMinimum(candidate: Option<(K, string)>)
      modifies this`minimum
      ensures minimum == MinimumOf(less, old(minimum), candidate)
    {
      if candidate.Some? && (minimum.None? || less(candidate.value.0, minimum.value.0)) {
        minimum := candidate;
      }
    }

    /** Accounts for everything another report accounts for. */
    method Merge(other: SkippedPaths<K>)
      requires Valid() && other.Valid() && other != this && other.less == less
      modifies this
      ensures Valid() && recorded == old(recorded) + other.recorded
    {
      assert EntriesOk(entries, beyondCap, recorded) && MinimumOk(less, minimum, recorded) && StrictTotalOrder(less);
      assert EntriesOk(other.entries, other.beyondCap, other.recorded) && MinimumOk(less, other.minimum, other.recorded);
      hide *;
      ReportSize(entries, beyondCap, recorded);
      MergeMinimum(less, minimum, recorded, other.minimum, other.recorded);
      AdoptMinimum(other.minimum);
      ghost var lost := InsertAll(other.entries);
      MergeEnd(old(entries), old(beyondCap), recorded, other.entries, other.beyondCap, other.recorded, entries, beyondCap, lost);
      beyondCap := SaturatingAdd(beyondCap, other.beyondCap);
      recorded := recorded + other.recorded;
      ValidByParts();
    }

    lemma ValidByParts()
      requires EntriesOk(entries, beyondCap, recorded) && MinimumOk(less, minimum, recorded) && StrictTotalOrder(less)
      ensures Valid()
    {
    }

    /** Nothing has been recorded; a report that says so hides no failure. */
    method IsEmpty() returns (empty: bool)
      requires Valid()
      ensures empty == (recorded == [])
    {
      empty := |entries| == 0 && beyondCap == 0;
      if recorded != [] { assert recorded[0].key in KeySet(recorded); }
    }
  }

  // ----- the lowest-ranked failure

  function MinimumOf<K>(less: Less<K>, a: Option<(K, string)>, b: Option<(K, string)>): Option<(K, string)> {
    if b.Some? && (a.None? || less(b.value.0, a.value.0)) then b else a
  }

  lemma RecordMinimum<K(!new)>(less: Less<K>, minimum: Option<(K, string)>, recorded: seq<Failure<K>>, f: Failure<K>)
    requires StrictTotalOrder(less) && MinimumOk(less, minimum, recorded)
    ensures MinimumOk(less, MinimumOf(less, minimum, Some((f.key, f.message))), recorded + [f])
  {
    assert f in [f];
    MergeMinimum(less, minimum, recorded, Some((f.key, f.message)), [f]);
  }

  lemma MergeMinimum<K(!new)>(
    less: Less<K>, a: Option<(K, string)>, r: seq<Failure<K>>, b: Option<(K, string)>, s: seq<Failure<K>>)
    requires StrictTotalOrder(less) && MinimumOk(less, a, r) && MinimumOk(less, b, s)
    ensures MinimumOk(less, MinimumOf(less, a, b), r + s)
  {
    var m := MinimumOf(less, a, b);
    if m.Some? {
      if m == b && b.Some? {
        var f :| f in s && f.key == m.value.0 && f.message == m.value.1;
        assert f in r + s;
      } else {
        var f :| f in r && f.key == m.value.0 && f.message == m.value.1;
        assert f in r + s;
      }
    }
  }

  // ----- merging the details

  /** The details of `done` have been merged in; `lost` is one that found no room. */
  ghost predicate Merging<K>(
    e0: map<K, string>, b0: nat, other: map<K, string>, done: set<K>, e: map<K, string>, b: nat, lost: Option<K>)
  {
    && |e| <= SKIPPED_DETAIL_CAP
    && (forall k :: k in e0 ==> k in e)
    && (forall k :: k in e ==> (k in e0 && e[k] == e0[k]) || (k in done && k in other && e[k] == other[k]))
    && (forall k :: k in done ==> k in other)
    && (match lost
        case None => (forall k :: k in done ==> k in e) && b == b0
        case Some(x) => x in done && x !in e && |e| == SKIPPED_DETAIL_CAP && b > 0)
  }

  lemma ReportSize<K>(entries: map<K, string>, beyondCap: nat, recorded: seq<Failure<K>>)
    requires EntriesOk(entries, beyondCap, recorded)
    ensures |entries| <= SKIPPED_DETAIL_CAP
  {
  }

  lemma MergeStep<K>(
    e0: map<K, string>, b0: nat, other: map<K, string>, done: set<K>, e: map<K, string>, b: nat, lost: Option<K>, key: K)
    returns (lost': Option<K>)
    requires Merging(e0, b0, other, done, e, b, lost) && key in other && key !in done
    ensures Merging(e0, b0, other, done + {key}, Inserted(e, key, other[key]), Tallied(e, b, key), lost')
  {
    InsertedSize(e, key, other[key]);
    lost' := if key !in e && |e| >= SKIPPED_DETAIL_CAP then Some(key) else lost;
  }

  lemma MergeEnd<K>(
    e0: map<K, string>, b0: nat, r: seq<Failure<K>>, other: map<K, string>, ob: nat, s: seq<Failure<K>>,
    e: map<K, string>, b: nat, lost: Option<K>)
    requires EntriesOk(e0, b0, r) && EntriesOk(other, ob, s)
    requires Merging(e0, b0, other, other.Keys, e, b, lost)
    ensures EntriesOk(e, SaturatingAdd(b, ob), r + s)
  {
    MergeReasons(e0, b0, r, other, ob, s, e, b, lost);
    MergedKeys(e0, b0, r, other, ob, s, e, b, lost);
    hide KeySet;
  }

  lemma MergedKeys<K>(
    e0: map<K, string>, b0: nat, r: seq<Failure<K>>, other: map<K, string>, ob: nat, s: seq<Failure<K>>,
    e: map<K, string>, b: nat, lost: Option<K>)
    requires EntriesOk(e0, b0, r) && EntriesOk(other, ob, s)
    requires Merging(e0, b0, other, other.Keys, e, b, lost)
    ensures (e.Keys == KeySet(r + s) && b == 0 && ob == 0)
         || (e.Keys < KeySet(r + s) && b + ob > 0 && |e| == SKIPPED_DETAIL_CAP)
  {
    KeySetOfAppend(r, s);
    hide KeySet;
    assert |e.Keys| == |e| && |e0.Keys| == |e0| && |other.Keys| == |other|;
    assert e.Keys <= KeySet(r) + KeySet(s);
    if lost.Some? {
      assert lost.value in KeySet(s);
    } else if b0 > 0 {
      SubsetSize(e0.Keys, e.Keys);
    } else if ob > 0 {
      SubsetSize(other.Keys, e.Keys);
    } else {
      assert e.Keys == KeySet(r) + KeySet(s);
    }
  }

  lemma MergeReasons<K>(
    e0: map<K, string>, b0: nat, r: seq<Failure<K>>, other: map<K, string>, ob: nat, s: seq<Failure<K>>,
    e: map<K, string>, b: nat, lost: Option<K>)
    requires EntriesOk(e0, b0, r) && EntriesOk(other, ob, s)
    requires Merging(e0, b0, other, other.Keys, e, b, lost)
    ensures forall k :: k in e ==> exists f :: f in r + s && f.key == k && f.reason == e[k]
  {
    forall k | k in e ensures exists f :: f in r + s && f.key == k && f.reason == e[k] {
      if k in e0 && e[k] == e0[k] {
        var f :| f in r && f.key == k && f.reason == e0[k];
        assert f in r + s;
      } else {
        var f :| f in s && f.key == k && f.reason == other[k];
        assert f in r + s;
      }
    }
  }

  // ----- what recording in order keeps

  lemma ListedFromNext<K>(entries: map<K, string>, failures: seq<Failure<K>>, f: Failure<K>)
    ensures ListedFrom(entries, failures + [f]) == Inserted(ListedFrom(entries, failures), f.key, f.reason)
  {
    assert (failures + [f])[..|failures|] == failures;
  }

  lemma {:induction false} ListedFromAppend<K>(entries: map<K, string>, a: seq<Failure<K>>, b: seq<Failure<K>>)
    ensures ListedFrom(entries, a + b) == ListedFrom(ListedFrom(entries, a), b)
  {
    if b == [] {
      assert a + b == a;
    } else {
      var before, last := b[..|b| - 1], b[|b| - 1];
      assert a + b == a + before + [last];
      ListedFromAppend(entries, a, before);
      ListedFromNext(entries, a + before, last);
    }
  }

  lemma TalliedFromNext<K>(entries: map<K, string>, beyondCap: nat, failures: seq<Failure<K>>, f: Failure<K>)
    ensures TalliedFrom(entries, beyondCap, failures + [f])
         == Tallied(ListedFrom(entries, failures), TalliedFrom(entries, beyondCap, failures), f.key)
  {
    assert (failures + [f])[..|failures|] == failures;
  }

  lemma {:induction false} TalliedFromAppend<K>(
    entries: map<K, string>, beyondCap: nat, a: seq<Failure<K>>, b: seq<Failure<K>>)
    ensures TalliedFrom(entries, beyondCap, a + b)
         == TalliedFrom(ListedFrom(entries, a), TalliedFrom(entries, beyondCap, a), b)
  {
    if b == [] {
      assert a + b == a;
    } else {
      var before, last := b[..|b| - 1], b[|b| - 1];
      assert a + b == a + before + [last];
      TalliedFromAppend(entries, beyondCap, a, before);
      ListedFromAppend(entries, a, before);
      TalliedFromNext(entries, beyondCap, a + before, last);
    }
  }

  /** How many of the failures have a key outside the set. */
  function CountOutside<K(==)>(failures: seq<Failure<K>>, keys: set<K>): nat {
    if failures == [] then 0
    else
      CountOutside(failures[..|failures| - 1], keys) + (if failures[|failures| - 1].key in keys then 0 else 1)
  }

  lemma {:induction false} NoneOutside<K>(failures: seq<Failure<K>>, keys: set<K>)
    requires KeySet(failures) <= keys
    ensures CountOutside(failures, keys) == 0
  {
    if failures != [] {
      var before, last := failures[..|failures| - 1], failures[|failures| - 1];
      assert failures == before + [last];
      KeySetOfAppend(before, [last]);
      assert last.key in KeySet([last]) by { assert last in [last]; }
      NoneOutside(before, keys);
    }
  }

  /** The tally counts exactly the failures, repeated ones too, whose paths are not listed in the end. */
  lemma {:induction false} TallyCountsTheUnlisted<K>(failures: seq<Failure<K>>)
    ensures TalliedBy(failures) == Min(CountOutside(failures, ListedBy(failures).Keys), WORD_MAX)
  {
    if failures != [] {
      var before, last := failures[..|failures| - 1], failures[|failures| - 1];
      assert failures == before + [last];
      TallyCountsTheUnlisted(before);
      var tally := ListedIsReport(before);
      assert |ListedBy(before).Keys| == |ListedBy(before)|;
      InsertedSize(ListedBy(before), last.key, last.reason);
      if |ListedBy(before)| < SKIPPED_DETAIL_CAP {
        NoneOutside(before, ListedBy(before).Keys);
        NoneOutside(before, ListedBy(failures).Keys);
      }
    }
  }

  lemma {:induction false} ListedIsReport<K>(failures: seq<Failure<K>>) returns (beyondCap: nat)
    ensures EntriesOk(ListedBy(failures), beyondCap, failures)
  {
    if failures == [] {
      beyondCap := 0;
    } else {
      hide EntriesOk, Inserted, Tallied, KeySet;
      var before, last := failures[..|failures| - 1], failures[|failures| - 1];
      var tally := ListedIsReport(before);
      RecordEntries(ListedBy(before), tally, before, last);
      assert failures == before + [last];
      beyondCap := Tallied(ListedBy(before), tally, last.key);
    }
  }

  /** Details are never dropped, and a full list never changes. */
  lemma {:induction false} ListedGrows<K>(entries: map<K, string>, failures: seq<Failure<K>>)
    requires |entries| <= SKIPPED_DETAIL_CAP
    ensures entries.Keys <= ListedFrom(entries, failures).Keys
    ensures |ListedFrom(entries, failures)| <= SKIPPED_DETAIL_CAP
    ensures |entries| == SKIPPED_DETAIL_CAP ==> ListedFrom(entries, failures) == entries
  {
    if failures != [] {
      var before, last := failures[..|failures| - 1], failures[|failures| - 1];
      ListedGrows(entries, before);
      InsertedSize(ListedFrom(entries, before), last.key, last.reason);
    }
  }

  /**
   What is listed over other details is listed without them too, and unless
   the list is full, the other way round.
   */
  lemma {:induction false} ListedOver<K>(entries: map<K, string>, failures: seq<Failure<K>>)
    requires |entries| <= SKIPPED_DETAIL_CAP
    ensures ListedFrom(entries, failures).Keys <= entries.Keys + ListedBy(failures).Keys
    ensures |ListedFrom(entries, failures)| == SKIPPED_DETAIL_CAP
         || ListedBy(failures).Keys <= ListedFrom(entries, failures).Keys
  {
    if failures != [] {
      var before, last := failures[..|failures| - 1], failures[|failures| - 1];
      ListedOver(entries, before);
      ListedGrows(entries, before);
      ListedOverNext(ListedFrom(entries, before), ListedBy(before), last);
    }
  }

  lemma ListedOverNext<K>(e: map<K, string>, l: map<K, string>, f: Failure<K>)
    requires |e| <= SKIPPED_DETAIL_CAP && (|e| == SKIPPED_DETAIL_CAP || l.Keys <= e.Keys)
    ensures var e', l' := Inserted(e, f.key, f.reason), Inserted(l, f.key, f.reason);
      e'.Keys <= e.Keys + l'.Keys && l.Keys <= l'.Keys && (|e'| == SKIPPED_DETAIL_CAP || l'.Keys <= e'.Keys)
  {
    InsertedSize(e, f.key, f.reason);
    InsertedSize(l, f.key, f.reason);
    assert |e.Keys| == |e| && |l.Keys| == |l|;
    if |e| < SKIPPED_DETAIL_CAP { SubsetSize(l.Keys, e.Keys); }
  }

  // ----- what the report determines

  /** At most 256 distinct keys: every one is listed, with its reason, and the tally is exact. */
  lemma {:induction false} SmallReportIsExact<K>(entries: map<K, string>, beyondCap: nat, recorded: seq<Failure<K>>)
    requires EntriesOk(entries, beyondCap, recorded) && Determined(recorded)
    ensures |KeySet(recorded)| <= 256 <==> beyondCap == 0
    ensures beyondCap == 0 ==> entries.Keys == KeySet(recorded)
    ensures forall f :: f in recorded && f.key in entries ==> entries[f.key] == f.reason
  {
    if beyondCap > 0 { SubsetSize(entries.Keys, KeySet(recorded)); }
    assert |entries.Keys| == |entries|;
  }

  /** Two reports of the same failures agree, however they were collected: the lowest failure always, the rest up to the cap. */
  lemma {:induction false} ReportsAgree<K(!new)>(
    less: Less<K>, e: map<K, string>, b: nat, m: Option<(K, string)>, r: seq<Failure<K>>, e': map<K, string>, b': nat,
    m': Option<(K, string)>, r': seq<Failure<K>>)
    requires StrictTotalOrder(less) && Determined(r) && multiset(r) == multiset(r')
    requires EntriesOk(e, b, r) && EntriesOk(e', b', r') && MinimumOk(less, m, r) && MinimumOk(less, m', r')
    ensures m == m'
    ensures |KeySet(r)| <= SKIPPED_DETAIL_CAP ==> e == e' && b == b' == 0
    ensures |KeySet(r)| > SKIPPED_DETAIL_CAP ==> b > 0 && b' > 0 && |e| == |e'| == SKIPPED_DETAIL_CAP
  {
    SameMembers(r, r');
    assert KeySet(r) == KeySet(r');
    assert Determined(r') by { hide EntriesOk, MinimumOk, StrictTotalOrder; }
    SmallReportIsExact(e, b, r);
    SmallReportIsExact(e', b', r');
    MinimaAgree(less, m, r, m', r');
    if b == 0 {
      SameEntries(e, r, e', r');
    }
  }

  lemma SameMembers<T>(a: seq<T>, b: seq<T>)
    requires multiset(a) == multiset(b)
    ensures forall x :: x in a <==> x in b
  {
    assert forall x :: x in a <==> x in multiset(a);
    assert forall x :: x in b <==> x in multiset(b);
  }

  lemma SameEntries<K>(e: map<K, string>, r: seq<Failure<K>>, e': map<K, string>, r': seq<Failure<K>>)
    requires forall f :: f in r <==> f in r'
    requires e.Keys == KeySet(r) && e'.Keys == KeySet(r')
    requires forall f :: f in r && f.key in e ==> e[f.key] == f.reason
    requires forall f :: f in r' && f.key in e' ==> e'[f.key] == f.reason
    ensures e == e'
  {
    assert e.Keys == e'.Keys;
    forall k | k in e ensures e[k] == e'[k] {
      var f :| f in r && f.key == k;
    }
  }

  lemma MinimaAgree<K(!new)>(
    less: Less<K>, m: Option<(K, string)>, r: seq<Failure<K>>, m': Option<(K, string)>, r': seq<Failure<K>>)
    requires StrictTotalOrder(less) && Determined(r) && forall f :: f in r <==> f in r'
    requires MinimumOk(less, m, r) && MinimumOk(less, m', r')
    ensures m == m'
  {
    if m.Some? { assert r != [] && r[0] in r && r[0] in r'; }
    if m'.Some? { assert r' != [] && r'[0] in r' && r'[0] in r; }
    if m.Some? && m'.Some? {
      var f :| f in r && f.key == m.value.0 && f.message == m.value.1;
      var g :| g in r' && g.key == m'.value.0 && g.message == m'.value.1;
      assert !less(g.key, f.key) && !less(f.key, g.key);
    }
  }
}

/** What the cancel scan leaves, bucket by bucket, in terms of the unsorted list it is given; and when
    the asserts of `route` hold for such a list. */
module SurvivingBuckets {
  import opened Bits
  import opened Ordering
  import opened RoutingScheme
  import opened Sequences
  import opened Structures

  // ---------------------------------------------------------------- buckets of a list

  ghost predicate HasBucket(s: seq<RoutingTuple>, k: BucketKey) {
    exists x :: x in s && x.Key() == k
  }

  ghost predicate IsLeast(s: seq<RoutingTuple>, k: BucketKey) {
    HasBucket(s, k) && forall x :: x in s ==> x.Key() == k || Before(k, x.Key())
  }

  ghost predicate IsGreatest(s: seq<RoutingTuple>, k: BucketKey) {
    HasBucket(s, k) && forall x :: x in s ==> x.Key() == k || Before(x.Key(), k)
  }

  /** `b` is the bucket that comes directly after `k`. */
  ghost predicate IsNext(s: seq<RoutingTuple>, k: BucketKey, b: BucketKey) {
    && HasBucket(s, k) && HasBucket(s, b) && Before(k, b)
    && forall x :: x in s ==>
         x.Key() == k || x.Key() == b || Before(x.Key(), k) || Before(b, x.Key())
  }

  /** Dummies and cancel markers, which the order puts first in their bucket. */
  predicate IsEarly(x: RoutingTuple) { x.m.tDst <= 1 }

  ghost predicate HasMarker(s: seq<RoutingTuple>, k: BucketKey) {
    exists x :: x in s && x.m.tDst == 1 && x.Key() == k
  }

  /** The bucket has a marker and no dummy, which would come before it. */
  ghost predicate OpensWithMarker(s: seq<RoutingTuple>, b: BucketKey) {
    HasMarker(s, b) && forall x :: x in s && x.Key() == b ==> x.m.tDst != 0
  }

  /** A marker cancels its own bucket when it is in the least one or not the first of its bucket, and
      the bucket before when it is the first of its own. */
  ghost predicate MarkedIn(s: seq<RoutingTuple>, k: BucketKey) {
    || (HasMarker(s, k) && (IsLeast(s, k) || KeyCount(Filter(IsEarly, s), k) >= 2))
    || (exists b :: IsNext(s, k, b) && OpensWithMarker(s, b))
  }

  /** How many tuples of bucket `k` reach the bit-fixing step: none when it is marked; the greatest
      bucket is never too large and gains a tuple from the least, unless they are the same. */
  ghost function Left(s: seq<RoutingTuple>, kRecv: nat, k: BucketKey): int {
    if MarkedIn(s, k) then 0
    else if IsGreatest(s, k) then KeyCount(s, k) + (if IsLeast(s, k) then 0 else 1)
    else if KeyCount(s, k) > kRecv then 0
    else KeyCount(s, k) - (if IsLeast(s, k) then 1 else 0)
  }

  /** None are left. */
  ghost predicate Emptied(s: seq<RoutingTuple>, kRecv: nat, k: BucketKey) {
    || MarkedIn(s, k)
    || (!IsGreatest(s, k) && (KeyCount(s, k) > kRecv || (IsLeast(s, k) && KeyCount(s, k) == 1)))
  }

  lemma {:induction false} BucketCount(s: seq<RoutingTuple>, k: BucketKey)
    ensures KeyCount(s, k) > 0 <==> HasBucket(s, k)
  {
    if s != [] {
      var rest, x := s[..|s| - 1], s[|s| - 1];
      assert s == rest + [x];
      BucketCount(rest, k);
      assert x in s;
      if HasBucket(rest, k) {
        var y :| y in rest && y.Key() == k;
        assert y in s;
      }
    }
  }

  lemma EmptiedIff(s: seq<RoutingTuple>, kRecv: nat, k: BucketKey)
    requires HasBucket(s, k)
    ensures Emptied(s, kRecv, k) <==> Left(s, kRecv, k) == 0
  {
    hide MarkedIn, KeyCount;
    BucketCount(s, k);
  }

  lemma BeforeIsOrder(a: BucketKey, b: BucketKey)
    requires Before(a, b)
    ensures !Before(b, a) && a != b
  {
    KeyDigitsLength(a, b);
    LexIntEquiv(KeyDigits(a), KeyDigits(b));
    hide Lex, KeyDigits;
    if Before(b, a) { LexAsymmetric(KeyDigits(a), KeyDigits(b)); }
  }

  lemma LexAsymmetric(a: seq<int>, b: seq<int>)
    requires |a| == |b| && Lex(IntLess, a, b) && Lex(IntLess, b, a)
    ensures a == b
  {
    if a[0] == b[0] {
      LexAsymmetric(a[1..], b[1..]);
      assert a == [a[0]] + a[1..] && b == [b[0]] + b[1..];
    }
  }

  lemma KeyDigitsLength(a: BucketKey, b: BucketKey)
    ensures |KeyDigits(a)| == |KeyDigits(b)|
  {
  }

  // ---------------------------------------------------------------- order does not matter

  lemma {:induction false} FilterCount(p: RoutingTuple -> bool, s: seq<RoutingTuple>, x: RoutingTuple)
    ensures multiset(Filter(p, s))[x] == if p(x) then multiset(s)[x] else 0
  {
    if s != [] {
      FilterCount(p, s[..|s| - 1], x);
      assert s == s[..|s| - 1] + [s[|s| - 1]];
    }
  }

  lemma EarlyIsMultiset(s: seq<RoutingTuple>, t: seq<RoutingTuple>)
    requires multiset(s) == multiset(t)
    ensures multiset(Filter(IsEarly, s)) == multiset(Filter(IsEarly, t))
  {
    forall x ensures multiset(Filter(IsEarly, s))[x] == multiset(Filter(IsEarly, t))[x] {
      FilterCount(IsEarly, s, x);
      FilterCount(IsEarly, t, x);
    }
  }

  lemma SameMembers(s: seq<RoutingTuple>, t: seq<RoutingTuple>)
    requires multiset(s) == multiset(t)
    ensures forall x :: x in s <==> x in t
  {
    forall x ensures x in s <==> x in t { assert x in multiset(s) <==> x in multiset(t); }
  }

  lemma SameBuckets(s: seq<RoutingTuple>, t: seq<RoutingTuple>, k: BucketKey)
    requires forall x :: x in s <==> x in t
    ensures HasBucket(s, k) <==> HasBucket(t, k)
    ensures IsLeast(s, k) <==> IsLeast(t, k)
    ensures IsGreatest(s, k) <==> IsGreatest(t, k)
    ensures HasMarker(s, k) <==> HasMarker(t, k)
    ensures OpensWithMarker(s, k) <==> OpensWithMarker(t, k)
  {
    hide Before;
  }

  lemma SameNext(s: seq<RoutingTuple>, t: seq<RoutingTuple>, k: BucketKey, b: BucketKey)
    requires forall x :: x in s <==> x in t
    ensures IsNext(s, k, b) <==> IsNext(t, k, b)
  {
    SameBuckets(s, t, k);
    SameBuckets(s, t, b);
    hide Before, HasBucket;
  }

  lemma SameMarkedIn(s: seq<RoutingTuple>, t: seq<RoutingTuple>, k: BucketKey)
    requires multiset(s) == multiset(t)
    ensures MarkedIn(s, k) <==> MarkedIn(t, k)
  {
    SameMembers(s, t);
    SameBuckets(s, t, k);
    EarlyIsMultiset(s, t);
    KeyCountIsMultiset(Filter(IsEarly, s), Filter(IsEarly, t), k);
    hide KeyCount, Filter, HasMarker, IsLeast, IsNext, OpensWithMarker;
    forall b ensures IsNext(s, k, b) && OpensWithMarker(s, b) <==> IsNext(t, k, b) && OpensWithMarker(t, b) {
      SameNext(s, t, k, b);
      SameBuckets(s, t, b);
    }
  }

  lemma SameLeft(s: seq<RoutingTuple>, t: seq<RoutingTuple>, kRecv: nat, k: BucketKey)
    requires multiset(s) == multiset(t)
    ensures Left(s, kRecv, k) == Left(t, kRecv, k)
  {
    SameMembers(s, t);
    SameBuckets(s, t, k);
    SameMarkedIn(s, t, k);
    KeyCountIsMultiset(s, t, k);
    hide KeyCount, MarkedIn, IsLeast, IsGreatest;
  }

  // ---------------------------------------------------------------- early tuples

  ghost predicate EarlyIn(x: RoutingTuple, k: BucketKey) { IsEarly(x) && x.Key() == k }

  /** Two early tuples of a bucket, at different places, are counted as two. */
  lemma {:induction false} TwoEarly(s: seq<RoutingTuple>, k: BucketKey, i: nat, j: nat)
    requires i < j < |s| && EarlyIn(s[i], k) && EarlyIn(s[j], k)
    ensures KeyCount(Filter(IsEarly, s), k) >= 2
  {
    hide KeyCount, Filter, EarlyIn;
    EarlyStep(s, k);
    if j == |s| - 1 { OneEarly(s[..j], k, i); } else { TwoEarly(s[..|s| - 1], k, i, j); }
  }

  lemma {:induction false} OneEarly(s: seq<RoutingTuple>, k: BucketKey, i: nat)
    requires i < |s| && EarlyIn(s[i], k)
    ensures KeyCount(Filter(IsEarly, s), k) >= 1
  {
    hide KeyCount, Filter, EarlyIn;
    EarlyStep(s, k);
    if i < |s| - 1 { OneEarly(s[..|s| - 1], k, i); }
  }

  lemma {:induction false} FindEarly(s: seq<RoutingTuple>, k: BucketKey) returns (j: nat)
    requires KeyCount(Filter(IsEarly, s), k) >= 1
    ensures j < |s| && EarlyIn(s[j], k)
  {
    NothingEarly(k);
    hide EarlyIn, KeyCount, Filter;
    EarlyStep(s, k);
    j := |s| - 1;
    if !EarlyIn(s[j], k) { j := FindEarly(s[..j], k); }
  }

  lemma NothingEarly(k: BucketKey)
    ensures KeyCount(Filter(IsEarly, []), k) == 0
  {
  }

  /** Conversely, beside an early tuple that is not the only one there is another. */
  lemma {:induction false} AnotherEarly(s: seq<RoutingTuple>, k: BucketKey, i: nat) returns (j: nat)
    requires i < |s| && EarlyIn(s[i], k) && KeyCount(Filter(IsEarly, s), k) >= 2
    ensures j < |s| && j != i && EarlyIn(s[j], k)
  {
    hide KeyCount, Filter, EarlyIn;
    EarlyStep(s, k);
    j := |s| - 1;
    if i == j { j := FindEarly(s[..j], k); }
    else if !EarlyIn(s[j], k) { j := AnotherEarly(s[..j], k, i); }
  }

  lemma EarlyStep(s: seq<RoutingTuple>, k: BucketKey)
    requires s != []
    ensures KeyCount(Filter(IsEarly, s), k)
         == KeyCount(Filter(IsEarly, s[..|s| - 1]), k) + (if EarlyIn(s[|s| - 1], k) then 1 else 0)
  {
    var rest, x := Filter(IsEarly, s[..|s| - 1]), s[|s| - 1];
    if IsEarly(x) { KeyCountConcat(rest, [x], k); KeyCountOne(x, k); }
  }

  /** Within a bucket a sorted list goes by delivery time. */
  lemma TimesAscend(sorted: seq<RoutingTuple>, i: nat, j: nat)
    requires Sorted(RoutingLess, sorted) && i <= j < |sorted| && sorted[i].Key() == sorted[j].Key()
    ensures sorted[i].m.tDst <= sorted[j].m.tDst
  {
    var a, b := sorted[i], sorted[j];
    if b.m.tDst < a.m.tDst { LexSamePrefix(KeyDigits(a.Key()), b.m.tDst, a.m.tDst); }
  }

  lemma {:induction false} LexSamePrefix(a: seq<int>, x: int, y: int)
    requires x < y
    ensures Lex(IntLess, a + [x], a + [y])
  {
    if a != [] {
      assert (a + [x])[1..] == a[1..] + [x] && (a + [y])[1..] == a[1..] + [y];
      LexSamePrefix(a[1..], x, y);
    }
  }

  // ---------------------------------------------------------------- the sorted list

  lemma FirstIsLeast(sorted: seq<RoutingTuple>, k: BucketKey)
    requires sorted != [] && Sorted(RoutingLess, sorted)
    ensures IsLeast(sorted, k) <==> sorted[0].Key() == k
    ensures IsGreatest(sorted, k) <==> LastKey(sorted) == k
  {
    hide Sorted, Before;
    var n := |sorted| - 1;
    assert sorted[0] in sorted && sorted[n] in sorted;
    forall x | x in sorted
      ensures x.Key() == sorted[0].Key() || Before(sorted[0].Key(), x.Key())
      ensures x.Key() == sorted[n].Key() || Before(x.Key(), sorted[n].Key())
    {
      var i :| 0 <= i < |sorted| && sorted[i] == x;
      KeysAscend(sorted, 0, i);
      KeysAscend(sorted, i, n);
    }
    if IsLeast(sorted, k) && sorted[0].Key() != k { BeforeIsOrder(k, sorted[0].Key()); }
    if IsGreatest(sorted, k) && sorted[n].Key() != k { BeforeIsOrder(sorted[n].Key(), k); }
  }

  lemma CancelIsEarly(x: RoutingTuple)
    requires x.m.IsCancel()
    ensures EarlyIn(x, x.Key())
  {
  }

  lemma MarkedAt(sorted: seq<RoutingTuple>, i: nat)
    requires i < |sorted| && sorted[i].m.IsCancel()
    ensures Marked(sorted, sorted[Previous(i)].Key())
  {
  }

  /** Of two early tuples of a bucket, one of them a marker, the later is a marker, and not the first
      of its bucket. */
  lemma LaterIsMarker(sorted: seq<RoutingTuple>, lo: nat, hi: nat, k: BucketKey)
    requires Sorted(RoutingLess, sorted) && lo < hi < |sorted|
    requires EarlyIn(sorted[lo], k) && EarlyIn(sorted[hi], k) && (sorted[lo].m.IsCancel() || sorted[hi].m.IsCancel())
    ensures Marked(sorted, k)
  {
    hide Sorted, Marked;
    TimesAscend(sorted, lo, hi);
    BucketsContiguous(sorted, lo, hi - 1, hi);
    MarkedAt(sorted, hi);
  }

  /** A bucket and the one that begins directly behind it. */
  lemma AdjacentIsNext(sorted: seq<RoutingTuple>, i: nat)
    requires Sorted(RoutingLess, sorted) && 0 < i < |sorted| && sorted[i - 1].Key() != sorted[i].Key()
    ensures IsNext(sorted, sorted[i - 1].Key(), sorted[i].Key())
  {
    hide Sorted, Before;
    KeysAscend(sorted, i - 1, i);
    assert sorted[i - 1] in sorted && sorted[i] in sorted;
    forall x | x in sorted
      ensures x.Key() == sorted[i - 1].Key() || x.Key() == sorted[i].Key()
           || Before(x.Key(), sorted[i - 1].Key()) || Before(sorted[i].Key(), x.Key())
    {
      var j :| 0 <= j < |sorted| && sorted[j] == x;
      if j < i { KeysAscend(sorted, j, i - 1); } else { KeysAscend(sorted, i, j); }
    }
  }

  /** A marker that begins a run: its bucket has no dummy. */
  lemma RunOpensWithMarker(sorted: seq<RoutingTuple>, i: nat)
    requires Sorted(RoutingLess, sorted) && 0 < i < |sorted| && sorted[i - 1].Key() != sorted[i].Key()
    requires sorted[i].m.IsCancel()
    ensures OpensWithMarker(sorted, sorted[i].Key())
  {
    hide Sorted;
    assert sorted[i] in sorted;
    forall x | x in sorted && x.Key() == sorted[i].Key() ensures !x.m.IsDummy() {
      var j :| 0 <= j < |sorted| && sorted[j] == x;
      if j < i { BucketsContiguous(sorted, j, i - 1, i); } else { TimesAscend(sorted, i, j); }
    }
  }

  lemma MarkedInIfMarked(sorted: seq<RoutingTuple>, k: BucketKey)
    requires Sorted(RoutingLess, sorted) && Marked(sorted, k)
    ensures MarkedIn(sorted, k)
  {
    hide Sorted, KeyCount, Filter, IsLeast, IsNext, OpensWithMarker;
    var i :| 0 <= i < |sorted| && sorted[i].m.IsCancel() && sorted[Previous(i)].Key() == k;
    assert sorted[i] in sorted;
    if sorted[i].Key() != k {
      AdjacentIsNext(sorted, i);
      RunOpensWithMarker(sorted, i);
    } else if i == 0 {
      FirstIsLeast(sorted, k);
    } else {
      TimesAscend(sorted, i - 1, i);
      TwoEarly(sorted, k, i - 1, i);
    }
  }

  /** The first place of a bucket with a tuple at `i`. */
  lemma {:induction false} FirstOfBucket(sorted: seq<RoutingTuple>, i: nat) returns (f: nat)
    requires i < |sorted|
    ensures f <= i && sorted[f].Key() == sorted[i].Key()
    ensures forall j :: 0 <= j < f ==> sorted[j].Key() != sorted[i].Key()
    decreases i
  {
    f := i;
    if j :| 0 <= j < i && sorted[j].Key() == sorted[i].Key() { f := FirstOfBucket(sorted, j); }
  }

  /** The tuple before the first of a bucket belongs to the bucket before. */
  lemma BeforeFirst(sorted: seq<RoutingTuple>, f: nat, k: BucketKey)
    requires Sorted(RoutingLess, sorted) && f < |sorted| && IsNext(sorted, k, sorted[f].Key())
    requires forall j :: 0 <= j < f ==> sorted[j].Key() != sorted[f].Key()
    ensures f > 0 && sorted[f - 1].Key() == k
  {
    hide Sorted, Before;
    var b := sorted[f].Key();
    BeforeIsOrder(k, b);
    var x :| x in sorted && x.Key() == k;
    var j :| 0 <= j < |sorted| && sorted[j] == x;
    if f <= j { KeysAscend(sorted, f, j); }
    assert j < f;
    KeysAscend(sorted, j, f - 1);
    KeysAscend(sorted, f - 1, f);
    var y := sorted[f - 1];
    assert y in sorted;
    if y.Key() != k {
      BeforeIsOrder(k, y.Key());
      if Before(b, y.Key()) { BeforeIsOrder(b, y.Key()); }
    }
  }

  /** A bucket without dummies but with a marker begins with a marker. */
  lemma FirstIsMarker(sorted: seq<RoutingTuple>, f: nat)
    requires Sorted(RoutingLess, sorted) && f < |sorted| && OpensWithMarker(sorted, sorted[f].Key())
    requires forall j :: 0 <= j < f ==> sorted[j].Key() != sorted[f].Key()
    ensures sorted[f].m.IsCancel()
  {
    hide Sorted;
    var x :| x in sorted && x.m.tDst == 1 && x.Key() == sorted[f].Key();
    var i :| 0 <= i < |sorted| && sorted[i] == x;
    assert sorted[f] in sorted;
    TimesAscend(sorted, f, i);
  }

  lemma MarkedIfNext(sorted: seq<RoutingTuple>, k: BucketKey, b: BucketKey)
    requires Sorted(RoutingLess, sorted) && IsNext(sorted, k, b) && OpensWithMarker(sorted, b)
    ensures Marked(sorted, k)
  {
    hide Sorted, Marked, OpensWithMarker;
    var x :| x in sorted && x.Key() == b;
    var i :| 0 <= i < |sorted| && sorted[i] == x;
    hide IsNext;
    var f := FirstOfBucket(sorted, i);
    BeforeFirst(sorted, f, k);
    FirstIsMarker(sorted, f);
    MarkedAt(sorted, f);
  }

  lemma MarkedIfOwn(sorted: seq<RoutingTuple>, k: BucketKey)
    requires Sorted(RoutingLess, sorted) && HasMarker(sorted, k)
    requires IsLeast(sorted, k) || KeyCount(Filter(IsEarly, sorted), k) >= 2
    ensures Marked(sorted, k)
  {
    hide Sorted, KeyCount, Filter, EarlyIn, Marked, IsLeast;
    var x :| x in sorted && x.m.IsCancel() && x.Key() == k;
    var i :| 0 <= i < |sorted| && sorted[i] == x;
    if IsLeast(sorted, k) {
      FirstIsLeast(sorted, k);
      BucketsContiguous(sorted, 0, Previous(i), i);
      MarkedAt(sorted, i);
    } else {
      CancelIsEarly(sorted[i]);
      var j := AnotherEarly(sorted, k, i);
      LaterIsMarker(sorted, if i < j then i else j, if i < j then j else i, k);
    }
  }

  /** The buckets that cancel markers are charged to. */
  lemma MarkedIff(sorted: seq<RoutingTuple>, k: BucketKey)
    requires Sorted(RoutingLess, sorted)
    ensures Marked(sorted, k) <==> MarkedIn(sorted, k)
  {
    if Marked(sorted, k) { MarkedInIfMarked(sorted, k); }
    hide Sorted, Marked, KeyCount, Filter, HasMarker, IsLeast, IsNext, OpensWithMarker;
    if MarkedIn(sorted, k) {
      if b :| IsNext(sorted, k, b) && OpensWithMarker(sorted, b) {
        MarkedIfNext(sorted, k, b);
      } else {
        MarkedIfOwn(sorted, k);
      }
    }
  }

  lemma LeftOfSorted(sorted: seq<RoutingTuple>, last: nat, kRecv: nat, survivors: seq<RoutingTuple>, k: BucketKey)
    requires sorted != [] && Sorted(RoutingLess, sorted) && StartsLastRun(sorted, last)
    requires IsSurvivorList(sorted, last, kRecv, survivors)
    ensures KeyCount(survivors, k) == Left(sorted, kRecv, k)
  {
    hide Sorted, KeyCount, MarkedIn, Marked, IsLeast, IsGreatest;
    var cancel: set<BucketKey> :| IsCancelSet(cancel, sorted, kRecv)
                                  && survivors == Survivors(sorted[0 := sorted[last]], cancel);
    SurvivorCount(sorted[0 := sorted[last]], cancel, k);
    KeyCountReplace(sorted, sorted[last], k);
    FirstIsLeast(sorted, k);
    MarkedIff(sorted, k);
    assert k in cancel <==> Cancelled(sorted, kRecv, k);
  }

  // ---------------------------------------------------------------- theorems about any list

  /** What every bucket of a list is left with after the scan. */
  lemma SurvivorsOfBucket(s: seq<RoutingTuple>, sorted: seq<RoutingTuple>, last: nat, kRecv: nat,
                          survivors: seq<RoutingTuple>, k: BucketKey)
    requires Sorted(RoutingLess, sorted) && multiset(sorted) == multiset(s)
    requires sorted != [] ==> StartsLastRun(sorted, last)
    requires IsSurvivorList(sorted, last, kRecv, survivors)
    ensures KeyCount(survivors, k) == Left(s, kRecv, k)
  {
    hide Sorted, KeyCount, Left, StartsLastRun;
    SameLeft(sorted, s, kRecv, k);
    if sorted == [] {
      NothingLeft(last, kRecv, survivors, k);
    } else {
      LeftOfSorted(sorted, last, kRecv, survivors, k);
    }
  }

  /** Which tuples those are: all copies of all tuples of a bucket that is not cancelled, only that one
      of the least in the order is replaced by one of the greatest bucket. */
  lemma SurvivingTuples(s: seq<RoutingTuple>, sorted: seq<RoutingTuple>, last: nat, kRecv: nat,
                        survivors: seq<RoutingTuple>, x: RoutingTuple)
    requires Sorted(RoutingLess, sorted) && multiset(sorted) == multiset(s) && s != []
    requires sorted != [] ==> StartsLastRun(sorted, last)
    requires IsSurvivorList(sorted, last, kRecv, survivors)
    ensures sorted != [] && IsLeast(s, sorted[0].Key()) && IsGreatest(s, sorted[last].Key())
    ensures multiset(survivors)[x]
         == if MarkedIn(s, x.Key()) || (!IsGreatest(s, x.Key()) && KeyCount(s, x.Key()) > kRecv) then 0
            else multiset(s)[x] - (if x == sorted[0] then 1 else 0) + (if x == sorted[last] then 1 else 0)
  {
    assert sorted != [] by { assert s[0] in multiset(sorted); }
    EndsOfSorted(s, sorted, last);
    CancelledIn(s, sorted, kRecv, x.Key());
    var cancel: set<BucketKey> :| IsCancelSet(cancel, sorted, kRecv)
                                  && survivors == Survivors(sorted[0 := sorted[last]], cancel);
    assert x.Key() in cancel <==> Cancelled(sorted, kRecv, x.Key());
    hide Sorted, KeyCount, MarkedIn, IsLeast, IsGreatest, Cancelled, IsCancelSet;
    SurvivorCopies(sorted[0 := sorted[last]], cancel, x);
    CopiesAfterReplacing(sorted, sorted[last], x);
  }

  lemma EndsOfSorted(s: seq<RoutingTuple>, sorted: seq<RoutingTuple>, last: nat)
    requires Sorted(RoutingLess, sorted) && multiset(sorted) == multiset(s) && sorted != []
    requires StartsLastRun(sorted, last)
    ensures IsLeast(s, sorted[0].Key()) && IsGreatest(s, sorted[last].Key())
  {
    SameMembers(sorted, s);
    FirstIsLeast(sorted, sorted[0].Key());
    FirstIsLeast(sorted, sorted[last].Key());
    SameBuckets(sorted, s, sorted[0].Key());
    SameBuckets(sorted, s, sorted[last].Key());
    hide Sorted, Before;
  }

  lemma CancelledIn(s: seq<RoutingTuple>, sorted: seq<RoutingTuple>, kRecv: nat, k: BucketKey)
    requires Sorted(RoutingLess, sorted) && multiset(sorted) == multiset(s) && sorted != []
    ensures Cancelled(sorted, kRecv, k) <==> MarkedIn(s, k) || (!IsGreatest(s, k) && KeyCount(s, k) > kRecv)
  {
    MarkedIff(sorted, k);
    SameMarkedIn(sorted, s, k);
    FirstIsLeast(sorted, k);
    SameMembers(sorted, s);
    SameBuckets(sorted, s, k);
    KeyCountIsMultiset(sorted, s, k);
    hide Sorted, MarkedIn, Marked, KeyCount, IsLeast, IsGreatest;
  }

  lemma {:induction false} SurvivorCopies(s: seq<RoutingTuple>, cancel: set<BucketKey>, x: RoutingTuple)
    ensures multiset(Survivors(s, cancel))[x] == if x.Key() in cancel then 0 else multiset(s)[x]
  {
    if s != [] {
      SurvivorCopies(s[..|s| - 1], cancel, x);
      assert s == s[..|s| - 1] + [s[|s| - 1]];
    }
  }

  lemma CopiesAfterReplacing(s: seq<RoutingTuple>, y: RoutingTuple, x: RoutingTuple)
    requires s != []
    ensures multiset(s[0 := y])[x] == multiset(s)[x] - (if x == s[0] then 1 else 0) + (if x == y then 1 else 0)
  {
    assert s == [s[0]] + s[1..] && s[0 := y] == [y] + s[1..];
  }

  lemma NothingLeft(last: nat, kRecv: nat, survivors: seq<RoutingTuple>, k: BucketKey)
    requires IsSurvivorList([], last, kRecv, survivors)
    ensures KeyCount(survivors, k) == Left([], kRecv, k) == 0
  {
    assert survivors == [];
  }

  /** The bucket bound: every bucket but the greatest keeps at most kRecv tuples; the greatest keeps
      all of its own, plus one when it is not the least as well, unless it is marked. So the bound
      holds for every bucket iff the greatest is marked or small enough. */
  lemma SurvivorsPerBucket(s: seq<RoutingTuple>, k: BucketKey, sorted: seq<RoutingTuple>, last: nat, kRecv: nat,
                           survivors: seq<RoutingTuple>)
    requires IsGreatest(s, k)
    requires Sorted(RoutingLess, sorted) && multiset(sorted) == multiset(s)
    requires sorted != [] ==> StartsLastRun(sorted, last)
    requires IsSurvivorList(sorted, last, kRecv, survivors)
    ensures forall b :: b != k ==> KeyCount(survivors, b) <= kRecv
    ensures KeyCount(survivors, k)
         == if MarkedIn(s, k) then 0 else KeyCount(s, k) + (if IsLeast(s, k) then 0 else 1)
    ensures (forall b :: KeyCount(survivors, b) <= kRecv) <==>
              MarkedIn(s, k) || KeyCount(s, k) + (if IsLeast(s, k) then 0 else 1) <= kRecv
  {
    hide Sorted, KeyCount, IsSurvivorList, StartsLastRun, MarkedIn, IsLeast, IsGreatest;
    forall b | b != k ensures KeyCount(survivors, b) <= kRecv {
      SurvivorsOfBucket(s, sorted, last, kRecv, survivors, b);
      if IsGreatest(s, b) { OneGreatest(s, k, b); }
    }
    SurvivorsOfBucket(s, sorted, last, kRecv, survivors, k);
  }

  lemma OneGreatest(s: seq<RoutingTuple>, k: BucketKey, b: BucketKey)
    requires IsGreatest(s, k) && IsGreatest(s, b)
    ensures k == b
  {
    hide Before;
    if k != b { BeforeIsOrder(k, b); }
  }

  /** The asserts of `route` hold iff the address round of every tuple whose bucket is not emptied by
      the scan is in range. */
  lemma AssertsHoldIff(s: seq<RoutingTuple>, sorted: seq<RoutingTuple>, last: nat, kRecv: nat,
                       survivors: seq<RoutingTuple>, curRound: U64, d: nat)
    requires Sorted(RoutingLess, sorted) && multiset(sorted) == multiset(s)
    requires sorted != [] ==> StartsLastRun(sorted, last)
    requires IsSurvivorList(sorted, last, kRecv, survivors)
    ensures AllInRange(survivors, curRound, d) <==>
              forall x :: x in s ==> IndexInRange(x.lDst, curRound, d) || Emptied(s, kRecv, x.Key())
  {
    hide Sorted, KeyCount, IsSurvivorList, Emptied, IndexInRange, Left;
    SurvivorsMembers(sorted, last, kRecv, survivors);
    SameMembers(sorted, s);
    forall x | x in s ensures Emptied(s, kRecv, x.Key()) <==> !HasBucket(survivors, x.Key()) {
      EmptiedIff(s, kRecv, x.Key());
      SurvivorsOfBucket(s, sorted, last, kRecv, survivors, x.Key());
      BucketCount(survivors, x.Key());
    }
  }

  // ---------------------------------------------------------------- a concrete list

  function Copies(x: RoutingTuple, n: nat): (s: seq<RoutingTuple>)
    ensures |s| == n && forall i :: 0 <= i < n ==> s[i] == x
  {
    if n == 0 then [] else Copies(x, n - 1) + [x]
  }

  lemma {:induction false} CopiesCount(x: RoutingTuple, n: nat)
    ensures KeyCount(Copies(x, n), x.Key()) == n
  {
    if n > 0 {
      CopiesCount(x, n - 1);
      assert Copies(x, n)[..n - 1] == Copies(x, n - 1);
    }
  }

  /** A list on which the bound fails: kRecv + 1 copies of one tuple all survive. */
  lemma SingleBucketOverflows(x: RoutingTuple, kRecv: nat, survivors: seq<RoutingTuple>)
    requires !x.m.IsCancel() && IsSurvivorList(Copies(x, kRecv + 1), 0, kRecv, survivors)
    ensures Sorted(RoutingLess, Copies(x, kRecv + 1)) && StartsLastRun(Copies(x, kRecv + 1), 0)
    ensures KeyCount(survivors, x.Key()) == kRecv + 1
  {
    hide RoutingLess, KeyCount, MarkedIn, IsLeast, IsGreatest, IsSurvivorList;
    var sorted := Copies(x, kRecv + 1);
    NotBeforeItself(x);
    CopiesCount(x, kRecv + 1);
    OnlyBucket(sorted, x);
    hide Copies;
    SurvivorsOfBucket(sorted, sorted, 0, kRecv, survivors, x.Key());
  }

  lemma NotBeforeItself(x: RoutingTuple)
    ensures !RoutingLess(x, x)
  {
    RoutingOrder();
    hide RoutingLess;
  }

  /** A list of one kind of tuple, none of them a marker. */
  lemma OnlyBucket(s: seq<RoutingTuple>, x: RoutingTuple)
    requires s != [] && !x.m.IsCancel() && forall y :: y in s ==> y == x
    ensures !MarkedIn(s, x.Key()) && IsGreatest(s, x.Key()) && IsLeast(s, x.Key())
  {
    hide Before, KeyCount, Filter;
    assert s[0] in s;
    assert !HasMarker(s, x.Key());
    forall b ensures !(IsNext(s, x.Key(), b) && OpensWithMarker(s, b)) {
      assert HasMarker(s, b) ==> false;
    }
  }
}

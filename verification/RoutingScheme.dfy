/** One call of the routing scheme: cancelling overfull buckets, then fixing one bit. */
module RoutingScheme {
  import opened Bits
  import opened Ordering
  import opened Structures

  // ---------------------------------------------------------------- buckets

  function KeyCount(s: seq<RoutingTuple>, k: BucketKey): nat {
    if s == [] then 0
    else KeyCount(s[..|s| - 1], k) + (if s[|s| - 1].Key() == k then 1 else 0)
  }

  lemma {:induction false} KeyCountConcat(s: seq<RoutingTuple>, t: seq<RoutingTuple>, k: BucketKey)
    ensures KeyCount(s + t, k) == KeyCount(s, k) + KeyCount(t, k)
    decreases |t|
  {
    if t == [] {
      assert s + t == s;
    } else {
      assert (s + t)[..|s + t| - 1] == s + t[..|t| - 1];
      KeyCountConcat(s, t[..|t| - 1], k);
    }
  }

  lemma {:induction false} KeyCountZero(s: seq<RoutingTuple>, k: BucketKey)
    requires forall i :: 0 <= i < |s| ==> s[i].Key() != k
    ensures KeyCount(s, k) == 0
  {
    if s != [] { KeyCountZero(s[..|s| - 1], k); }
  }

  lemma KeyCountOne(x: RoutingTuple, k: BucketKey)
    ensures KeyCount([x], k) == if x.Key() == k then 1 else 0
  {
    assert [x][..0] == [];
  }

  lemma KeyCountWithout(t: seq<RoutingTuple>, i: nat, k: BucketKey)
    requires i < |t|
    ensures KeyCount(t, k) == KeyCount(t[..i] + t[i + 1..], k) + (if t[i].Key() == k then 1 else 0)
  {
    hide KeyCount;
    assert t == t[..i] + [t[i]] + t[i + 1..];
    KeyCountConcat(t[..i] + [t[i]], t[i + 1..], k);
    KeyCountConcat(t[..i], [t[i]], k);
    KeyCountConcat(t[..i], t[i + 1..], k);
    KeyCountOne(t[i], k);
  }

  /** Sorting does not change how many tuples a bucket has. */
  lemma {:induction false} KeyCountIsMultiset(s: seq<RoutingTuple>, t: seq<RoutingTuple>, k: BucketKey)
    requires multiset(s) == multiset(t)
    ensures KeyCount(s, k) == KeyCount(t, k)
    decreases |s|
  {
    if s == [] {
      assert |multiset(t)| == |t|;
    } else {
      var x, n := s[|s| - 1], |s| - 1;
      assert x in multiset(t);
      var i :| 0 <= i < |t| && t[i] == x;
      RemoveOne(s, t, i);
      KeyCountIsMultiset(s[..n], t[..i] + t[i + 1..], k);
      KeyCountWithout(t, i, k);
    }
  }

  lemma RemoveOne(s: seq<RoutingTuple>, t: seq<RoutingTuple>, i: nat)
    requires s != [] && multiset(s) == multiset(t) && i < |t| && t[i] == s[|s| - 1]
    ensures multiset(s[..|s| - 1]) == multiset(t[..i] + t[i + 1..])
  {
    Without(t, i);
    Without(s, |s| - 1);
    assert s[..|s| - 1] + s[|s|..] == s[..|s| - 1];
  }

  lemma Without(t: seq<RoutingTuple>, i: nat)
    requires i < |t|
    ensures multiset(t[..i] + t[i + 1..]) == multiset(t) - multiset{t[i]}
  {
    var front, back := t[..i], t[i + 1..];
    assert t == front + [t[i]] + back;
    assert multiset(t) == multiset(front) + multiset{t[i]} + multiset(back);
  }

  lemma {:induction false} LexPrefix(a: seq<int>, b: seq<int>, x: int, y: int)
    requires |a| == |b| && Lex(IntLess, a, b)
    ensures Lex(IntLess, a + [x], b + [y])
  {
    assert (a + [x])[1..] == a[1..] + [x] && (b + [y])[1..] == b[1..] + [y];
    if a[0] == b[0] { LexPrefix(a[1..], b[1..], x, y); }
  }

  /** In a sorted list the tuples of one bucket stand side by side. */
  lemma BucketsContiguous(s: seq<RoutingTuple>, i: nat, j: nat, l: nat)
    requires Sorted(RoutingLess, s) && i <= j <= l < |s| && s[i].Key() == s[l].Key()
    ensures s[j].Key() == s[i].Key()
  {
    if i < j < l {
      assert !RoutingLess(s[j], s[i]) && !RoutingLess(s[l], s[j]);
      var a, b := KeyDigits(s[i].Key()), KeyDigits(s[j].Key());
      if Lex(IntLess, a, b) {
        LexPrefix(a, b, s[l].m.tDst, s[j].m.tDst);
      } else if Lex(IntLess, b, a) {
        LexPrefix(b, a, s[j].m.tDst, s[i].m.tDst);
      } else {
        LexIntEquiv(a, b);
        SameKeyDigits(s[i].Key(), s[j].Key());
      }
    }
  }

  // ---------------------------------------------------------------- the cancel scan

  function Previous(i: nat): (p: nat)
    ensures p <= i
  {
    if i == 0 then 0 else i - 1
  }

  /** Some cancel marker among the first `n` tuples is charged to bucket `k`: the bucket of
      the tuple before the marker (of the marker itself when it comes first). */
  ghost predicate MarkedBefore(s: seq<RoutingTuple>, n: nat, k: BucketKey)
    requires n <= |s|
  {
    exists i :: 0 <= i < n && s[i].m.IsCancel() && s[Previous(i)].Key() == k
  }

  ghost predicate Marked(s: seq<RoutingTuple>, k: BucketKey) {
    MarkedBefore(s, |s|, k)
  }

  /** The buckets the scan over the sorted list `s` reports: those with more than kRecv tuples
      other than the last bucket, and those a cancel marker is charged to. */
  ghost predicate Cancelled(s: seq<RoutingTuple>, kRecv: nat, k: BucketKey) {
    Marked(s, k) || (s != [] && k != s[|s| - 1].Key() && KeyCount(s, k) > kRecv)
  }

  ghost predicate IsCancelSet(cancel: set<BucketKey>, s: seq<RoutingTuple>, kRecv: nat) {
    forall k :: k in cancel <==> Cancelled(s, kRecv, k)
  }

  ghost predicate StartsLastRun(s: seq<RoutingTuple>, i: nat) {
    && i < |s|
    && (forall j :: i <= j < |s| ==> s[j].Key() == s[|s| - 1].Key())
    && (i > 0 ==> s[i - 1].Key() != s[|s| - 1].Key())
  }

  method SortInPlace(setS: array<RoutingTuple>)
    modifies setS
    ensures Sorted(RoutingLess, setS[..]) && multiset(setS[..]) == multiset(old(setS[..]))
  {
    RoutingOrder();
    var inOrder := Sort(setS[..], RoutingLess);
    forall i | 0 <= i < setS.Length { setS[i] := inOrder[i]; }
    assert setS[..] == inOrder;
  }

  /** Sorts `setS` and determines the buckets to be cancelled. `prev_element` is a reference to
      element 0, so moving on to the next run overwrites that element: in the end the first
      tuple is replaced by the one that starts the last run, at index `last`. */
  method DetermineElementsToBeCancelled(setS: array<RoutingTuple>, kRecv: nat)
    returns (cancel: set<BucketKey>, ghost sorted: seq<RoutingTuple>, ghost last: nat)
    modifies setS
    ensures Sorted(RoutingLess, sorted) && multiset(sorted) == multiset(old(setS[..]))
    ensures IsCancelSet(cancel, sorted, kRecv)
    ensures sorted == [] ==> setS[..] == []
    ensures sorted != [] ==> StartsLastRun(sorted, last) && setS[..] == sorted[0 := sorted[last]]
  {
    cancel, sorted, last := {}, setS[..], 0;
    if setS.Length > 0 {
      SortInPlace(setS);
      sorted := setS[..];
      cancel, last := Scan(setS, kRecv);
    }
  }

  method Scan(setS: array<RoutingTuple>, kRecv: nat) returns (cancel: set<BucketKey>, ghost last: nat)
    requires setS.Length > 0 && Sorted(RoutingLess, setS[..])
    modifies setS
    ensures IsCancelSet(cancel, old(setS[..]), kRecv)
    ensures StartsLastRun(old(setS[..]), last) && setS[..] == old(setS[..])[0 := old(setS[..])[last]]
  {
    hide ScanInvariant, IsCancelSet, StartsLastRun, Sorted;
    ghost var sorted := setS[..];
    cancel := {};
    var prevIndex, i := 0, 0;
    ScanStart(sorted, kRecv);
    while i < setS.Length
      invariant prevIndex <= i <= setS.Length && prevIndex < setS.Length
      invariant setS[0] == sorted[prevIndex]
      invariant forall j :: 1 <= j < setS.Length ==> setS[j] == sorted[j]
      invariant ScanInvariant(sorted, i, prevIndex, cancel, kRecv)
    {
      var newRun;
      cancel, newRun := ScanElement(setS[0], setS[i], i - prevIndex, cancel, kRecv, sorted, i, prevIndex);
      if newRun {
        setS[0] := setS[i];
        prevIndex := i;
      }
      i := i + 1;
    }
    last := prevIndex;
    assert setS[..] == sorted[0 := sorted[last]];
    ScanDone(sorted, last, cancel, kRecv);
  }

  /** One element: `prev` stands for the run it belongs to or ends, `length` is how long that run
      has been. */
  method ScanElement(prev: RoutingTuple, cur: RoutingTuple, length: nat, before: set<BucketKey>, kRecv: nat,
                     ghost sorted: seq<RoutingTuple>, ghost i: nat, ghost start: nat)
    returns (cancel: set<BucketKey>, newRun: bool)
    requires Sorted(RoutingLess, sorted) && i < |sorted| && ScanInvariant(sorted, i, start, before, kRecv)
    requires start <= i && length == i - start && prev == sorted[start] && cur == sorted[i]
    ensures ScanInvariant(sorted, i + 1, if newRun then i else start, cancel, kRecv)
    ensures newRun <==> prev.Key() != cur.Key()
  {
    cancel := before;
    RunStarted(sorted, i, start, before, kRecv);
    hide ScanInvariant, Sorted;
    if cur.m.IsCancel() {
      cancel := cancel + {prev.Key()};
    }
    newRun := prev.Key() != cur.Key();
    if newRun {
      if length > kRecv {
        cancel := cancel + {prev.Key()};
      }
      ScanNewRun(sorted, i, start, before, cancel, kRecv);
    } else {
      ScanSameRun(sorted, i, start, before, cancel, kRecv);
    }
  }

  lemma ScanStart(s: seq<RoutingTuple>, kRecv: nat)
    requires s != []
    ensures ScanInvariant(s, 0, 0, {}, kRecv)
  {
  }

  lemma RunStarted(s: seq<RoutingTuple>, i: nat, start: nat, cancel: set<BucketKey>, kRecv: nat)
    requires ScanInvariant(s, i, start, cancel, kRecv)
    ensures i == 0 || start < i
  {
  }

  lemma ScanDone(s: seq<RoutingTuple>, start: nat, cancel: set<BucketKey>, kRecv: nat)
    requires s != [] && ScanInvariant(s, |s|, start, cancel, kRecv)
    ensures IsCancelSet(cancel, s, kRecv) && StartsLastRun(s, start)
  {
    assert s[..|s|] == s;
    assert s[|s| - 1].Key() == s[start].Key();
  }

  /** After the first `i` tuples: the current run starts at `start`, and `cancel` holds the
      buckets of finished runs that were too long and of the markers met. */
  ghost predicate ScanInvariant(s: seq<RoutingTuple>, i: nat, start: nat, cancel: set<BucketKey>, kRecv: nat) {
    && start <= i <= |s| && start < |s| && (i == 0 || start < i)
    && (forall j :: start <= j < i ==> s[j].Key() == s[start].Key())
    && (start > 0 ==> s[start - 1].Key() != s[start].Key())
    && (i > 0 ==> i - start == KeyCount(s[..i], s[start].Key()))
    && (forall k :: k in cancel <==> MarkedBefore(s, i, k) || Overfull(s, i, kRecv, k))
  }

  ghost predicate Overfull(s: seq<RoutingTuple>, i: nat, kRecv: nat, k: BucketKey)
    requires i <= |s|
  {
    i > 0 && k != s[i - 1].Key() && KeyCount(s[..i], k) > kRecv
  }

  lemma MarkedStep(s: seq<RoutingTuple>, i: nat, start: nat, k: BucketKey)
    requires i < |s| && start <= i && (i == 0 || start < i)
    requires forall j :: start <= j < i ==> s[j].Key() == s[start].Key()
    ensures MarkedBefore(s, i + 1, k) <==>
              MarkedBefore(s, i, k) || (s[i].m.IsCancel() && k == s[start].Key())
  {
    assert s[Previous(i)].Key() == s[start].Key();
  }

  lemma CountStep(s: seq<RoutingTuple>, i: nat, k: BucketKey)
    requires i < |s|
    ensures KeyCount(s[..i + 1], k) == KeyCount(s[..i], k) + (if s[i].Key() == k then 1 else 0)
  {
    assert s[..i + 1][..i] == s[..i];
  }

  lemma ScanSameRun(s: seq<RoutingTuple>, i: nat, start: nat, before: set<BucketKey>, after: set<BucketKey>, kRecv: nat)
    requires i < |s| && ScanInvariant(s, i, start, before, kRecv)
    requires after == if s[i].m.IsCancel() then before + {s[start].Key()} else before
    requires s[i].Key() == s[start].Key()
    ensures ScanInvariant(s, i + 1, start, after, kRecv)
  {
    CountStep(s, i, s[start].Key());
    forall k ensures k in after <==> MarkedBefore(s, i + 1, k) || Overfull(s, i + 1, kRecv, k) {
      MarkedStep(s, i, start, k);
      CountStep(s, i, k);
    }
  }

  lemma NewBucket(s: seq<RoutingTuple>, i: nat, start: nat)
    requires Sorted(RoutingLess, s) && start < i < |s| && s[i - 1].Key() == s[start].Key() != s[i].Key()
    ensures KeyCount(s[..i], s[i].Key()) == 0
  {
    forall j | 0 <= j < i ensures s[..i][j].Key() != s[i].Key() {
      if s[j].Key() == s[i].Key() { BucketsContiguous(s, j, i - 1, i); }
    }
    KeyCountZero(s[..i], s[i].Key());
  }

  lemma ScanNewRun(s: seq<RoutingTuple>, i: nat, start: nat, before: set<BucketKey>, after: set<BucketKey>, kRecv: nat)
    requires Sorted(RoutingLess, s) && 0 < i < |s| && ScanInvariant(s, i, start, before, kRecv)
    requires after == (if s[i].m.IsCancel() then before + {s[start].Key()} else before)
                      + (if i - start > kRecv then {s[start].Key()} else {})
    requires s[i].Key() != s[start].Key()
    ensures ScanInvariant(s, i + 1, i, after, kRecv)
  {
    NewBucket(s, i, start);
    hide KeyCount, MarkedBefore, Sorted;
    CountStep(s, i, s[i].Key());
    forall k ensures k in after <==> MarkedBefore(s, i + 1, k) || Overfull(s, i + 1, kRecv, k) {
      NewRunBucket(s, i, start, before, after, kRecv, k);
    }
  }

  lemma NewRunBucket(s: seq<RoutingTuple>, i: nat, start: nat, before: set<BucketKey>, after: set<BucketKey>,
                     kRecv: nat, k: BucketKey)
    requires 0 < i < |s| && ScanInvariant(s, i, start, before, kRecv) && s[i].Key() != s[start].Key()
    requires after == (if s[i].m.IsCancel() then before + {s[start].Key()} else before)
                      + (if i - start > kRecv then {s[start].Key()} else {})
    requires KeyCount(s[..i], s[i].Key()) == 0
    ensures k in after <==> MarkedBefore(s, i + 1, k) || Overfull(s, i + 1, kRecv, k)
  {
    hide KeyCount, MarkedBefore;
    MarkedStep(s, i, start, k);
    CountStep(s, i, k);
  }

  // ---------------------------------------------------------------- one call of route

  /** `1 + 2 * d - (l_dst - cur_round)` in 64-bit arithmetic. */
  function StepIndex(lDst: U64, curRound: U64, d: nat): U64 {
    (1 + 2 * d - (lDst - curRound)) % TWO_64
  }

  predicate IndexInRange(lDst: U64, curRound: U64, d: nat) {
    1 <= StepIndex(lDst, curRound, d) <= 2 * d
  }

  /** The identifier after fixing bit `i`: from the intermediate target in the first d steps,
      from the destination (whose bits are read from position 1 on) in the last d. */
  function FixBit(onid: U64, i: nat, dst: U64, itm: U64, d: nat): U64
    requires 1 <= i <= 2 * d < 64
  {
    var b := if i <= d then Bit(itm, i) else Bit(dst, i - d);
    Pow2Of64();
    SetBitBound(onid, i, b, 64);
    SetBit(onid, i, b)
  }

  function Advance(t: RoutingTuple, curRound: U64, d: nat, itm: (Pseudonym, U64) -> U64): RoutingTuple
    requires 2 * d < 64 && IndexInRange(t.lDst, curRound, d)
  {
    t.(onidCurrent := FixBit(t.onidCurrent, StepIndex(t.lDst, curRound, d), t.onidDst, itm(t.bucketDst, t.lDst), d))
  }

  /** The tuples of `s` whose bucket is not in `cancel`, in order. */
  function Survivors(s: seq<RoutingTuple>, cancel: set<BucketKey>): seq<RoutingTuple> {
    if s == [] then []
    else
      var n := |s| - 1;
      if s[n].Key() in cancel then Survivors(s[..n], cancel) else Survivors(s[..n], cancel) + [s[n]]
  }

  lemma {:induction false} SurvivorsContain(s: seq<RoutingTuple>, cancel: set<BucketKey>, i: nat)
    requires i < |s| && s[i].Key() !in cancel
    ensures s[i] in Survivors(s, cancel)
  {
    var n := |s| - 1;
    if i < n { SurvivorsContain(s[..n], cancel, i); }
  }

  ghost predicate AllInRange(s: seq<RoutingTuple>, curRound: U64, d: nat) {
    forall x :: x in s ==> IndexInRange(x.lDst, curRound, d)
  }

  function AdvanceAll(s: seq<RoutingTuple>, curRound: U64, d: nat, itm: (Pseudonym, U64) -> U64): seq<RoutingTuple>
    requires 2 * d < 64 && AllInRange(s, curRound, d)
  {
    seq(|s|, i requires 0 <= i < |s| => Advance(s[i], curRound, d, itm))
  }

  lemma SurvivorsStep(s: seq<RoutingTuple>, n: nat, cancel: set<BucketKey>)
    requires n < |s|
    ensures Survivors(s[..n + 1], cancel)
         == if s[n].Key() in cancel then Survivors(s[..n], cancel) else Survivors(s[..n], cancel) + [s[n]]
  {
    assert s[..n + 1][..n] == s[..n];
  }

  lemma AdvanceStep(s: seq<RoutingTuple>, x: RoutingTuple, curRound: U64, d: nat, itm: (Pseudonym, U64) -> U64)
    requires 2 * d < 64 && AllInRange(s, curRound, d) && IndexInRange(x.lDst, curRound, d)
    ensures AllInRange(s + [x], curRound, d)
    ensures AdvanceAll(s + [x], curRound, d, itm) == AdvanceAll(s, curRound, d, itm) + [Advance(x, curRound, d, itm)]
  {
  }

  /** One call of `route`. `ok` is false when one of its asserts on the step index fails. */
  method Route(setS: array<RoutingTuple>, curRound: U64, d: nat, kRecv: nat, itm: (Pseudonym, U64) -> U64)
    returns (ok: bool, result: seq<RoutingTuple>,
             ghost sorted: seq<RoutingTuple>, ghost last: nat, ghost survivors: seq<RoutingTuple>)
    requires 2 * d < 64
    modifies setS
    ensures Sorted(RoutingLess, sorted) && multiset(sorted) == multiset(old(setS[..]))
    ensures sorted != [] ==> StartsLastRun(sorted, last)
    ensures IsSurvivorList(sorted, last, kRecv, survivors)
    ensures ok <==> AllInRange(survivors, curRound, d)
    ensures ok ==> result == AdvanceAll(survivors, curRound, d, itm)
  {
    var cancel;
    cancel, sorted, last := DetermineElementsToBeCancelled(setS, kRecv);
    survivors := Survivors(setS[..], cancel);
    ok, result := AdvanceSurvivors(setS, cancel, curRound, d, itm);
  }

  method AdvanceSurvivors(setS: array<RoutingTuple>, cancel: set<BucketKey>, curRound: U64, d: nat,
                          itm: (Pseudonym, U64) -> U64)
    returns (ok: bool, result: seq<RoutingTuple>)
    requires 2 * d < 64
    modifies setS
    ensures ok <==> AllInRange(Survivors(old(setS[..]), cancel), curRound, d)
    ensures ok ==> result == AdvanceAll(Survivors(old(setS[..]), cancel), curRound, d, itm)
  {
    ghost var list := setS[..];
    ghost var done: seq<RoutingTuple> := [];
    result := [];
    for n := 0 to setS.Length
      invariant forall j :: n <= j < setS.Length ==> setS[j] == list[j]
      invariant done == Survivors(list[..n], cancel)
      invariant AllInRange(done, curRound, d) && result == AdvanceAll(done, curRound, d, itm)
    {
      var s := setS[n];
      SurvivorsStep(list, n, cancel);
      if s.Key() !in cancel {
        if !IndexInRange(s.lDst, curRound, d) {
          SurvivorsContain(list, cancel, n);
          return false, result;
        }
        AdvanceStep(done, s, curRound, d, itm);
        done := done + [s];
        s := Advance(s, curRound, d, itm);
        setS[n] := s;
        result := result + [s];
      }
    }
    assert list[..setS.Length] == list;
    return true, result;
  }

  /** What is left after cancelling: the scan has already replaced element 0. */
  ghost predicate IsSurvivorList(sorted: seq<RoutingTuple>, last: nat, kRecv: nat, survivors: seq<RoutingTuple>)
    requires sorted != [] ==> last < |sorted|
  {
    exists cancel: set<BucketKey> ::
      IsCancelSet(cancel, sorted, kRecv)
      && survivors == Survivors(if sorted == [] then [] else sorted[0 := sorted[last]], cancel)
  }

  // ---------------------------------------------------------------- counting survivors

  lemma {:induction false} SurvivorCount(s: seq<RoutingTuple>, cancel: set<BucketKey>, k: BucketKey)
    ensures KeyCount(Survivors(s, cancel), k) == if k in cancel then 0 else KeyCount(s, k)
  {
    if s != [] {
      var n := |s| - 1;
      SurvivorCount(s[..n], cancel, k);
      KeyCountConcat(Survivors(s[..n], cancel), [s[n]], k);
      KeyCountOne(s[n], k);
    }
  }

  lemma KeyCountReplace(s: seq<RoutingTuple>, x: RoutingTuple, k: BucketKey)
    requires s != []
    ensures KeyCount(s[0 := x], k)
         == KeyCount(s, k) - (if s[0].Key() == k then 1 else 0) + (if x.Key() == k then 1 else 0)
  {
    assert s == [s[0]] + s[1..] && s[0 := x] == [x] + s[1..];
    KeyCountConcat([s[0]], s[1..], k);
    KeyCountConcat([x], s[1..], k);
    KeyCountOne(s[0], k);
    KeyCountOne(x, k);
  }

  function LastKey(s: seq<RoutingTuple>): BucketKey
    requires s != []
  {
    s[|s| - 1].Key()
  }

  predicate Before(a: BucketKey, b: BucketKey) {
    Lex(IntLess, KeyDigits(a), KeyDigits(b))
  }

  /** In a sorted list the buckets ascend. */
  lemma KeysAscend(sorted: seq<RoutingTuple>, i: nat, j: nat)
    requires Sorted(RoutingLess, sorted) && i <= j < |sorted|
    ensures sorted[i].Key() == sorted[j].Key() || Before(sorted[i].Key(), sorted[j].Key())
  {
    var a, b := KeyDigits(sorted[i].Key()), KeyDigits(sorted[j].Key());
    LexIntEquiv(a, b);
    SameKeyDigits(sorted[i].Key(), sorted[j].Key());
    if i < j && Lex(IntLess, b, a) {
      LexPrefix(b, a, sorted[j].m.tDst, sorted[i].m.tDst);
    }
  }

  /** Every tuple that survives is one of the list. */
  lemma SurvivorsMembers(sorted: seq<RoutingTuple>, last: nat, kRecv: nat, survivors: seq<RoutingTuple>)
    requires sorted != [] ==> last < |sorted|
    requires IsSurvivorList(sorted, last, kRecv, survivors)
    ensures forall x :: x in survivors ==> x in sorted
  {
    var cancel: set<BucketKey> :| IsCancelSet(cancel, sorted, kRecv)
      && survivors == Survivors(if sorted == [] then [] else sorted[0 := sorted[last]], cancel);
    var list := if sorted == [] then [] else sorted[0 := sorted[last]];
    SurvivorsWithin(list, cancel);
    forall x | x in list ensures x in sorted {
      var i :| 0 <= i < |list| && list[i] == x;
      assert x == sorted[i] || x == sorted[last];
    }
  }

  lemma {:induction false} SurvivorsWithin(s: seq<RoutingTuple>, cancel: set<BucketKey>)
    ensures forall x :: x in Survivors(s, cancel) ==> x in s
  {
    if s != [] { SurvivorsWithin(s[..|s| - 1], cancel); }
  }
}

/** Where the 2d calls of `route` between injection and delivery take an uncancelled tuple. */
module BitFixing {
  import opened Bits
  import opened Structures
  import opened RoutingScheme

  /** The identifier after the first `n` calls. */
  function Trajectory(start: U64, dst: U64, itm: U64, d: nat, n: nat): U64
    requires n <= 2 * d < 64
  {
    if n == 0 then start else FixBit(Trajectory(start, dst, itm, d, n - 1), n, dst, itm, d)
  }

  /** Round lDst - 2d + n - 1 is the one of the n-th call, for n from 1 to 2d; in every other
      round the asserts on the step index fail. */
  lemma RoundOfCall(lDst: U64, curRound: U64, d: nat, n: int)
    requires 2 * d < 64 && curRound == lDst - 2 * d + n - 1 && n < TWO_64
    ensures IndexInRange(lDst, curRound, d) <==> 1 <= n <= 2 * d
    ensures IndexInRange(lDst, curRound, d) ==> StepIndex(lDst, curRound, d) == n
  {
  }

  /** Both callers pass tuples outside this range: a freshly injected tuple is addressed 2d + 2
      rounds ahead, and one taken over from a neighbour has an address round already past. */
  lemma CallersOutOfRange(curRound: U64, d: nat)
    requires 2 * d < 64 && curRound + 2 * d + 2 < TWO_64
    ensures !IndexInRange(curRound + 2 * d + 2, curRound, d)
    ensures forall lDst: U64 :: lDst < curRound ==> !IndexInRange(lDst, curRound, d)
  {
  }

  /** `t` after being routed in rounds lDst - 2d, ..., lDst - 2d + n - 1. */
  function Routed(t: RoutingTuple, d: nat, itm: (Pseudonym, U64) -> U64, n: nat): (r: RoutingTuple)
    requires n <= 2 * d < 64 && 2 * d <= t.lDst
    ensures r.lDst == t.lDst
  {
    if n == 0 then t
    else
      RoundOfCall(t.lDst, t.lDst - 2 * d + n - 1, d, n);
      Advance(Routed(t, d, itm, n - 1), t.lDst - 2 * d + n - 1, d, itm)
  }

  lemma RoutedStep(t: RoutingTuple, d: nat, itm: (Pseudonym, U64) -> U64, n: nat)
    requires 1 <= n <= 2 * d < 64 && 2 * d <= t.lDst
    ensures var r := Routed(t, d, itm, n - 1);
            Routed(t, d, itm, n)
              == r.(onidCurrent := FixBit(r.onidCurrent, n, r.onidDst, itm(r.bucketDst, r.lDst), d))
  {
    RoundOfCall(t.lDst, t.lDst - 2 * d + n - 1, d, n);
  }

  lemma {:induction false} RoutedIsTrajectory(t: RoutingTuple, d: nat, itm: (Pseudonym, U64) -> U64, n: nat)
    requires n <= 2 * d < 64 && 2 * d <= t.lDst
    ensures Routed(t, d, itm, n)
         == t.(onidCurrent := Trajectory(t.onidCurrent, t.onidDst, itm(t.bucketDst, t.lDst), d, n))
  {
    if n > 0 {
      RoutedIsTrajectory(t, d, itm, n - 1);
      RoutedStep(t, d, itm, n);
    }
  }

  /** What one call of `route` does to a surviving tuple: it keeps its place and all but one bit of its
      current onid. In the n-th of the 2d rounds before its address round that is bit n, taken from bit n
      of the intermediate target for n up to d and from bit n - d of the destination after that. */
  lemma AdvancedTuple(s: seq<RoutingTuple>, curRound: U64, d: nat, itm: (Pseudonym, U64) -> U64, k: nat)
    requires 2 * d < 64 && AllInRange(s, curRound, d) && k < |s|
    ensures |AdvanceAll(s, curRound, d, itm)| == |s|
    ensures var x, r, n := s[k], AdvanceAll(s, curRound, d, itm)[k], (1 + 2 * d - (s[k].lDst - curRound)) % TWO_64;
            && r.m == x.m && r.onidDst == x.onidDst && r.bucketDst == x.bucketDst && r.lDst == x.lDst
            && 1 <= n <= 2 * d
            && forall j: nat :: Bit(r.onidCurrent, j) ==
                 if j == n then if n <= d then Bit(itm(x.bucketDst, x.lDst), n) else Bit(x.onidDst, n - d)
                 else Bit(x.onidCurrent, j)
  {
    var x, n := s[k], StepIndex(s[k].lDst, curRound, d);
    assert x in s;
    var b := if n <= d then Bit(itm(x.bucketDst, x.lDst), n) else Bit(x.onidDst, n - d);
    forall j: nat ensures Bit(AdvanceAll(s, curRound, d, itm)[k].onidCurrent, j)
                          == if j == n then b else Bit(x.onidCurrent, j)
    {
      SetBitBit(x.onidCurrent, n, b, j);
    }
  }

  /** What bit `j` is after `n` calls. */
  lemma {:induction false} TrajectoryBit(start: U64, dst: U64, itm: U64, d: nat, n: nat, j: nat)
    requires n <= 2 * d < 64
    ensures Bit(Trajectory(start, dst, itm, d, n), j) ==
            if 1 <= j <= n && j <= d then Bit(itm, j)
            else if d < j <= n then Bit(dst, j - d)
            else Bit(start, j)
  {
    if n > 0 {
      TrajectoryBit(start, dst, itm, d, n - 1, j);
      var b := if n <= d then Bit(itm, n) else Bit(dst, n - d);
      SetBitBit(Trajectory(start, dst, itm, d, n - 1), n, b, j);
    }
  }

  /** The 2d calls leave bits 1..d of the intermediate target, then bits 1..d of the
      destination, and the starting bits elsewhere; each call flips at most one bit. */
  lemma TwoPhaseRouting(t: RoutingTuple, d: nat, itm: (Pseudonym, U64) -> U64)
    requires 2 * d < 64 && 2 * d <= t.lDst
    ensures var onid := Routed(t, d, itm, 2 * d).onidCurrent;
            && (forall j: nat :: 1 <= j <= d ==> Bit(onid, j) == Bit(itm(t.bucketDst, t.lDst), j))
            && (forall j: nat :: d < j <= 2 * d ==> Bit(onid, j) == Bit(t.onidDst, j - d))
            && (forall j: nat :: j == 0 || 2 * d < j ==> Bit(onid, j) == Bit(t.onidCurrent, j))
    ensures forall n: nat :: 1 <= n <= 2 * d ==> AtMostOneFlip(t, d, itm, n)
    ensures forall n: nat :: n <= 2 * d ==>
              Routed(t, d, itm, n) == t.(onidCurrent := Routed(t, d, itm, n).onidCurrent)
  {
    var q := itm(t.bucketDst, t.lDst);
    RoutedIsTrajectory(t, d, itm, 2 * d);
    forall j: nat ensures Bit(Routed(t, d, itm, 2 * d).onidCurrent, j) ==
                          if 1 <= j <= d then Bit(q, j) else if d < j <= 2 * d then Bit(t.onidDst, j - d)
                          else Bit(t.onidCurrent, j)
    {
      TrajectoryBit(t.onidCurrent, t.onidDst, q, d, 2 * d, j);
    }
    forall n: nat | 1 <= n <= 2 * d ensures AtMostOneFlip(t, d, itm, n) {
      RoutedIsTrajectory(t, d, itm, n - 1);
      RoutedIsTrajectory(t, d, itm, n);
      var b := if n <= d then Bit(q, n) else Bit(t.onidDst, n - d);
      SetBitIsFlipOrSame(Trajectory(t.onidCurrent, t.onidDst, q, d, n - 1), n, b);
    }
    forall n: nat | n <= 2 * d
      ensures Routed(t, d, itm, n) == t.(onidCurrent := Routed(t, d, itm, n).onidCurrent)
    {
      RoutedIsTrajectory(t, d, itm, n);
    }
  }

  ghost predicate AtMostOneFlip(t: RoutingTuple, d: nat, itm: (Pseudonym, U64) -> U64, n: nat)
    requires 1 <= n <= 2 * d < 64 && 2 * d <= t.lDst
  {
    var before, after := Routed(t, d, itm, n - 1).onidCurrent, Routed(t, d, itm, n).onidCurrent;
    after == before || after == FlipBit(before, n)
  }

  /** The property the scheme is meant to have - arrival at the destination's identifier - holds
      of the code, for identifiers of the overlay, exactly for destinations 0 and 1 reached from a
      start with the same lowest bit over an intermediate target 0 or 1. */
  lemma ArrivesIff(start: U64, dst: U64, itm: U64, d: nat)
    requires 2 * d < 64 && start < Pow2(d) && dst < Pow2(d) && itm < Pow2(d)
    ensures Trajectory(start, dst, itm, d, 2 * d) == dst
       <==> dst <= 1 && itm <= 1 && start % 2 == dst
  {
    var x := Trajectory(start, dst, itm, d, 2 * d);
    forall j: nat ensures Bit(x, j) == if 1 <= j <= d then Bit(itm, j) else if d < j <= 2 * d then Bit(dst, j - d)
                                       else Bit(start, j)
    {
      TrajectoryBit(start, dst, itm, d, 2 * d, j);
    }
    if x == dst {
      assert Bit(x, 0) == Bit(start, 0);
      forall j: nat | 1 <= j ensures !Bit(dst, j) {
        if j <= d {
          assert Bit(x, j + d) == Bit(dst, j);
          NoHighBit(dst, d, j + d);
        } else {
          NoHighBit(dst, d, j);
        }
      }
      OnlyLowestBit(dst);
      forall j: nat | 1 <= j ensures !Bit(itm, j) {
        if j <= d { assert Bit(x, j) == Bit(itm, j); } else { NoHighBit(itm, d, j); }
      }
      OnlyLowestBit(itm);
    } else if dst <= 1 && itm <= 1 && start % 2 == dst {
      forall j: nat ensures Bit(x, j) == Bit(dst, j) {
        if j > 0 {
          ZeroHasNoBit(j - 1);
          if d < j <= 2 * d { ZeroHasNoBit(j - d - 1); }
          if j > d { NoHighBit(start, d, j); }
        }
      }
      BitsDetermine(x, dst);
    }
  }

  lemma OnlyLowestBit(x: nat)
    requires forall j: nat :: 1 <= j ==> !Bit(x, j)
    ensures x <= 1
  {
    if x > 1 {
      var k := HighBit(x, 1);
    }
  }

  /** A tuple that does not arrive: from quorum 2 to quorum 2 of a hypercube of dimension 2. */
  lemma DoesNotArrive()
    ensures Pow2(2) == 4 && Trajectory(2, 2, 0, 2, 4) != 2
  {
    assert Pow2(1) == 2;
    ArrivesIff(2, 2, 0, 2);
  }

  // ---------------------------------------------------------------- bucket merging

  /** Tuples for the same bucket that start out alike in bit 0 and above bit d have met after
      d calls, and stay together: the cancel rule then sees them as one bucket. */
  lemma BucketsMerge(t: RoutingTuple, u: RoutingTuple, d: nat, itm: (Pseudonym, U64) -> U64, n: nat)
    requires d <= n <= 2 * d < 64 && 2 * d <= t.lDst
    requires t.onidDst == u.onidDst && t.bucketDst == u.bucketDst && t.lDst == u.lDst
    requires forall j: nat :: j == 0 || d < j ==> Bit(t.onidCurrent, j) == Bit(u.onidCurrent, j)
    ensures Routed(t, d, itm, n).Key() == Routed(u, d, itm, n).Key()
  {
    var q := itm(t.bucketDst, t.lDst);
    RoutedIsTrajectory(t, d, itm, n);
    RoutedIsTrajectory(u, d, itm, n);
    var x := Trajectory(t.onidCurrent, t.onidDst, q, d, n);
    var y := Trajectory(u.onidCurrent, u.onidDst, q, d, n);
    forall j: nat ensures Bit(x, j) == Bit(y, j) {
      TrajectoryBit(t.onidCurrent, t.onidDst, q, d, n, j);
      TrajectoryBit(u.onidCurrent, u.onidDst, q, d, n, j);
    }
    BitsDetermine(x, y);
  }

  // ---------------------------------------------------------------- the intended bit positions

  /** Call `n` with positions counted from 0 in both halves. */
  function FixBitFromZero(onid: U64, n: nat, dst: U64, itm: U64, d: nat): U64
    requires 1 <= n <= 2 * d < 64
  {
    var i := if n <= d then n - 1 else n - 1 - d;
    var b := if n <= d then Bit(itm, i) else Bit(dst, i);
    Pow2Of64();
    SetBitBound(onid, i, b, 64);
    SetBit(onid, i, b)
  }

  function TrajectoryFromZero(start: U64, dst: U64, itm: U64, d: nat, n: nat): U64
    requires n <= 2 * d < 64
  {
    if n == 0 then start else FixBitFromZero(TrajectoryFromZero(start, dst, itm, d, n - 1), n, dst, itm, d)
  }

  lemma {:induction false} TrajectoryFromZeroBit(start: U64, dst: U64, itm: U64, d: nat, n: nat, j: nat)
    requires n <= 2 * d < 64
    ensures Bit(TrajectoryFromZero(start, dst, itm, d, n), j) ==
            if d < n && j < n - d then Bit(dst, j)
            else if j < n && j < d then Bit(itm, j)
            else Bit(start, j)
  {
    if n > 0 {
      TrajectoryFromZeroBit(start, dst, itm, d, n - 1, j);
      var i := if n <= d then n - 1 else n - 1 - d;
      SetBitBit(TrajectoryFromZero(start, dst, itm, d, n - 1), i, if n <= d then Bit(itm, i) else Bit(dst, i), j);
    }
  }

  /** With these positions every tuple passes its intermediate target and arrives. */
  lemma FromZeroArrives(start: U64, dst: U64, itm: U64, d: nat)
    requires 2 * d < 64 && start < Pow2(d) && dst < Pow2(d) && itm < Pow2(d)
    ensures TrajectoryFromZero(start, dst, itm, d, d) == itm
    ensures TrajectoryFromZero(start, dst, itm, d, 2 * d) == dst
  {
    var x, y := TrajectoryFromZero(start, dst, itm, d, d), TrajectoryFromZero(start, dst, itm, d, 2 * d);
    forall j: nat ensures Bit(x, j) == Bit(itm, j) && Bit(y, j) == Bit(dst, j) {
      TrajectoryFromZeroBit(start, dst, itm, d, d, j);
      TrajectoryFromZeroBit(start, dst, itm, d, 2 * d, j);
      if d <= j { NoHighBit(start, d, j); NoHighBit(itm, d, j); NoHighBit(dst, d, j); }
    }
    BitsDetermine(x, itm);
    BitsDetermine(y, dst);
  }
}

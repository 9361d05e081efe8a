/** The hypercube of quorums: its neighbourhoods and the greedy next-hop rule. */
module Hypercube {
  import opened Bits

  type Onid = U64

  // ---------------------------------------------------------------- neighbourhoods

  function Neighborhood(node: nat, d: nat): (s: seq<nat>)
    ensures |s| == d + 1 && s[0] == node
    ensures forall i :: 0 <= i < d ==> s[i + 1] == FlipBit(node, i)
  {
    [node] + seq(d, i requires 0 <= i < d => FlipBit(node, i))
  }

  /** Calls a function on the node itself and on every node one flipped bit away;
      `visited` are the arguments in call order. */
  method ForAllNeighbors(node: Onid, d: nat) returns (visited: seq<nat>)
    ensures visited == Neighborhood(node, d)
  {
    visited := [node];
    for i := 0 to d
      invariant visited == Neighborhood(node, d)[..i + 1]
    {
      var flipped := FlipBit(node, i);
      visited := visited + [flipped];
    }
  }

  lemma NeighborsSymmetric(x: nat, y: nat, d: nat)
    requires y in Neighborhood(x, d)
    ensures x in Neighborhood(y, d)
  {
    hide FlipBit;
    var k :| 0 <= k < d + 1 && Neighborhood(x, d)[k] == y;
    hide *;
    if k == 0 {
      assert Neighborhood(y, d)[0] == x;
    } else {
      FlipTwice(x, k - 1);
      assert Neighborhood(y, d)[k - 1 + 1] == x;
    }
  }

  lemma FlipTwice(x: nat, i: nat)
    ensures FlipBit(FlipBit(x, i), i) == x
  {
    forall j: nat ensures Bit(FlipBit(FlipBit(x, i), i), j) == Bit(x, j) {
      FlipBitBit(x, i, j);
      FlipBitBit(FlipBit(x, i), i, j);
    }
    BitsDetermine(FlipBit(FlipBit(x, i), i), x);
  }

  lemma NeighborsBound(x: U64, y: nat, d: nat)
    requires d <= 64 && x < Pow2(d) && y in Neighborhood(x, d)
    ensures y < Pow2(d) <= TWO_64
  {
    var k :| 0 <= k < d + 1 && Neighborhood(x, d)[k] == y;
    Pow2Of64();
    Pow2Monotone(d, 64);
    if k > 0 { SetBitBound(x, k - 1, true, d); }
  }

  // ---------------------------------------------------------------- next hop

  /** The neighbour that agrees with `target` on one more bit: the lowest one that differs. */
  function NextHopFrom(own: nat, target: nat, i: nat, d: nat): nat
    decreases d - i
  {
    if i >= d then own
    else if Bit(own, i) != Bit(target, i) then FlipBit(own, i)
    else NextHopFrom(own, target, i + 1, d)
  }

  function NextHop(own: nat, target: nat, d: nat): nat {
    NextHopFrom(own, target, 0, d)
  }

  method DetermineNextHop(own: Onid, target: Onid, d: nat) returns (onidPrime: Onid)
    requires d <= 64
    ensures onidPrime == NextHop(own, target, d)
  {
    hide Bit, SetBit, FlipBit, Pow2;
    onidPrime := own;
    for i := 0 to d
      invariant onidPrime == own
      invariant NextHop(own, target, d) == NextHopFrom(own, target, i, d)
    {
      ShiftedBit(own, i);
      ShiftedBit(target, i);
      var ownBit := own / Pow2(i) % 2;
      var targetBit := target / Pow2(i) % 2;
      if targetBit != ownBit {
        SetBitIsFlipOrSame(onidPrime, i, targetBit == 1);
        Pow2Of64();
        SetBitBound(onidPrime, i, targetBit == 1, 64);
        onidPrime := SetBit(onidPrime, i, targetBit == 1);
        return;
      }
    }
  }

  /** Bit `i` is the lowest one below d in which the two differ. */
  ghost predicate FirstDifference(x: nat, y: nat, d: nat, i: nat) {
    i < d && Bit(x, i) != Bit(y, i) && forall j: nat :: j < i ==> Bit(x, j) == Bit(y, j)
  }

  /** The next hop has the lowest bit in which the own onid and the target differ as the target has it,
      and all others as the own one has them; without such a bit it is the own onid. */
  lemma NextHopBits(own: nat, target: nat, d: nat, i: nat)
    ensures FirstDifference(own, target, d, i) ==>
              forall j: nat :: Bit(NextHop(own, target, d), j) == (if j == i then Bit(target, i) else Bit(own, j))
    ensures (forall j: nat :: j < d ==> Bit(own, j) == Bit(target, j)) ==> NextHop(own, target, d) == own
  {
    if FirstDifference(own, target, d, i) {
      NextHopFromBits(own, target, 0, d, i);
    } else if forall j: nat :: j < d ==> Bit(own, j) == Bit(target, j) {
      NextHopFromSame(own, target, 0, d);
    }
  }

  lemma {:induction false} NextHopFromBits(own: nat, target: nat, k: nat, d: nat, i: nat)
    requires k <= i && FirstDifference(own, target, d, i)
    ensures forall j: nat :: Bit(NextHopFrom(own, target, k, d), j) == (if j == i then Bit(target, i) else Bit(own, j))
    decreases i - k
  {
    hide Bit, FlipBit;
    if k < i {
      NextHopFromBits(own, target, k + 1, d, i);
    } else {
      forall j: nat ensures Bit(FlipBit(own, i), j) == (if j == i then Bit(target, i) else Bit(own, j)) {
        FlipBitBit(own, i, j);
      }
    }
  }

  lemma {:induction false} NextHopFromSame(own: nat, target: nat, k: nat, d: nat)
    requires forall j: nat :: j < d ==> Bit(own, j) == Bit(target, j)
    ensures NextHopFrom(own, target, k, d) == own
    decreases d - k
  {
    hide Bit, FlipBit;
    if k < d { NextHopFromSame(own, target, k + 1, d); }
  }

  ghost predicate DifferOnlyIn(x: nat, y: nat, i: nat) {
    forall j: nat :: Bit(y, j) == (Bit(x, j) != (j == i))
  }

  /** The closed neighbourhood: the node itself and the numbers that differ from it in one bit below d. */
  lemma NeighborIff(x: nat, y: nat, d: nat)
    ensures y in Neighborhood(x, d) <==> y == x || exists i: nat :: i < d && DifferOnlyIn(x, y, i)
  {
    hide Bit, FlipBit;
    forall i: nat ensures DifferOnlyIn(x, FlipBit(x, i), i) { FlippedBit(x, i); }
    if k :| 0 <= k < d + 1 && Neighborhood(x, d)[k] == y && k > 0 {
      assert y == FlipBit(x, k - 1);
    }
    if i: nat :| i < d && DifferOnlyIn(x, y, i) {
      BitsDetermine(y, FlipBit(x, i));
      assert Neighborhood(x, d)[i + 1] == y;
    }
    assert Neighborhood(x, d)[0] == x;
  }

  lemma FlippedBit(x: nat, i: nat)
    ensures DifferOnlyIn(x, FlipBit(x, i), i)
  {
    forall j: nat ensures Bit(FlipBit(x, i), j) == (Bit(x, j) != (j == i)) { FlipBitBit(x, i, j); }
  }

  // ---------------------------------------------------------------- distance

  function Hamming(x: nat, y: nat, d: nat): (h: nat)
    ensures h <= d
  {
    if d == 0 then 0
    else Hamming(x, y, d - 1) + (if Bit(x, d - 1) != Bit(y, d - 1) then 1 else 0)
  }

  lemma {:induction false} HammingZero(x: nat, y: nat, d: nat, i: nat)
    requires Hamming(x, y, d) == 0 && i < d
    ensures Bit(x, i) == Bit(y, i)
  {
    if i < d - 1 { HammingZero(x, y, d - 1, i); }
  }

  lemma {:induction false} HammingPositive(x: nat, y: nat, d: nat, i: nat)
    requires i < d && Bit(x, i) != Bit(y, i)
    ensures Hamming(x, y, d) > 0
  {
    if i < d - 1 { HammingPositive(x, y, d - 1, i); }
  }

  lemma {:induction false} HammingSelf(x: nat, d: nat)
    ensures Hamming(x, x, d) == 0
  {
    if d > 0 { HammingSelf(x, d - 1); }
  }

  lemma {:induction false} HammingFlip(x: nat, y: nat, i: nat, d: nat)
    ensures Hamming(FlipBit(x, i), y, d) ==
            Hamming(x, y, d) + (if i >= d then 0 else if Bit(x, i) != Bit(y, i) then -1 else 1)
  {
    if d > 0 {
      FlipBitBit(x, i, d - 1);
      HammingFlip(x, y, i, d - 1);
    }
  }

  lemma {:induction false} NextHopFromStep(x: nat, y: nat, i: nat, d: nat)
    requires i <= d && Hamming(x, y, i) == 0
    ensures var z := NextHopFrom(x, y, i, d);
            if Hamming(x, y, d) == 0 then z == x
            else Hamming(z, y, d) == Hamming(x, y, d) - 1
                 && exists k: nat :: k < d && z == FlipBit(x, k)
    decreases d - i
  {
    if i == d {
    } else if Bit(x, i) != Bit(y, i) {
      HammingPositive(x, y, d, i);
      HammingFlip(x, y, i, d);
    } else {
      NextHopFromStep(x, y, i + 1, d);
    }
  }

  /** One hop goes to the node itself or to a neighbour, and gets strictly closer until there. */
  lemma {:induction false} NextHopCloser(x: nat, y: nat, d: nat)
    ensures NextHop(x, y, d) in Neighborhood(x, d)
    ensures Hamming(x, y, d) == 0 ==> NextHop(x, y, d) == x
    ensures Hamming(x, y, d) > 0 ==> Hamming(NextHop(x, y, d), y, d) == Hamming(x, y, d) - 1
    ensures forall j: nat :: d <= j ==> Bit(NextHop(x, y, d), j) == Bit(x, j)
  {
    NextHopFromStep(x, y, 0, d);
    if Hamming(x, y, d) == 0 {
      assert Neighborhood(x, d)[0] == x;
    } else {
      var k: nat :| k < d && NextHop(x, y, d) == FlipBit(x, k);
      assert Neighborhood(x, d)[k + 1] == FlipBit(x, k);
      forall j: nat | d <= j ensures Bit(NextHop(x, y, d), j) == Bit(x, j) {
        FlipBitBit(x, k, j);
      }
    }
  }

  // ---------------------------------------------------------------- walks

  /** Where a message addressed to `y` is after `k` hops from `x`. */
  function Walk(x: nat, y: nat, d: nat, k: nat): nat {
    if k == 0 then x else NextHop(Walk(x, y, d, k - 1), y, d)
  }

  lemma {:induction false} WalkProgress(x: nat, y: nat, d: nat, k: nat)
    requires k <= Hamming(x, y, d)
    ensures Hamming(Walk(x, y, d, k), y, d) == Hamming(x, y, d) - k
    ensures forall j: nat :: d <= j ==> Bit(Walk(x, y, d, k), j) == Bit(x, j)
    decreases k
  {
    if k > 0 {
      WalkProgress(x, y, d, k - 1);
      NextHopCloser(Walk(x, y, d, k - 1), y, d);
    }
  }

  /** Hop number `k` of the walk moves along an edge of the hypercube, and not from the target. */
  ghost predicate ProperHop(x: nat, y: nat, d: nat, k: nat) {
    var here, there := Walk(x, y, d, k), Walk(x, y, d, k + 1);
    here != y && here != there && there in Neighborhood(here, d) && there < Pow2(d)
  }

  lemma HopIsProper(x: U64, y: nat, d: nat, k: nat)
    requires d <= 64 && x < Pow2(d) && k < Hamming(x, y, d)
    ensures ProperHop(x, y, d, k)
  {
    hide NextHop, Hamming, Pow2, Neighborhood;
    WalkProgress(x, y, d, k);
    WalkProgress(x, y, d, k + 1);
    NextHopCloser(Walk(x, y, d, k), y, d);
    HammingSelf(y, d);
    WalkInRange(x, y, d, k + 1);
  }

  /** The next-hop rule reaches every quorum of the hypercube in exactly Hamming-distance
      many hops and not before, moving only along hypercube edges, and stays there. */
  lemma WalkReachesTarget(x: U64, y: U64, d: nat)
    requires d <= 64 && x < Pow2(d) && y < Pow2(d)
    ensures Hamming(x, y, d) <= d
    ensures forall k: nat :: k < Hamming(x, y, d) ==> ProperHop(x, y, d, k)
    ensures forall k: nat :: k >= Hamming(x, y, d) ==> Walk(x, y, d, k) == y
  {
    hide Walk, NextHop, Hamming, Pow2, Neighborhood, ProperHop;
    var h := Hamming(x, y, d);
    var z := Walk(x, y, d, h);
    WalkProgress(x, y, d, h);
    forall j: nat ensures Bit(z, j) == Bit(y, j) {
      if d <= j { NoHighBit(x, d, j); NoHighBit(y, d, j); } else { HammingZero(z, y, d, j); }
    }
    BitsDetermine(z, y);
    forall k: nat | k < h ensures ProperHop(x, y, d, k) { HopIsProper(x, y, d, k); }
    forall k: nat | k >= h ensures Walk(x, y, d, k) == y { WalkStays(x, y, d, k); }
  }

  lemma {:induction false} WalkInRange(x: U64, y: nat, d: nat, k: nat)
    requires d <= 64 && x < Pow2(d)
    ensures Walk(x, y, d, k) < Pow2(d) <= TWO_64
  {
    Pow2Of64();
    Pow2Monotone(d, 64);
    if k > 0 {
      WalkInRange(x, y, d, k - 1);
      NextHopCloser(Walk(x, y, d, k - 1), y, d);
      NeighborsBound(Walk(x, y, d, k - 1), Walk(x, y, d, k), d);
    }
  }

  lemma {:induction false} WalkStays(x: nat, y: nat, d: nat, k: nat)
    requires k >= Hamming(x, y, d) && Walk(x, y, d, Hamming(x, y, d)) == y
    ensures Walk(x, y, d, k) == y
    decreases k
  {
    if k > Hamming(x, y, d) {
      WalkStays(x, y, d, k - 1);
      HammingSelf(y, d);
      NextHopCloser(y, y, d);
    }
  }

  /** A sequence of nodes, each in the neighbourhood of the one before. */
  ghost predicate IsPath(p: seq<nat>, d: nat) {
    |p| > 0 && forall i :: 0 <= i < |p| - 1 ==> p[i + 1] in Neighborhood(p[i], d)
  }

  /** No path over hypercube edges is shorter than the walk of the next-hop rule. */
  lemma {:induction false} NoShorterPath(p: seq<nat>, d: nat)
    requires IsPath(p, d)
    ensures |p| - 1 >= Hamming(p[0], p[|p| - 1], d)
  {
    var y := p[|p| - 1];
    if |p| == 1 {
      HammingSelf(y, d);
    } else {
      var q := p[1..];
      forall i | 0 <= i < |q| - 1 ensures q[i + 1] in Neighborhood(q[i], d) {
        assert q[i] == p[i + 1] && q[i + 1] == p[i + 1 + 1];
      }
      NoShorterPath(q, d);
      var k :| 0 <= k < d + 1 && Neighborhood(p[0], d)[k] == p[1];
      if k > 0 { HammingFlip(p[0], y, k - 1, d); }
    }
  }

  /** A node of the closed neighbourhood is reached in one hop. */
  lemma NeighborInOneHop(x: nat, y: nat, d: nat)
    requires y in Neighborhood(x, d)
    ensures NextHop(x, y, d) == y
  {
    var k :| 0 <= k < d + 1 && Neighborhood(x, d)[k] == y;
    if k == 0 {
      HammingSelf(x, d);
      NextHopCloser(x, x, d);
    } else {
      FlipIsNextHop(x, k - 1, 0, d);
    }
  }

  lemma {:induction false} FlipIsNextHop(x: nat, k: nat, i: nat, d: nat)
    requires i <= k < d
    ensures NextHopFrom(x, FlipBit(x, k), i, d) == FlipBit(x, k)
    decreases k - i
  {
    FlipBitBit(x, k, i);
    if i < k { FlipIsNextHop(x, k, i + 1, d); }
  }
}

/** Machine integers and the bitwise operations the overlay code uses on node identifiers.

    A number is a natural; `Bit(x, i)` is its i-th binary digit. The bitwise operators are
    defined digit by digit, so a fact about them is a fact about digits. */
module Bits {

  const TWO_32: nat := 0x1_0000_0000
  const TWO_64: nat := 0x1_0000_0000_0000_0000

  type U64 = x: int | 0 <= x < 0x1_0000_0000_0000_0000
  type Byte = x: int | 0 <= x < 0x100

  function Pow2(n: nat): (p: nat)
    ensures p > 0
  {
    if n == 0 then 1 else 2 * Pow2(n - 1)
  }

  predicate Bit(x: nat, i: nat) {
    if i == 0 then x % 2 == 1 else Bit(x / 2, i - 1)
  }

  datatype BitOp = AND | OR | XOR {
    predicate Apply(a: bool, b: bool) {
      match this
      case AND => a && b
      case OR => a || b
      case XOR => a != b
    }
  }

  function Bitwise(op: BitOp, x: nat, y: nat): nat
    decreases x + y
  {
    if x == 0 && y == 0 then 0
    else 2 * Bitwise(op, x / 2, y / 2) + (if op.Apply(x % 2 == 1, y % 2 == 1) then 1 else 0)
  }

  /** The machine word `-b` of an unsigned long holding 0 or 1. */
  function Negated(b: bool): U64 {
    if b then 0xFFFF_FFFF_FFFF_FFFF else 0
  }

  /** `x ^ ((-b ^ x) & (1UL << i))`: the expression with which the code writes bit `i`. */
  function SetBit(x: nat, i: nat, b: bool): nat {
    Bitwise(XOR, x, Bitwise(AND, Bitwise(XOR, Negated(b), x), Pow2(i)))
  }

  /** `x ^ 1UL << i`. */
  function FlipBit(x: nat, i: nat): nat {
    Bitwise(XOR, x, Pow2(i))
  }

  lemma ZeroHasNoBit(i: nat)
    ensures !Bit(0, i)
  {
    if i > 0 { ZeroHasNoBit(i - 1); }
  }

  lemma {:induction false} BitwiseBit(op: BitOp, x: nat, y: nat, i: nat)
    ensures Bit(Bitwise(op, x, y), i) == op.Apply(Bit(x, i), Bit(y, i))
    decreases i
  {
    if x == 0 && y == 0 {
      ZeroHasNoBit(i);
    } else {
      assert Bitwise(op, x, y) / 2 == Bitwise(op, x / 2, y / 2);
      if i > 0 {
        BitwiseBit(op, x / 2, y / 2, i - 1);
      }
    }
  }

  lemma {:induction false} Pow2Bit(n: nat, i: nat)
    ensures Bit(Pow2(n), i) == (i == n)
    decreases i
  {
    if n > 0 && i > 0 {
      Pow2Bit(n - 1, i - 1);
    } else if i > 0 {
      ZeroHasNoBit(i - 1);
    }
  }

  lemma {:induction false} OnesBit(n: nat, i: nat)
    ensures Bit(Pow2(n) - 1, i) == (i < n)
    decreases i
  {
    if n == 0 {
      ZeroHasNoBit(i);
    } else {
      assert (Pow2(n) - 1) / 2 == Pow2(n - 1) - 1;
      if i > 0 { OnesBit(n - 1, i - 1); }
    }
  }

  lemma Pow2Of64()
    ensures Pow2(64) == TWO_64
  {
    assert Pow2(8) == 256;
    hide Pow2;
    Pow2Plus(8, 8);
    Pow2Plus(16, 16);
    Pow2Plus(32, 32);
  }

  lemma {:induction false} Pow2Plus(a: nat, b: nat)
    ensures Pow2(a + b) == Pow2(a) * Pow2(b)
    decreases b
  {
    if b > 0 { Pow2Plus(a, b - 1); }
  }

  /** Numbers with the same digits are equal. */
  lemma {:induction false} BitsDetermine(x: nat, y: nat)
    requires forall i: nat :: Bit(x, i) == Bit(y, i)
    ensures x == y
    decreases x + y
  {
    if x != 0 || y != 0 {
      assert Bit(x, 0) == Bit(y, 0);
      forall i: nat ensures Bit(x / 2, i) == Bit(y / 2, i) {
        assert Bit(x, i + 1) == Bit(y, i + 1);
      }
      BitsDetermine(x / 2, y / 2);
    }
  }

  /** A number below 2^n has no digit from position n on, and conversely. */
  lemma {:induction false} NoHighBit(x: nat, n: nat, i: nat)
    requires x < Pow2(n) && n <= i
    ensures !Bit(x, i)
    decreases i
  {
    if n == 0 {
      ZeroHasNoBit(i);
    } else {
      NoHighBit(x / 2, n - 1, i - 1);
    }
  }

  lemma {:induction false} HighBit(x: nat, n: nat) returns (i: nat)
    requires Pow2(n) <= x
    ensures n <= i && Bit(x, i)
    decreases x
  {
    if x == 1 {
      i := 0;
    } else {
      var k := HighBit(x / 2, if n == 0 then 0 else n - 1);
      i := k + 1;
    }
  }

  /** Writing a bit changes that bit alone. */
  lemma {:induction false} SetBitBit(x: U64, i: nat, b: bool, j: nat)
    requires i < 64
    ensures Bit(SetBit(x, i, b), j) == if j == i then b else Bit(x, j)
  {
    var diff := Bitwise(XOR, Negated(b), x);
    BitwiseBit(XOR, x, Bitwise(AND, diff, Pow2(i)), j);
    BitwiseBit(AND, diff, Pow2(i), j);
    BitwiseBit(XOR, Negated(b), x, j);
    Pow2Bit(i, j);
    Pow2Of64();
    OnesBit(64, j);
    ZeroHasNoBit(j);
  }

  lemma {:induction false} FlipBitBit(x: nat, i: nat, j: nat)
    ensures Bit(FlipBit(x, i), j) == ((j == i) != Bit(x, j))
  {
    BitwiseBit(XOR, x, Pow2(i), j);
    Pow2Bit(i, j);
  }

  lemma {:induction false} SetBitIsFlipOrSame(x: U64, i: nat, b: bool)
    requires i < 64
    ensures SetBit(x, i, b) == if Bit(x, i) == b then x else FlipBit(x, i)
  {
    var y := if Bit(x, i) == b then x else FlipBit(x, i);
    forall j: nat ensures Bit(SetBit(x, i, b), j) == Bit(y, j) {
      SetBitBit(x, i, b, j);
      FlipBitBit(x, i, j);
    }
    BitsDetermine(SetBit(x, i, b), y);
  }

  /** A written or flipped bit below `n` keeps a number below 2^n. */
  lemma {:induction false} SetBitBound(x: U64, i: nat, b: bool, n: nat)
    requires i < n <= 64 && x < Pow2(n)
    ensures FlipBit(x, i) < Pow2(n)
    ensures SetBit(x, i, b) < Pow2(n)
    ensures Pow2(n) <= TWO_64
  {
    if Pow2(n) <= FlipBit(x, i) {
      var k := HighBit(FlipBit(x, i), n);
      FlipBitBit(x, i, k);
      NoHighBit(x, n, k);
    }
    SetBitIsFlipOrSame(x, i, b);
    Pow2Of64();
    Pow2Monotone(n, 64);
  }

  lemma {:induction false} Pow2Monotone(a: nat, b: nat)
    requires a <= b
    ensures Pow2(a) <= Pow2(b)
    decreases b
  {
    if a < b { Pow2Monotone(a, b - 1); }
  }

  /** `x >> i & 1` is the i-th digit. */
  lemma {:induction false} ShiftedBit(x: nat, i: nat)
    ensures Bit(x, i) == ((x / Pow2(i)) % 2 == 1)
    decreases i
  {
    if i > 0 {
      ShiftedBit(x / 2, i - 1);
      var p := Pow2(i - 1);
      DivDiv(x, 2, p);
    }
  }

  lemma DivDiv(x: nat, a: nat, b: nat)
    requires a > 0 && b > 0
    ensures a * b > 0
    ensures x / a / b == x / (a * b)
  {
    var q := x / (a * b);
    var r := x % (a * b);
    assert x == a * b * q + r;
    assert a * b * q == a * (b * q);
    DivUnique(x, a, b * q + r / a, r % a);
    assert r < a * b;
    assert r == a * (r / a) + r % a;
    assert a * (r / a) < a * b;
    assert r / a < b;
    DivUnique(x / a, b, q, r / a);
  }

  lemma DivUnique(x: int, n: int, q: int, r: int)
    requires n > 0 && x == n * q + r && 0 <= r < n
    ensures x / n == q && x % n == r
  {
    var e := x / n - q;
    assert n * e == r - x % n;
    ProductSign(n, e);
  }

  lemma ProductSign(n: int, e: int)
    requires n > 0
    ensures e > 0 ==> n * e >= n
    ensures e < 0 ==> n * e <= -n
  {
  }

  /** Unsigned integer division, by repeated subtraction. */
  function Quotient(x: nat, n: nat): nat
    requires n > 0
  {
    if x < n then 0 else 1 + Quotient(x - n, n)
  }

  /** Multiplication, by repeated addition. */
  function Product(k: nat, n: nat): nat {
    if k == 0 then 0 else n + Product(k - 1, n)
  }

  lemma {:induction false} ProductIsMultiplication(k: nat, n: nat)
    ensures Product(k, n) == k * n
  {
    if k > 0 { ProductIsMultiplication(k - 1, n); }
  }

  lemma {:induction false} ProductPlus(k: nat, l: nat, n: nat)
    ensures Product(k + l, n) == Product(k, n) + Product(l, n)
    decreases k
  {
    if k > 0 { ProductPlus(k - 1, l, n); }
  }

  lemma {:induction false} QuotientIsDivision(x: nat, n: nat)
    requires n > 0
    ensures Quotient(x, n) == x / n
    decreases x
  {
    if x < n {
      DivUnique(x, n, 0, x);
    } else {
      QuotientIsDivision(x - n, n);
      var q := (x - n) / n;
      assert x - n == n * q + (x - n) % n;
      DivUnique(x, n, q + 1, (x - n) % n);
    }
  }

  /** x / n < k iff x < k * n. */
  lemma {:induction false} QuotientBelow(x: nat, n: nat, k: nat)
    requires n > 0
    ensures Quotient(x, n) < k <==> x < Product(k, n)
    decreases k
  {
    if k > 0 && x >= n { QuotientBelow(x - n, n, k - 1); }
  }

  lemma {:induction false} QuotientSmaller(x: nat, n: nat)
    requires n > 0
    ensures Quotient(x, n) <= x
    decreases x
  {
    if x >= n { QuotientSmaller(x - n, n); }
  }

  lemma {:induction false} QuotientMonotone(x: nat, y: nat, n: nat)
    requires n > 0 && x <= y
    ensures Quotient(x, n) <= Quotient(y, n)
    decreases x
  {
    if x >= n { QuotientMonotone(x - n, y - n, n); }
  }
}

/** Numbers and vectors as bytes: big-endian numbers of a fixed size, vectors with their length in
    front. A reader works at a cursor and fails where the source reads out of bounds. */
module Serialization {
  import opened Bits
  import opened Options
  import opened Sequences

  type Bytes = seq<Byte>

  /** A value read, and the cursor after it. */
  datatype Read<+T> = Read(value: T, cur: nat)

  type Decoder<!T> = (Bytes, nat) -> Option<Read<T>>

  /** The bytes of `chunk` stand at `cur`. */
  predicate HoldsAt(b: Bytes, cur: nat, chunk: Bytes) {
    cur + |chunk| <= |b| && b[cur..cur + |chunk|] == chunk
  }

  lemma HoldsInParts(b: Bytes, cur: nat, first: Bytes, second: Bytes)
    ensures HoldsAt(b, cur, first + second) <==> HoldsAt(b, cur, first) && HoldsAt(b, cur + |first|, second)
  {
    if HoldsAt(b, cur, first + second) {
      var chunk := b[cur..cur + |first + second|];
      assert chunk[..|first|] == first && chunk[|first|..] == second;
      assert b[cur..cur + |first|] == chunk[..|first|];
      assert b[cur + |first|..cur + |first| + |second|] == chunk[|first|..];
    }
    if HoldsAt(b, cur, first) && HoldsAt(b, cur + |first|, second) {
      assert b[cur..cur + |first + second|]
          == b[cur..cur + |first|] + b[cur + |first|..cur + |first| + |second|];
    }
  }

  lemma HoldsInside(before: Bytes, chunk: Bytes, after: Bytes)
    ensures HoldsAt(before + chunk + after, |before|, chunk)
  {
  }

  // ---------------------------------------------------------------- numbers

  /** The `size` low bytes of a number, the most significant first. */
  function EncNumber(v: nat, size: nat): (b: Bytes)
    ensures |b| == size
  {
    if size == 0 then [] else EncNumber(v / 0x100, size - 1) + [v % 0x100]
  }

  /** A byte shifted as a 32-bit int and converted to 64 bits. The count is taken modulo 32, as
      the hardware does; the sign bit is extended. */
  function ShiftedInt(b: Byte, count: nat): U64 {
    var low := (Pow2(count % 32) * b) % TWO_32;
    if low < 0x8000_0000 then low else low + TWO_64 - TWO_32
  }

  function Truncated(x: nat, size: nat): nat { x % Pow2(8 * size) }

  /** The number accumulated from the first `i` of `size` bytes. */
  function Accumulated(b: Bytes, cur: nat, size: nat, i: nat): nat
    requires i <= size && cur + size <= |b|
  {
    if i == 0 then 0
    else Truncated(Bitwise(OR, Accumulated(b, cur, size, i - 1), ShiftedInt(b[cur + i - 1], 8 * (size - i))), size)
  }

  function DecNumber(b: Bytes, cur: nat, size: nat): Option<Read<nat>> {
    if cur + size > |b| then None
    else Some(Read(Accumulated(b, cur, size, size), cur + size))
  }

  // ---------------------------------------------------------------- numbers, bit by bit

  /** The digits of `y` placed above those of `x`. */
  lemma {:induction false} BitConcat(x: nat, y: nat, m: nat, j: nat)
    requires x < Pow2(m)
    ensures Bit(x + Pow2(m) * y, j) <==> if j < m then Bit(x, j) else Bit(y, j - m)
    decreases m
  {
    if m > 0 {
      var z := x + Pow2(m) * y;
      assert Pow2(m) * y == 2 * (Pow2(m - 1) * y);
      assert z / 2 == x / 2 + Pow2(m - 1) * y && z % 2 == x % 2;
      if j > 0 { BitConcat(x / 2, y, m - 1, j - 1); }
    }
  }

  lemma TruncatedBit(x: nat, size: nat, j: nat)
    ensures Bit(Truncated(x, size), j) <==> j < 8 * size && Bit(x, j)
  {
    hide Bit, Pow2;
    var m := Pow2(8 * size);
    assert x == x % m + m * (x / m);
    BitConcat(x % m, x / m, 8 * size, j);
    if j >= 8 * size { NoHighBit(x % m, 8 * size, j); }
  }

  lemma ByteShift(x: nat, j: nat)
    ensures Bit(x / 0x100, j) <==> Bit(x, j + 8)
  {
    assert Bit(x, j + 8) == Bit(x / 2 / 2, j + 6);
    assert Bit(x / 2 / 2, j + 6) == Bit(x / 2 / 2 / 2 / 2, j + 4);
    assert Bit(x / 2 / 2 / 2 / 2, j + 4) == Bit(x / 2 / 2 / 2 / 2 / 2 / 2, j + 2);
    assert Bit(x / 2 / 2 / 2 / 2 / 2 / 2, j + 2) == Bit(x / 2 / 2 / 2 / 2 / 2 / 2 / 2 / 2, j);
  }

  /** The sign bit of a word of m + 1 bits. */
  lemma TopBit(x: nat, m: nat)
    requires x < 2 * Pow2(m)
    ensures Bit(x, m) <==> x >= Pow2(m)
  {
    if x >= Pow2(m) {
      BitConcat(x - Pow2(m), 1, m, m);
    } else {
      NoHighBit(x, m, m);
    }
  }

  lemma Pow2Of32()
    ensures Pow2(8) == 0x100 && Pow2(16) == 0x1_0000 && Pow2(24) == 0x100_0000 && Pow2(31) == 0x8000_0000
    ensures Pow2(32) == TWO_32
  {
    assert Pow2(8) == 0x100;
    Pow2Plus(8, 8);
    Pow2Plus(16, 8);
    Pow2Plus(24, 7);
    assert Pow2(7) == 0x80;
  }

  lemma {:induction false} EncNumberBit(v: nat, size: nat, i: nat, t: nat)
    requires i < size
    ensures Bit(EncNumber(v, size)[i], t) <==> t < 8 && Bit(v, 8 * (size - 1 - i) + t)
  {
    Pow2Of32();
    if i == size - 1 {
      assert v % 0x100 == Truncated(v, 1);
      TruncatedBit(v, 1, t);
    } else {
      EncNumberBit(v / 0x100, size - 1, i, t);
      ByteShift(v, 8 * (size - 2 - i) + t);
    }
  }

  lemma LowWord(b: Byte, count: nat)
    requires count % 8 == 0
    ensures var low := Pow2(count % 32) * b;
            low < TWO_32 && ShiftedInt(b, count) == if low < 0x8000_0000 then low else low + TWO_32 * 0xFFFF_FFFF
  {
    var k := count % 32;
    ShiftFactor(k);
    hide Pow2;
    var factor := Pow2(k);
    if factor == 1 { assert factor * b == b; }
    else if factor == 0x100 { assert factor * b == 0x100 * b; }
    else if factor == 0x1_0000 { assert factor * b == 0x1_0000 * b; }
    else { assert factor * b == 0x100_0000 * b; }
  }

  lemma ShiftFactor(k: nat)
    requires k < 32 && k % 8 == 0
    ensures Pow2(k) == 1 || Pow2(k) == 0x100 || Pow2(k) == 0x1_0000 || Pow2(k) == 0x100_0000
  {
    Pow2Of32();
    assert Pow2(0) == 1;
    hide Pow2;
    assert k == 0 || k == 8 || k == 16 || k == 24;
  }

  lemma ShiftedIntBit(b: Byte, count: nat, j: nat)
    requires count % 8 == 0
    ensures Bit(ShiftedInt(b, count), j) <==>
              if j < 32 then count % 32 <= j && Bit(b, j - count % 32)
              else j < 64 && Bit(Pow2(count % 32) * b, 31)
  {
    hide ShiftedInt, Bit;
    LowWord(b, count);
    Pow2Of32();
    var low := Pow2(count % 32) * b;
    hide Pow2;
    TopBit(low, 31);
    SmallShiftBit(b, count % 32, j);
    if low >= 0x8000_0000 {
      BitConcat(low, 0xFFFF_FFFF, 32, j);
      if j >= 32 { OnesBit(32, j - 32); }
    } else if j >= 32 {
      NoHighBit(low, 32, j);
    }
  }

  lemma SmallShiftBit(b: Byte, k: nat, j: nat)
    ensures Bit(Pow2(k) * b, j) <==> k <= j && Bit(b, j - k)
  {
    BitConcat(0, b, k, j);
    ZeroHasNoBit(j);
  }

  // ---------------------------------------------------------------- numbers, there and back

  /** Byte `k` of the encoding of `v` contributes a one at position `j` when it is read. */
  predicate Contributes(v: nat, size: nat, k: nat, j: nat)
    requires k < size
  {
    var count := 8 * (size - 1 - k);
    var shift := count % 32;
    if j < 32 then shift <= j < shift + 8 && Bit(v, count + j - shift)
    else j < 64 && shift == 24 && Bit(v, count + 7)
  }

  lemma ContributesBit(v: nat, size: nat, k: nat, j: nat)
    requires k < size
    ensures Bit(ShiftedInt(EncNumber(v, size)[k], 8 * (size - 1 - k)), j) <==> Contributes(v, size, k, j)
  {
    var count := 8 * (size - 1 - k);
    var b := EncNumber(v, size)[k];
    hide *;
    ShiftedIntBit(b, count, j);
    if j < 32 {
      LowContribution(v, size, k, j);
    } else {
      HighContribution(v, size, k, j);
    }
  }

  lemma LowContribution(v: nat, size: nat, k: nat, j: nat)
    requires k < size && j < 32
    ensures var shift := 8 * (size - 1 - k) % 32;
            (shift <= j && Bit(EncNumber(v, size)[k], j - shift)) <==> Contributes(v, size, k, j)
  {
    hide Bit, EncNumber;
    var count := 8 * (size - 1 - k);
    if count % 32 <= j { EncNumberBit(v, size, k, j - count % 32); }
  }

  lemma HighContribution(v: nat, size: nat, k: nat, j: nat)
    requires k < size && j >= 32
    ensures (j < 64 && Bit(Pow2(8 * (size - 1 - k) % 32) * EncNumber(v, size)[k], 31)) <==> Contributes(v, size, k, j)
  {
    hide Bit, EncNumber, Pow2;
    var shift := 8 * (size - 1 - k) % 32;
    SmallShiftBit(EncNumber(v, size)[k], shift, 31);
    EncNumberBit(v, size, k, 31 - shift);
  }

  predicate SomeContributes(v: nat, size: nat, i: nat, j: nat)
    requires i <= size
  {
    i > 0 && (SomeContributes(v, size, i - 1, j) || Contributes(v, size, i - 1, j))
  }

  lemma {:induction false} AccumulatedBit(b: Bytes, cur: nat, v: nat, size: nat, i: nat, j: nat)
    requires HoldsAt(b, cur, EncNumber(v, size)) && i <= size
    ensures Bit(Accumulated(b, cur, size, i), j) <==> j < 8 * size && SomeContributes(v, size, i, j)
  {
    hide ShiftedInt, Bit, EncNumber, Contributes, Truncated;
    if i == 0 {
      ZeroHasNoBit(j);
    } else {
      AccumulatedBit(b, cur, v, size, i - 1, j);
      assert b[cur + i - 1] == b[cur..cur + size][i - 1] == EncNumber(v, size)[i - 1];
      var rest := Accumulated(b, cur, size, i - 1);
      var shifted := ShiftedInt(b[cur + i - 1], 8 * (size - i));
      TruncatedBit(Bitwise(OR, rest, shifted), size, j);
      BitwiseBit(OR, rest, shifted, j);
      ContributesBit(v, size, i - 1, j);
    }
  }

  /** Numbers of one and of four bytes are read back as they were written. */
  lemma SmallNumberRoundTrip(b: Bytes, cur: nat, v: nat, size: nat)
    requires (size == 1 || size == 4) && v < Pow2(8 * size) && HoldsAt(b, cur, EncNumber(v, size))
    ensures DecNumber(b, cur, size) == Some(Read(v, cur + size))
  {
    hide Accumulated, EncNumber;
    var r := Accumulated(b, cur, size, size);
    forall j: nat ensures Bit(r, j) == Bit(v, j) {
      AccumulatedBit(b, cur, v, size, size, j);
      if j >= 8 * size { NoHighBit(v, 8 * size, j); } else { SmallContributions(v, size, j); }
    }
    BitsDetermine(r, v);
  }

  lemma SmallContributions(v: nat, size: nat, j: nat)
    requires (size == 1 || size == 4) && j < 8 * size
    ensures SomeContributes(v, size, size, j) <==> Bit(v, j)
  {
    hide Bit;
    if size == 1 {
      assert SomeContributes(v, 1, 1, j) == Contributes(v, 1, 0, j);
    } else {
      assert SomeContributes(v, 4, 1, j) == Contributes(v, 4, 0, j);
      assert SomeContributes(v, 4, 2, j) == (Contributes(v, 4, 0, j) || Contributes(v, 4, 1, j));
      assert SomeContributes(v, 4, 4, j)
          == (Contributes(v, 4, 0, j) || Contributes(v, 4, 1, j) || Contributes(v, 4, 2, j) || Contributes(v, 4, 3, j));
    }
  }

  /** An eight-byte number is read back as its halves, one over the other, with the sign bit
      of the lower word extended. */
  lemma LargeContributions(v: nat, j: nat)
    ensures SomeContributes(v, 8, 8, j) <==>
              if j < 32 then Bit(v, j) || Bit(v, j + 32) else j < 64 && (Bit(v, 31) || Bit(v, 63))
  {
    hide Bit;
    assert SomeContributes(v, 8, 1, j) == Contributes(v, 8, 0, j);
    assert SomeContributes(v, 8, 2, j) == (SomeContributes(v, 8, 1, j) || Contributes(v, 8, 1, j));
    assert SomeContributes(v, 8, 4, j)
        == (SomeContributes(v, 8, 2, j) || Contributes(v, 8, 2, j) || Contributes(v, 8, 3, j));
    assert SomeContributes(v, 8, 6, j)
        == (SomeContributes(v, 8, 4, j) || Contributes(v, 8, 4, j) || Contributes(v, 8, 5, j));
    assert SomeContributes(v, 8, 8, j)
        == (SomeContributes(v, 8, 6, j) || Contributes(v, 8, 6, j) || Contributes(v, 8, 7, j));
  }

  /** The numbers that survive eight bytes. */
  predicate Faithful(v: nat) {
    v < 0x8000_0000 || v == TWO_64 - 1
  }

  lemma LargeBits(b: Bytes, cur: nat, v: U64, j: nat)
    requires HoldsAt(b, cur, EncNumber(v, 8))
    ensures Bit(Accumulated(b, cur, 8, 8), j) <==>
              if j < 32 then Bit(v, j) || Bit(v, j + 32) else j < 64 && (Bit(v, 31) || Bit(v, 63))
  {
    hide Accumulated, EncNumber, Bit;
    AccumulatedBit(b, cur, v, 8, 8, j);
    LargeContributions(v, j);
  }

  /** An eight-byte number is read back as it was written iff it is below 2^31 or all ones. */
  lemma NumberRoundTripIff(b: Bytes, cur: nat, v: U64)
    requires HoldsAt(b, cur, EncNumber(v, 8))
    ensures DecNumber(b, cur, 8).Some? && DecNumber(b, cur, 8).value.cur == cur + 8
    ensures DecNumber(b, cur, 8).value.value == v <==> Faithful(v)
  {
    hide Accumulated, EncNumber, Bit;
    var r := Accumulated(b, cur, 8, 8);
    Pow2Of32();
    Pow2Of64();
    if Faithful(v) {
      forall j: nat ensures Bit(r, j) == Bit(v, j) {
        LargeBits(b, cur, v, j);
        FaithfulBits(v, j);
      }
      BitsDetermine(r, v);
    } else if r == v {
      LargeBits(b, cur, v, 63);
      if Bit(v, 63) {
        forall j: nat ensures Bit(v, j) == Bit(Pow2(64) - 1, j) {
          LargeBits(b, cur, v, j);
          LargeBits(b, cur, v, j + 32);
          OnesBit(64, j);
        }
        BitsDetermine(v, Pow2(64) - 1);
      } else {
        var i := HighBit(v, 31);
        LargeBits(b, cur, v, i);
      }
      assert false;
    }
  }

  lemma FaithfulBits(v: U64, j: nat)
    requires Faithful(v)
    ensures Bit(v, j) <==> if j < 32 then Bit(v, j) || Bit(v, j + 32) else j < 64 && (Bit(v, 31) || Bit(v, 63))
  {
    Pow2Of32();
    Pow2Of64();
    hide Bit, Pow2;
    if v < 0x8000_0000 {
      NoHighBit(v, 31, j + 32);
      NoHighBit(v, 31, 31);
      NoHighBit(v, 31, 63);
      if j >= 31 { NoHighBit(v, 31, j); }
    } else {
      OnesBit(64, j);
      OnesBit(64, 31);
    }
  }

  lemma AccumulatedBound(b: Bytes, cur: nat, size: nat, i: nat)
    requires i <= size && cur + size <= |b|
    ensures Accumulated(b, cur, size, i) < Pow2(8 * size)
  {
  }

  function DecU64(b: Bytes, cur: nat): Option<Read<U64>> {
    match DecNumber(b, cur, 8)
    case None => None
    case Some(n) =>
      AccumulatedBound(b, cur, 8, 8);
      Pow2Of64();
      Some(Read(n.value, n.cur))
  }

  function DecByte(b: Bytes, cur: nat): Option<Read<Byte>> {
    match DecNumber(b, cur, 1)
    case None => None
    case Some(n) =>
      AccumulatedBound(b, cur, 1, 1);
      Pow2Of32();
      Some(Read(n.value, n.cur))
  }

  /** What is read where `v` was written. */
  function Reread(v: U64): U64 {
    DecU64(EncNumber(v, 8), 0).value.value
  }

  lemma U64Read(b: Bytes, cur: nat, v: U64)
    requires HoldsAt(b, cur, EncNumber(v, 8))
    ensures DecU64(b, cur) == Some(Read(Reread(v), cur + 8))
    ensures Reread(v) == v <==> Faithful(v)
  {
    hide Accumulated, EncNumber, Bit;
    NumberRoundTripIff(b, cur, v);
    var own := EncNumber(v, 8);
    assert own[0..0 + |own|] == own;
    forall j: nat ensures Bit(Accumulated(b, cur, 8, 8), j) == Bit(Accumulated(own, 0, 8, 8), j) {
      LargeBits(b, cur, v, j);
      LargeBits(own, 0, v, j);
    }
    BitsDetermine(Accumulated(b, cur, 8, 8), Accumulated(own, 0, 8, 8));
  }

  lemma ByteRead(b: Bytes, cur: nat, v: Byte)
    requires HoldsAt(b, cur, EncNumber(v, 1))
    ensures DecByte(b, cur) == Some(Read(v, cur + 1))
  {
    Pow2Of32();
    SmallNumberRoundTrip(b, cur, v, 1);
  }

  lemma RereadBit(v: U64, j: nat)
    ensures Bit(Reread(v), j) <==>
              if j < 32 then Bit(v, j) || Bit(v, j + 32) else j < 64 && (Bit(v, 31) || Bit(v, 63))
  {
    hide Accumulated, EncNumber, Bit;
    var own := EncNumber(v, 8);
    assert own[0..0 + |own|] == own;
    LargeBits(own, 0, v, j);
  }

  /** After two readings nothing changes any more. */
  lemma RereadTwice(v: U64)
    ensures Faithful(Reread(Reread(v)))
  {
    hide Reread, Bit;
    var w := Reread(v);
    Pow2Of32();
    Pow2Of64();
    hide Pow2;
    RereadBit(v, 31);
    RereadBit(v, 63);
    if Bit(w, 63) {
      forall j: nat ensures Bit(Reread(w), j) == Bit(Pow2(64) - 1, j) {
        RereadBit(w, j);
        RereadBit(v, j + 32);
        OnesBit(64, j);
      }
      BitsDetermine(Reread(w), Pow2(64) - 1);
    } else if Reread(w) >= 0x8000_0000 {
      var i := HighBit(Reread(w), 31);
      RereadBit(w, i);
      RereadBit(w, 31);
    }
  }

  // ---------------------------------------------------------------- vectors

  function EncItems<T>(enc: T -> Bytes, items: seq<T>): Bytes {
    if items == [] then [] else EncItems(enc, items[..|items| - 1]) + enc(items[|items| - 1])
  }

  function EncVec<T>(enc: T -> Bytes, items: seq<T>): Bytes {
    EncNumber(|items|, 8) + EncItems(enc, items)
  }

  function DecItems<T>(dec: Decoder<T>, n: nat, b: Bytes, cur: nat): Option<Read<seq<T>>> {
    if n == 0 then Some(Read([], cur))
    else
      match DecItems(dec, n - 1, b, cur)
      case None => None
      case Some(rest) =>
        match dec(b, rest.cur)
        case None => None
        case Some(last) => Some(Read(rest.value + [last.value], last.cur))
  }

  function DecVec<T>(dec: Decoder<T>, b: Bytes, cur: nat): Option<Read<seq<T>>> {
    match DecNumber(b, cur, 8)
    case None => None
    case Some(n) => DecItems(dec, n.value, b, n.cur)
  }

  /** Wherever in `b` the encoding of `x` stands, `dec` returns `y` and stops right behind it. */
  ghost predicate Reads<T(!new)>(enc: T -> Bytes, dec: Decoder<T>, b: Bytes, x: T, y: T) {
    forall cur: nat :: HoldsAt(b, cur, enc(x)) ==> dec(b, cur) == Some(Read(y, cur + |enc(x)|))
  }

  ghost predicate AllRead<T(!new)>(enc: T -> Bytes, dec: Decoder<T>, image: T -> T, items: seq<T>, b: Bytes) {
    forall i :: 0 <= i < |items| ==> Reads(enc, dec, b, items[i], image(items[i]))
  }

  lemma AllButLastRead<T(!new)>(enc: T -> Bytes, dec: Decoder<T>, image: T -> T, items: seq<T>, x: T, b: Bytes)
    requires AllRead(enc, dec, image, items + [x], b)
    ensures AllRead(enc, dec, image, items, b) && Reads(enc, dec, b, x, image(x))
  {
    hide Reads;
    assert (items + [x])[|items|] == x;
    assert forall i :: 0 <= i < |items| ==> (items + [x])[i] == items[i];
  }

  lemma {:induction false} ItemsRead<T(!new)>(enc: T -> Bytes, dec: Decoder<T>, image: T -> T, items: seq<T>,
                                              b: Bytes, cur: nat)
    requires AllRead(enc, dec, image, items, b)
    requires HoldsAt(b, cur, EncItems(enc, items))
    ensures DecItems(dec, |items|, b, cur) == Some(Read(Map(image, items), cur + |EncItems(enc, items)|))
  {
    if items != [] {
      var front, x := items[..|items| - 1], items[|items| - 1];
      assert items == front + [x];
      EncItemsStep(enc, front, x);
      AllButLastRead(enc, dec, image, front, x, b);
      hide *;
      HoldsInParts(b, cur, EncItems(enc, front), enc(x));
      ItemsRead(enc, dec, image, front, b, cur);
      OneMoreRead(enc, dec, image, front, x, b, cur);
    }
  }

  lemma OneMoreRead<T(!new)>(enc: T -> Bytes, dec: Decoder<T>, image: T -> T, items: seq<T>, x: T, b: Bytes, cur: nat)
    requires DecItems(dec, |items|, b, cur) == Some(Read(Map(image, items), cur + |EncItems(enc, items)|))
    requires Reads(enc, dec, b, x, image(x)) && HoldsAt(b, cur + |EncItems(enc, items)|, enc(x))
    ensures DecItems(dec, |items| + 1, b, cur)
         == Some(Read(Map(image, items + [x]), cur + |EncItems(enc, items + [x])|))
  {
    hide HoldsAt, EncItems, DecItems, Map, Reads;
    DecItemsStep(dec, |items|, b, cur);
    ReadsAt(enc, dec, b, x, image(x), cur + |EncItems(enc, items)|);
    EncItemsStep(enc, items, x);
    MapStep(image, items, x);
  }

  lemma ReadsAt<T(!new)>(enc: T -> Bytes, dec: Decoder<T>, b: Bytes, x: T, y: T, cur: nat)
    requires Reads(enc, dec, b, x, y) && HoldsAt(b, cur, enc(x))
    ensures dec(b, cur) == Some(Read(y, cur + |enc(x)|))
  {
  }

  lemma EncItemsStep<T>(enc: T -> Bytes, items: seq<T>, x: T)
    ensures EncItems(enc, items + [x]) == EncItems(enc, items) + enc(x)
  {
    assert (items + [x])[..|items|] == items;
  }

  lemma DecItemsStep<T>(dec: Decoder<T>, n: nat, b: Bytes, cur: nat)
    requires DecItems(dec, n, b, cur).Some?
    ensures var rest := DecItems(dec, n, b, cur).value;
            DecItems(dec, n + 1, b, cur) ==
              match dec(b, rest.cur)
              case None => None
              case Some(last) => Some(Read(rest.value + [last.value], last.cur))
  {
  }

  /** A vector that is not too long is read item by item to its end, at any offset and before any
      suffix. */
  lemma VecRead<T(!new)>(enc: T -> Bytes, dec: Decoder<T>, image: T -> T, items: seq<T>, b: Bytes, cur: nat)
    requires forall x :: x in items ==> Reads(enc, dec, b, x, image(x))
    requires |items| < 0x8000_0000 && HoldsAt(b, cur, EncVec(enc, items))
    ensures DecVec(dec, b, cur) == Some(Read(Map(image, items), cur + |EncVec(enc, items)|))
  {
    hide EncNumber, DecNumber, EncItems, DecItems, Reads;
    HoldsInParts(b, cur, EncNumber(|items|, 8), EncItems(enc, items));
    NumberRoundTripIff(b, cur, |items|);
    ItemsRead(enc, dec, image, items, b, cur + 8);
  }

  lemma {:induction false} ItemsLength<T(!new)>(enc: T -> Bytes, items: seq<T>, n: nat)
    requires forall x :: x in items ==> |enc(x)| == n
    ensures |EncItems(enc, items)| == Product(|items|, n)
  {
    if items != [] { ItemsLength(enc, items[..|items| - 1], n); }
  }

  /** Where a reader that advances by `n` bytes an item ends up. */
  lemma {:induction false} ItemsAdvance<T(!new)>(dec: Decoder<T>, k: nat, b: Bytes, cur: nat, n: nat)
    requires forall c: nat :: dec(b, c).Some? ==> dec(b, c).value.cur == c + n
    requires DecItems(dec, k, b, cur).Some?
    ensures DecItems(dec, k, b, cur).value.cur == cur + Product(k, n)
    ensures |DecItems(dec, k, b, cur).value.value| == k
  {
    if k > 0 { ItemsAdvance(dec, k - 1, b, cur, n); }
  }

  lemma {:induction false} ItemsFail<T(!new)>(dec: Decoder<T>, k: nat, n: nat, b: Bytes, cur: nat)
    requires k <= n && DecItems(dec, k, b, cur).None?
    ensures DecItems(dec, n, b, cur).None?
    decreases n
  {
    if k < n { ItemsFail(dec, k, n - 1, b, cur); }
  }

  // ---------------------------------------------------------------- the loops

  /** The working vector to which everything is serialized. */
  class WorkingVec {
    var bytes: Bytes

    constructor ()
      ensures bytes == []
    {
      bytes := [];
    }

    method PushNumber(number: nat, size: nat)
      modifies this
      ensures bytes == old(bytes) + EncNumber(number, size)
    {
      assert bytes == old(bytes) + EncNumber(number, size)[..0];
      for i := 0 to size
        invariant bytes == old(bytes) + EncNumber(number, size)[..i]
      {
        EncNumberByte(number, size, i);
        bytes := bytes + [number / Pow2(8 * (size - i - 1)) % 0x100];
      }
      assert EncNumber(number, size)[..size] == EncNumber(number, size);
    }

    method PushVec<T>(enc: T -> Bytes, vec: seq<T>)
      modifies this
      ensures bytes == old(bytes) + EncVec(enc, vec)
    {
      hide EncNumber;
      PushNumber(|vec|, 8);
      ghost var start := bytes;
      assert EncItems(enc, vec[..0]) == [];
      for k := 0 to |vec|
        invariant bytes == start + EncItems(enc, vec[..k])
      {
        assert vec[..k + 1][..k] == vec[..k];
        bytes := bytes + enc(vec[k]);
      }
      assert vec[..|vec|] == vec;
    }
  }

  /** A byte of the loop, by shifting and masking, is a byte of the encoding. */
  lemma {:induction false} EncNumberByte(v: nat, size: nat, i: nat)
    requires i < size
    ensures EncNumber(v, size)[i] == v / Pow2(8 * (size - i - 1)) % 0x100
    ensures EncNumber(v, size)[..i + 1] == EncNumber(v, size)[..i] + [EncNumber(v, size)[i]]
  {
    if i < size - 1 {
      EncNumberByte(v / 0x100, size - 1, i);
      var k := 8 * (size - i - 2);
      Pow2Plus(8, k);
      Pow2Of32();
      DivDiv(v, 0x100, Pow2(k));
    }
  }

  /** A cursor into the bytes that are deserialized. */
  class Cursor {
    const data: Bytes
    var cur: nat

    constructor (data: Bytes)
      ensures this.data == data && cur == 0
    {
      this.data, cur := data, 0;
    }

    /** `ok` is false when the number does not end within the data. */
    method ReadNumber(size: nat) returns (ok: bool, result: nat)
      modifies this
      ensures ok <==> DecNumber(data, old(cur), size).Some?
      ensures ok ==> DecNumber(data, old(cur), size) == Some(Read(result, cur))
    {
      result := 0;
      if cur + size > |data| {
        return false, 0;
      }
      for i := 0 to size
        invariant cur == old(cur) && result == Accumulated(data, cur, size, i)
      {
        result := Truncated(Bitwise(OR, result, ShiftedInt(data[cur + i], 8 * (size - i - 1))), size);
      }
      cur := cur + size;
      ok := true;
    }

    method ReadVec<T(!new)>(dec: Decoder<T>) returns (ok: bool, vec: seq<T>)
      modifies this
      ensures ok <==> DecVec(dec, data, old(cur)).Some?
      ensures ok ==> DecVec(dec, data, old(cur)) == Some(Read(vec, cur))
    {
      hide DecNumber;
      vec := [];
      var size;
      ok, size := ReadNumber(8);
      if !ok {
        return;
      }
      ghost var start := cur;
      for i := 0 to size
        invariant DecItems(dec, i, data, start) == Some(Read(vec, cur))
      {
        match dec(data, cur)
        case None =>
          ItemsFail(dec, i + 1, size, data, start);
          return false, vec;
        case Some(read) =>
          vec, cur := vec + [read.value], read.cur;
      }
    }
  }
}

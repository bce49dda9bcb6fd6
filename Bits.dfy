/** The binary digits of integers, as Python's `//` and `%` by 2 expose them,
    and the Hamming distance between the low bits of two integers: the
    reference the hypercube's `difer` is proved against. */
module Bits {

  /** `2 ** a`. */
  function Pow2(a: nat): (p: nat)
    ensures 1 <= p
  {
    if a == 0 then 1 else 2 * Pow2(a - 1)
  }

  /** `x >> j`: `x` floor-divided by 2, `j` times. Dafny's `/` by a positive
      divisor rounds down like Python's `//`, negative `x` included. */
  function Shift(x: int, j: nat): int
    decreases j
  {
    if j == 0 then x else Shift(x / 2, j - 1)
  }

  /** Bit `j` of `x` (two's complement for negative `x`). */
  function Bit(x: int, j: nat): (b: int)
    ensures b == 0 || b == 1
  {
    Shift(x, j) % 2
  }

  /** The number of positions `j < a` at which `x` and `y` have different
      bits: the population count of `(x xor y) mod 2 ** a`. */
  function Hamming(x: int, y: int, a: nat): (h: nat)
    ensures h <= a
  {
    if a == 0 then 0 else Hamming(x, y, a - 1) + (if Bit(x, a - 1) != Bit(y, a - 1) then 1 else 0)
  }

  /** `x xor 2 ** b`: `x` with bit `b` flipped. */
  function Flip(x: int, b: nat): int
  {
    if Bit(x, b) == 0 then x + Pow2(b) else x - Pow2(b)
  }

  /** Shifting once more halves the shifted value. */
  lemma {:induction false} ShiftStep(x: int, j: nat)
    ensures Shift(x, j + 1) == Shift(x, j) / 2
    decreases j
  {
    if j > 0 {
      ShiftStep(x / 2, j - 1);
    }
  }

  /** Bit `j + 1` of `x` is bit `j` of `x // 2`. */
  lemma BitHalf(x: int, j: nat)
    ensures Bit(x, j + 1) == Bit(x / 2, j)
  {
  }

  /** Every integer has Hamming distance 0 from itself. */
  lemma {:induction false} HammingSelf(x: int, a: nat)
    ensures Hamming(x, x, a) == 0
  {
    if a > 0 {
      HammingSelf(x, a - 1);
    }
  }

  /** The Hamming distance is symmetric. */
  lemma {:induction false} HammingSymmetric(x: int, y: int, a: nat)
    ensures Hamming(x, y, a) == Hamming(y, x, a)
  {
    if a > 0 {
      HammingSymmetric(x, y, a - 1);
    }
  }

  /** Distance 0 means the low `a` bits agree, and conversely. */
  lemma {:induction false} HammingZero(x: int, y: int, a: nat)
    ensures Hamming(x, y, a) == 0 <==> forall j :: 0 <= j < a ==> Bit(x, j) == Bit(y, j)
  {
    if a > 0 {
      HammingZero(x, y, a - 1);
    }
  }

  /** Distance 1 names the one position below `a` where the bits differ. */
  lemma {:induction false} HammingOne(x: int, y: int, a: nat) returns (b: nat)
    requires Hamming(x, y, a) == 1
    ensures b < a && Bit(x, b) != Bit(y, b)
    ensures forall j :: 0 <= j < a && j != b ==> Bit(x, j) == Bit(y, j)
  {
    if Bit(x, a - 1) != Bit(y, a - 1) {
      HammingZero(x, y, a - 1);
      b := a - 1;
    } else {
      b := HammingOne(x, y, a - 1);
    }
  }

  /** The low bit and the rest of a flip: flipping bit 0 changes only the low
      bit, and flipping a higher bit keeps the low bit and flips one bit of
      `x // 2`. */
  lemma FlipLow(x: int, b: nat)
    ensures b == 0 ==> Flip(x, b) / 2 == x / 2 && Flip(x, b) % 2 == 1 - x % 2
    ensures b > 0 ==> Flip(x, b) / 2 == Flip(x / 2, b - 1) && Flip(x, b) % 2 == x % 2
  {
    if b > 0 {
      BitHalf(x, b - 1);
      assert x == 2 * (x / 2) + x % 2;
      assert Flip(x, b) == 2 * Flip(x / 2, b - 1) + x % 2;
    }
  }

  /** `Flip(x, b)` differs from `x` in bit `b` and in no other bit. */
  lemma {:induction false} FlipBit(x: int, b: nat, j: nat)
    ensures Bit(Flip(x, b), j) == if j == b then 1 - Bit(x, j) else Bit(x, j)
    decreases j
  {
    FlipLow(x, b);
    if j > 0 {
      BitHalf(Flip(x, b), j - 1);
      BitHalf(x, j - 1);
      if b > 0 {
        FlipBit(x / 2, b - 1, j - 1);
      }
    }
  }

  /** Flipping one bit below `a` moves to distance 1; flipping a bit at or
      above `a` leaves the low `a` bits alone. */
  lemma {:induction false} HammingFlip(x: int, b: nat, a: nat)
    ensures Hamming(x, Flip(x, b), a) == if b < a then 1 else 0
  {
    if a > 0 {
      HammingFlip(x, b, a - 1);
      FlipBit(x, b, a - 1);
    }
  }

  /** Flipping different bits gives different numbers. */
  lemma FlipInjective(x: int, b: nat, c: nat)
    requires Flip(x, b) == Flip(x, c)
    ensures b == c
  {
    FlipBit(x, b, b);
    FlipBit(x, c, b);
  }

  /** A number in `0 .. 2**a - 1` keeps that range when one of its low `a`
      bits is flipped. */
  lemma {:induction false} FlipRange(x: int, b: nat, a: nat)
    requires 0 <= x < Pow2(a) && b < a
    ensures 0 <= Flip(x, b) < Pow2(a)
  {
    FlipLow(x, b);
    var f := Flip(x, b);
    assert f == 2 * (f / 2) + f % 2;
    if b > 0 {
      FlipRange(x / 2, b - 1, a - 1);
    } else {
      assert x / 2 < Pow2(a - 1);
    }
  }

  /** Numbers in `0 .. 2**a - 1` are determined by their low `a` bits. */
  lemma {:induction false} BitsDetermine(x: int, y: int, a: nat)
    requires 0 <= x < Pow2(a) && 0 <= y < Pow2(a)
    requires forall j :: 0 <= j < a ==> Bit(x, j) == Bit(y, j)
    ensures x == y
  {
    if a > 0 {
      assert x % 2 == Bit(x, 0) == Bit(y, 0) == y % 2;
      forall j | 0 <= j < a - 1
        ensures Bit(x / 2, j) == Bit(y / 2, j)
      {
        BitHalf(x, j);
        BitHalf(y, j);
      }
      BitsDetermine(x / 2, y / 2, a - 1);
    }
  }

  /** Below `2**a`, the numbers at distance 1 from `x` are exactly the flips
      of its low `a` bits. */
  lemma NeighbourIsFlip(x: int, y: int, a: nat)
    requires 0 <= x < Pow2(a) && 0 <= y < Pow2(a)
    ensures Hamming(x, y, a) == 1 <==> exists b :: 0 <= b < a && y == Flip(x, b)
  {
    if Hamming(x, y, a) == 1 {
      var b := HammingOne(x, y, a);
      forall j | 0 <= j < a
        ensures Bit(Flip(x, b), j) == Bit(y, j)
      {
        FlipBit(x, b, j);
      }
      FlipRange(x, b, a);
      BitsDetermine(Flip(x, b), y, a);
    }
    if exists b :: 0 <= b < a && y == Flip(x, b) {
      var b :| 0 <= b < a && y == Flip(x, b);
      HammingFlip(x, b, a);
    }
  }

  /** The numbers below `2**a` at distance 1 from `x`. */
  function Neighbours(x: int, a: nat): set<int>
  {
    set y | 0 <= y < Pow2(a) && Hamming(x, y, a) == 1
  }

  /** The flips of bits `0 .. c-1` of `x`. */
  function Flips(x: int, c: nat): set<int>
  {
    if c == 0 then {} else Flips(x, c - 1) + {Flip(x, c - 1)}
  }

  lemma {:induction false} FlipsMember(x: int, c: nat, y: int)
    ensures y in Flips(x, c) <==> exists b :: 0 <= b < c && y == Flip(x, b)
  {
    if c > 0 {
      FlipsMember(x, c - 1, y);
    }
  }

  /** A flip of bit `d` is not among the flips of the bits below `c <= d`. */
  lemma {:induction false} FlipsAvoid(x: int, c: nat, d: nat)
    requires c <= d
    ensures Flip(x, d) !in Flips(x, c)
  {
    if c > 0 {
      FlipsAvoid(x, c - 1, d);
      if Flip(x, d) == Flip(x, c - 1) {
        FlipInjective(x, d, c - 1);
      }
    }
  }

  /** `c` different bits give `c` different flips. */
  lemma {:induction false} FlipsCount(x: int, c: nat)
    ensures |Flips(x, c)| == c
  {
    if c > 0 {
      FlipsCount(x, c - 1);
      FlipsAvoid(x, c - 1, c - 1);
    }
  }

  /** In the `a`-dimensional cube on `0 .. 2**a - 1`, every vertex has exactly
      `a` neighbours at distance 1. */
  lemma Degree(x: int, a: nat)
    requires 0 <= x < Pow2(a)
    ensures Neighbours(x, a) == Flips(x, a)
    ensures |Neighbours(x, a)| == a
  {
    forall y | y in Flips(x, a)
      ensures y in Neighbours(x, a)
    {
      FlipsMember(x, a, y);
      var b :| 0 <= b < a && y == Flip(x, b);
      FlipRange(x, b, a);
      NeighbourIsFlip(x, y, a);
    }
    forall y | y in Neighbours(x, a)
      ensures y in Flips(x, a)
    {
      NeighbourIsFlip(x, y, a);
      FlipsMember(x, a, y);
    }
    FlipsCount(x, a);
  }

  /** `2 ** a` is odd only for `a == 0`, and halving it gives `2 ** (a - 1)`. */
  lemma Pow2Half(a: nat)
    ensures Pow2(a) % 2 == 1 <==> a == 0
    ensures 1 <= a ==> Pow2(a) / 2 == Pow2(a - 1)
  {
  }

  // ---------------------------------------------------------------------------
  // Counting links: every vertex `x` has one neighbour above it per zero bit

  /** The number of zero bits of `x` below position `c`. */
  function Zeros(x: int, c: nat): (z: nat)
    ensures z <= c
  {
    if c == 0 then 0 else Zeros(x, c - 1) + (if Bit(x, c - 1) == 0 then 1 else 0)
  }

  /** The flips of the zero bits of `x` below `c`: its neighbours above it. */
  function UpFlips(x: int, c: nat): set<int>
  {
    if c == 0 then {}
    else if Bit(x, c - 1) == 0 then UpFlips(x, c - 1) + {Flip(x, c - 1)}
    else UpFlips(x, c - 1)
  }

  lemma {:induction false} UpFlipsMember(x: int, c: nat, y: int)
    ensures y in UpFlips(x, c) <==> exists b :: 0 <= b < c && Bit(x, b) == 0 && y == Flip(x, b)
  {
    if c > 0 {
      UpFlipsMember(x, c - 1, y);
    }
  }

  lemma {:induction false} UpFlipsAvoid(x: int, c: nat, d: nat)
    requires c <= d
    ensures Flip(x, d) !in UpFlips(x, c)
  {
    if c > 0 {
      UpFlipsAvoid(x, c - 1, d);
      if Flip(x, d) == Flip(x, c - 1) {
        FlipInjective(x, d, c - 1);
      }
    }
  }

  lemma {:induction false} UpFlipsCount(x: int, c: nat)
    ensures |UpFlips(x, c)| == Zeros(x, c)
  {
    if c > 0 {
      UpFlipsCount(x, c - 1);
      if Bit(x, c - 1) == 0 {
        UpFlipsAvoid(x, c - 1, c - 1);
      }
    }
  }

  /** The neighbours of `x` above `x`, below `2 ** a`. */
  function UpNeighbours(x: int, a: nat, last: int): set<int>
  {
    set y | x < y < last && Hamming(x, y, a) == 1
  }

  /** The neighbours of `x` above it are the flips of its zero bits, so there
      are as many of them as `x` has zero bits below `a`. */
  lemma UpNeighboursCount(x: int, a: nat)
    requires 0 <= x < Pow2(a)
    ensures UpNeighbours(x, a, Pow2(a)) == UpFlips(x, a)
    ensures |UpNeighbours(x, a, Pow2(a))| == Zeros(x, a)
  {
    forall y | y in UpFlips(x, a)
      ensures y in UpNeighbours(x, a, Pow2(a))
    {
      UpFlipsMember(x, a, y);
      var b :| 0 <= b < a && Bit(x, b) == 0 && y == Flip(x, b);
      FlipRange(x, b, a);
      NeighbourIsFlip(x, y, a);
    }
    forall y | y in UpNeighbours(x, a, Pow2(a))
      ensures y in UpFlips(x, a)
    {
      NeighbourIsFlip(x, y, a);
      UpFlipsMember(x, a, y);
    }
    UpFlipsCount(x, a);
  }

  /** `Zeros(lo, a) + ... + Zeros(lo + count - 1, a)`. */
  function ZeroSum(a: nat, lo: int, count: nat): nat
  {
    if count == 0 then 0 else ZeroSum(a, lo, count - 1) + Zeros(lo + count - 1, a)
  }

  lemma {:induction false} ZeroSumSplit(a: nat, lo: int, p: nat, q: nat)
    ensures ZeroSum(a, lo, p + q) == ZeroSum(a, lo, p) + ZeroSum(a, lo + p, q)
  {
    if q > 0 {
      ZeroSumSplit(a, lo, p, q - 1);
    }
  }

  /** The numbers below `2 ** a` have bit `a` clear; adding `2 ** a` sets
      bit `a` and keeps the lower bits. */
  lemma {:induction false} HighBit(x: int, a: nat, j: nat)
    requires 0 <= x < Pow2(a) && j <= a
    ensures Bit(x, a) == 0 && Bit(Pow2(a) + x, a) == 1
    ensures j < a ==> Bit(Pow2(a) + x, j) == Bit(x, j)
    decreases a
  {
    if a > 0 {
      var y := Pow2(a) + x;
      assert y / 2 == Pow2(a - 1) + x / 2 && y % 2 == x % 2;
      BitHalf(x, a - 1);
      BitHalf(y, a - 1);
      if j > 0 {
        HighBit(x / 2, a - 1, j - 1);
        BitHalf(x, j - 1);
        BitHalf(y, j - 1);
      } else {
        HighBit(x / 2, a - 1, 0);
      }
    }
  }

  /** Adding `2 ** a` does not change the zero bits below `a`. */
  lemma {:induction false} ZerosHigh(x: int, a: nat, c: nat)
    requires 0 <= x < Pow2(a) && c <= a
    ensures Zeros(Pow2(a) + x, c) == Zeros(x, c)
  {
    if c > 0 {
      ZerosHigh(x, a, c - 1);
      HighBit(x, a, c - 1);
    }
  }

  /** Over `lo .. lo + count - 1` inside `0 .. 2**a - 1`, one more position
      counts one more zero per number. */
  lemma {:induction false} ZeroSumLow(a: nat, lo: nat, count: nat)
    requires lo + count <= Pow2(a)
    ensures ZeroSum(a + 1, lo, count) == ZeroSum(a, lo, count) + count
  {
    if count > 0 {
      ZeroSumLow(a, lo, count - 1);
      HighBit(lo + count - 1, a, a);
    }
  }

  /** Over the upper half `2**a .. 2**(a+1) - 1`, the zeros are those of the
      lower half. */
  lemma {:induction false} ZeroSumHigh(a: nat, count: nat)
    requires count <= Pow2(a)
    ensures ZeroSum(a + 1, Pow2(a), count) == ZeroSum(a, 0, count)
  {
    if count > 0 {
      ZeroSumHigh(a, count - 1);
      HighBit(count - 1, a, a);
      ZerosHigh(count - 1, a, a);
    }
  }

  /** The numbers `0 .. 2**a - 1` have `a * 2 ** (a - 1)` zero bits below `a`
      in total: half of them have any given bit clear. */
  lemma {:induction false} ZeroTotal(a: nat)
    ensures 2 * ZeroSum(a, 0, Pow2(a)) == a * Pow2(a)
  {
    if a > 0 {
      ZeroTotal(a - 1);
      ZeroHalves(a - 1);
      DoubleStep(a, Pow2(a), Pow2(a - 1), ZeroSum(a - 1, 0, Pow2(a - 1)), ZeroSum(a, 0, Pow2(a)));
    }
  }

  /** The lower half of `0 .. 2**(b+1) - 1` has bit `b` clear and the upper
      half has it set; below it, both halves have the zeros of
      `0 .. 2**b - 1`. */
  lemma ZeroHalves(b: nat)
    ensures ZeroSum(b + 1, 0, Pow2(b + 1)) == 2 * ZeroSum(b, 0, Pow2(b)) + Pow2(b)
  {
    var h := Pow2(b);
    var z := ZeroSum(b, 0, h);
    ZeroSumSplit(b + 1, 0, h, h);
    ZeroSumLow(b, 0, h);
    ZeroSumHigh(b, h);
    assert ZeroSum(b + 1, 0, h + h) == (z + h) + z;
  }

  /** The arithmetic of one doubling: `2 s == a p` from `p == 2 h`,
      `2 z == (a - 1) h` and `s == 2 z + h`. */
  lemma DoubleStep(a: nat, p: nat, h: nat, z: nat, s: nat)
    requires 1 <= a && p == 2 * h && 2 * z == (a - 1) * h && s == 2 * z + h
    ensures 2 * s == a * p
  {
    assert a * p == 2 * ((a - 1) * h) + 2 * h;
  }

  /** `2 ** a - 1` has no zero bit below `a`. */
  lemma {:induction false} AllOnes(a: nat, c: nat)
    requires c <= a
    ensures Zeros(Pow2(a) - 1, c) == 0
  {
    if c > 0 {
      AllOnes(a, c - 1);
      AllOnesBit(a, c - 1);
    }
  }

  lemma {:induction false} AllOnesBit(a: nat, j: nat)
    requires j < a
    ensures Bit(Pow2(a) - 1, j) == 1
  {
    var x := Pow2(a) - 1;
    assert x / 2 == Pow2(a - 1) - 1 && x % 2 == 1;
    if j > 0 {
      BitHalf(x, j - 1);
      AllOnesBit(a - 1, j - 1);
    }
  }
}

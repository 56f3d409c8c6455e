/** The C++ `int` operations the loader's bit-twiddling relies on: 32-bit
    two's-complement wrap-around, bitwise OR and arithmetic right shift, all
    stated on mathematical integers. */
module CInt {
  import opened Arith

  const IntMin: int := -0x8000_0000
  const IntMax: int := 0x7FFF_FFFF

  predicate IsInt32(x: int) { IntMin <= x <= IntMax }

  /** The value a 32-bit two's-complement register holds after computing x. */
  function Wrap32(x: int): (r: int)
    ensures IsInt32(r)
    ensures IsInt32(x) ==> r == x
  {
    if IsInt32(x) then x else (x - IntMin) % 0x1_0000_0000 + IntMin
  }

  function Abs(x: int): nat { if x < 0 then -x else x }

  /** Bitwise OR of two's-complement integers (sign bits extend forever). */
  function Or(a: int, b: int): int
    decreases Abs(a) + Abs(b)
  {
    if (a == 0 || a == -1) && (b == 0 || b == -1) then
      (if a == -1 || b == -1 then -1 else 0)
    else
      2 * Or(a / 2, b / 2) + (if a % 2 == 1 || b % 2 == 1 then 1 else 0)
  }

  /** `a >> s` on a signed int: an arithmetic shift, i.e. floor division. */
  function ShiftRight(a: int, s: nat): int
  {
    a / Pow2(s)
  }

  lemma {:induction false} OrZero(a: nat)
    ensures Or(a, 0) == a
  {
    if a != 0 {
      OrZero(a / 2);
    }
  }

  lemma {:induction false} OrNonnegative(a: int, b: int)
    requires a >= 0 && b >= 0
    ensures Or(a, b) >= 0
  {
    if !(a == 0 && b == 0) {
      OrNonnegative(a / 2, b / 2);
    }
  }

  /** OR of two negative values is negative and at least either operand:
      it only sets bits below the shared sign bits. */
  lemma {:induction false} OrNegative(a: int, b: int)
    requires a < 0 && b < 0
    ensures a <= Or(a, b) < 0 && b <= Or(a, b)
    decreases Abs(a) + Abs(b)
  {
    if !(a == -1 && b == -1) {
      OrNegative(a / 2, b / 2);
    }
  }

  lemma {:induction false} OrBounds(a: int, b: int, k: nat)
    requires 0 <= a < Pow2(k) && 0 <= b < Pow2(k)
    ensures 0 <= Or(a, b) < Pow2(k)
  {
    if !(a == 0 && b == 0) {
      OrBounds(a / 2, b / 2, k - 1);
    }
  }

  /** Halving an OR halves both operands. */
  lemma OrHalf(a: int, b: int)
    ensures Or(a, b) / 2 == Or(a / 2, b / 2)
  {
    if !((a == 0 || a == -1) && (b == 0 || b == -1)) {
      var bit := if a % 2 == 1 || b % 2 == 1 then 1 else 0;
      DivUnique(Or(a, b), 2, Or(a / 2, b / 2), bit);
    }
  }

  /** One more halving: from a shift by p to a shift by P = 2p. */
  lemma OrShiftStep(a: int, b: int, p: int, P: int)
    requires p >= 1 && P == p * 2 && Or(a, b) / p == Or(a / p, b / p)
    ensures Or(a, b) / P == Or(a / P, b / P)
  {
    DivDiv(Or(a, b), p, 2);
    DivDiv(a, p, 2);
    DivDiv(b, p, 2);
    OrHalf(a / p, b / p);
  }

  /** Shifting an OR right shifts both operands. */
  lemma {:induction false} OrShift(a: int, b: int, j: nat)
    ensures Or(a, b) / Pow2(j) == Or(a / Pow2(j), b / Pow2(j))
  {
    if j > 0 {
      OrShift(a, b, j - 1);
      OrShiftStep(a, b, Pow2(j - 1), Pow2(j));
    }
  }

  /** OR with an odd mask p - 1 = 2h - 1 sets the low bit and ORs the rest
      with h - 1. */
  lemma OrLowBit(a: nat, h: nat, p: nat)
    requires h >= 1 && p == 2 * h
    ensures Or(a, p - 1) == 2 * Or(a / 2, h - 1) + 1
  {
    DivUnique(2 * h - 1, 2, h - 1, 1);
  }

  /** From a mask of h low ones on a / 2 to a mask of p = 2h low ones on a. */
  lemma LowMaskStep(a: nat, h: nat, p: nat)
    requires h >= 1 && p == 2 * h
    requires Or(a / 2, h - 1) == ((a / 2) / h) * h + h - 1
    ensures Or(a, p - 1) == (a / p) * p + p - 1
  {
    OrLowBit(a, h, p);
    DivDiv(a, 2, h);
    MulDouble(a / p, h, p);
  }

  /** OR with a mask of m low one-bits sets exactly those bits. */
  lemma {:induction false} OrLowMask(a: nat, m: nat)
    ensures Or(a, Pow2(m) - 1) == (a / Pow2(m)) * Pow2(m) + Pow2(m) - 1
  {
    if m == 0 {
      assert Pow2(m) == 1;
      OrZero(a);
      DivUnique(a, 1, a, 0);
    } else {
      OrLowMask(a / 2, m - 1);
      LowMaskStep(a, Pow2(m - 1), Pow2(m));
    }
  }

  /** Shifting m one-bits right by e leaves m - e one-bits. */
  lemma OnesShift(m: nat, e: nat)
    requires e <= m
    ensures (Pow2(m) - 1) / Pow2(e) == Pow2(m - e) - 1
  {
    Pow2Add(m - e, e);
    assert Pow2(m) - 1 == (Pow2(m - e) - 1) * Pow2(e) + (Pow2(e) - 1);
    DivUnique(Pow2(m) - 1, Pow2(e), Pow2(m - e) - 1, Pow2(e) - 1);
  }
}

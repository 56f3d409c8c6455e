/** The loader's `nextPowerOfTwo` (src/core/volume_data.cpp), a branch-free
    bit-smearing routine on a signed 32-bit `int`, and what it computes. */
module PowerOfTwo {
  import opened Arith
  import opened CInt

  /** `v |= v >> 1; v |= v >> 2; ... v |= v >> 16;` copies the highest set bit
      of v into every lower position: step i shifts by 2^i, for i = 0 .. 4. */
  function SmearSteps(v: int, i: nat): int
    requires i <= 5
    decreases 5 - i
  {
    if i == 5 then v else SmearSteps(Or(v, ShiftRight(v, Pow2(i))), i + 1)
  }

  function Smear(v: int): int
  {
    SmearSteps(v, 0)
  }

  /** Number of binary digits of v. */
  function BitLength(v: nat): nat
  {
    if v == 0 then 0 else 1 + BitLength(v / 2)
  }

  lemma {:induction false} BitLengthBounds(v: nat)
    requires v >= 1
    ensures Pow2(BitLength(v) - 1) <= v < Pow2(BitLength(v))
  {
    if v >= 2 {
      BitLengthBounds(v / 2);
    }
  }

  /** v has m leading one-bits followed by d further bits. */
  ghost predicate LeadingOnes(v: int, m: nat, d: nat)
  {
    v >= 0 && v / Pow2(d) == Pow2(m) - 1
  }

  /** Shifting away e >= d bits of a value with m leading ones over d bits
      leaves r = m + d - e ones. */
  lemma ShiftLeadingOnes(v: int, m: nat, d: nat, e: nat, r: nat)
    requires LeadingOnes(v, m, d) && d <= e <= m + d && r == m + d - e
    ensures v / Pow2(e) == Pow2(r) - 1
  {
    DivPow2Pow2(v, d, e - d);
    OnesShift(m, e - d);
    assert d + (e - d) == e && m - (e - d) == r;
  }

  /** The arithmetic closing `SmearStepFills`: q = T - 1 ones above P - 1
      ones make T * P - 1. */
  lemma FillArith(q: int, P: int, T: int, N: int)
    requires q == T - 1 && N == T * P
    ensures q * P + P - 1 == N - 1
  {
    MulSubOne(T, P);
  }

  /** When the shift reaches past all the free bits, one smearing step fills them. */
  lemma SmearStepFills(v: int, m: nat, d: nat, t: nat)
    requires LeadingOnes(v, m, d) && d <= t <= m
    ensures Or(v, v / Pow2(t)) == Pow2(m + d) - 1
  {
    var e := m + d - t;
    ShiftLeadingOnes(v, m, d, t, e);
    OrLowMask(v, e);
    ShiftLeadingOnes(v, m, d, e, t);
    Pow2Add(t, e);
    assert t + e == m + d;
    FillArith(v / Pow2(e), Pow2(e), Pow2(t), Pow2(m + d));
  }

  /** Once every bit below the leading ones is set, smearing changes nothing. */
  lemma SmearStepSaturated(v: int, m: nat, t: nat)
    requires LeadingOnes(v, m, 0)
    ensures Or(v, v / Pow2(t)) == v
  {
    assert v == Pow2(m) - 1;
    if t <= m {
      SaturatedWithin(v, m, t);
    } else {
      SaturatedPast(v, m, t);
    }
  }

  /** m one-bits ORed with themselves shifted by at most m stay m one-bits. */
  lemma SaturatedWithin(v: int, m: nat, t: nat)
    requires v == Pow2(m) - 1 && t <= m
    ensures Or(v, v / Pow2(t)) == v
  {
    assert LeadingOnes(v, m, 0);
    SmearStepFills(v, m, 0, t);
  }

  /** m one-bits shifted by more than m are gone, so the OR keeps v. */
  lemma SaturatedPast(v: int, m: nat, t: nat)
    requires v == Pow2(m) - 1 && m < t
    ensures Or(v, v / Pow2(t)) == v
  {
    Pow2Monotone(m, t);
    DivUnique(v, Pow2(t), 0, v);
    OrZero(v);
  }

  /** With free bits left, a step by t <= m turns min(t, n - m) of them into
      ones. */
  lemma SmearStepGrowing(v: int, m: nat, n: nat, t: nat, k: nat)
    requires m <= n && LeadingOnes(v, m, n - m) && 1 <= t <= m
    requires k == (if t < n - m then t else n - m)
    ensures LeadingOnes(Or(v, v / Pow2(t)), m + k, n - (m + k))
  {
    var w := v / Pow2(t);
    var s := n - (m + k);
    var V := v / Pow2(s);
    DivNonnegative(v, Pow2(s));
    DivNonnegative(v, Pow2(t));
    assert LeadingOnes(V, m, k) by {
      DivPow2Pow2(v, s, k);
      assert s + k == n - m;
    }
    assert Or(V, V / Pow2(t)) == Pow2(m + k) - 1 by {
      SmearStepFills(V, m, k, t);
    }
    assert w / Pow2(s) == V / Pow2(t) by {
      DivPow2Pow2(v, t, s);
      DivPow2Pow2(v, s, t);
      assert t + s == s + t;
    }
    assert Or(v, w) / Pow2(s) == Or(V, w / Pow2(s)) by {
      OrShift(v, w, s);
    }
    OrNonnegative(v, w);
  }

  /** Step i, a shift by 2^i no wider than the m leading ones, leaves m' >= m
      leading ones of the same n bits, and enough of them for step i + 1. */
  lemma SmearStepNext(v: int, m: nat, n: nat, i: nat) returns (m': nat)
    requires m <= n <= 31 && LeadingOnes(v, m, n - m) && i < 5
    requires m == n || Pow2(i) <= m
    ensures m' <= n && LeadingOnes(Or(v, ShiftRight(v, Pow2(i))), m', n - m')
    ensures m' == n || Pow2(i + 1) <= m'
  {
    var t := Pow2(i);
    assert Pow2(i + 1) == 2 * t;
    if m == n {
      SmearStepSaturated(v, m, t);
      m' := m;
    } else {
      var k := if t < n - m then t else n - m;
      SmearStepGrowing(v, m, n, t, k);
      m' := m + k;
    }
  }

  /** The remaining steps complete the all-ones value of n bits, as long as
      each shift is no wider than the m leading ones already present. */
  lemma {:induction false} SmearStepsOnes(v: int, m: nat, n: nat, i: nat)
    requires m <= n <= 31 && LeadingOnes(v, m, n - m) && i <= 5
    requires m == n || Pow2(i) <= m
    ensures SmearSteps(v, i) == Pow2(n) - 1
    decreases 5 - i
  {
    if i == 5 {
      assert m == n;
      assert v / Pow2(0) == v;
    } else {
      var m' := SmearStepNext(v, m, n, i);
      SmearStepsOnes(Or(v, ShiftRight(v, Pow2(i))), m', n, i + 1);
    }
  }

  lemma {:induction false} BitLengthAtMost(v: nat, k: nat)
    requires v < Pow2(k)
    ensures BitLength(v) <= k
  {
    if v >= 1 {
      assert k >= 1;
      BitLengthAtMost(v / 2, k - 1);
    }
  }

  /** A positive v is a single leading one followed by BitLength(v) - 1 bits. */
  lemma TopBit(v: nat)
    requires v >= 1
    ensures LeadingOnes(v, 1, BitLength(v) - 1)
  {
    var L := BitLength(v);
    BitLengthBounds(v);
    assert Pow2(L) == 2 * Pow2(L - 1);
    DivUnique(v, Pow2(L - 1), 1, v - Pow2(L - 1));
  }

  lemma SmearZero()
    ensures Smear(0) == 0
  {
    assert LeadingOnes(0, 0, 0);
    SmearStepsOnes(0, 0, 0, 0);
  }

  lemma SmearPositive(v: nat, k: nat)
    requires 1 <= v < Pow2(k) && k <= 31
    ensures Smear(v) == Pow2(BitLength(v)) - 1
  {
    BitLengthAtMost(v, k);
    TopBit(v);
    assert Pow2(0) == 1;
    SmearStepsOnes(v, 1, BitLength(v), 0);
  }

  /** For 0 <= v < 2^k, k <= 31, the smear is the all-ones value of v's bit
      length. */
  lemma SmearAllOnes(v: nat, k: nat)
    requires v < Pow2(k) && k <= 31
    ensures Smear(v) == Pow2(BitLength(v)) - 1
  {
    if v == 0 {
      SmearZero();
    } else {
      SmearPositive(v, k);
    }
  }

  lemma Pow2Values()
    ensures Pow2(30) == 0x4000_0000 && Pow2(31) == 0x8000_0000
  {
    assert Pow2(10) == 1024;
    Pow2Add(10, 10);
    Pow2Add(20, 10);
    Pow2Add(30, 1);
  }

  /** A negative value with at least its top bits set (v >= -2^(n+t))
      keeps them after an arithmetic shift by t: -2^n <= v >> t < 0. */
  lemma ShiftNegative(v: int, n: nat, t: nat)
    requires v < 0 && 0 <= v + Pow2(n + t)
    ensures ShiftRight(v, t) < 0 && 0 <= ShiftRight(v, t) + Pow2(n)
  {
    var P: int, Q: int := Pow2(n), Pow2(t);
    Pow2Add(n, t);
    FloorBelow(v, Q, -P);
  }

  /** Floor division by d > 0 keeps a value below 0 and at or above a
      multiple m * d of d: m <= x / d < 0. */
  lemma FloorBelow(x: int, d: int, m: int)
    requires d > 0 && m <= 0 && m * d <= x < 0
    ensures m <= x / d < 0
  {
    var q, r := x / d, x % d;
    assert x == q * d + r && 0 <= r < d;
    if q >= 0 {
      MulLe(0, q, d);
    }
    if q < m {
      MulLe(q + 1, m, d);
      MulSubOne(q + 1, d);
    }
  }

  /** A negative v >= -2^n has at least 32 - n leading ones among 32 bits;
      with 32 - n == 2^i, the remaining steps, from step i on, set all the
      others. */
  lemma {:induction false} SmearStepsNegative(v: int, i: nat, n: nat)
    requires i <= 5 && n + Pow2(i) == 32 && v < 0 && 0 <= v + Pow2(n)
    ensures SmearSteps(v, i) == -1
    decreases 5 - i
  {
    Pow2Small();
    if i < 5 {
      var t := Pow2(i);
      var w := ShiftRight(v, t);
      ShiftNegative(v, n - t, t);
      OrNegative(v, w);
      SmearStepsNegative(Or(v, w), i + 1, n - t);
    }
  }

  /** The shift amounts of the five smearing steps. */
  lemma Pow2Small()
    ensures Pow2(0) == 1 && Pow2(1) == 2 && Pow2(2) == 4 && Pow2(3) == 8
    ensures Pow2(4) == 16 && Pow2(5) == 32
  {
  }

  /** For 1 <= v < 2^31, v - 1 smears to one less than 2^BitLength(v - 1). */
  lemma SmearBelow(v: int)
    requires 1 <= v <= IntMax
    ensures Smear(v - 1) + 1 == Pow2(BitLength(v - 1))
  {
    Pow2Values();
    SmearAllOnes(v - 1, 31);
  }

  /** 2^BitLength(w) is the power of two in [w + 1, 2w + 2). */
  lemma BitLengthRoundsUp(w: nat)
    ensures w < Pow2(BitLength(w)) <= 2 * w + 1
  {
    if w >= 1 {
      BitLengthBounds(w);
      var L := BitLength(w);
      assert Pow2(L) == 2 * Pow2(L - 1);
    }
  }

  /** The least power of two that is at least v. */
  function NextPower(v: int): nat
    requires v >= 1
  {
    Pow2(BitLength(v - 1))
  }

  /** NextPower(v) is a power of two in [v, 2v). */
  lemma NextPowerIsLeast(v: int)
    requires v >= 1
    ensures v <= NextPower(v) < 2 * v
  {
    BitLengthRoundsUp(v - 1);
  }

  /** The only power of two in [v, 2v) is no larger than any other power of
      two that is at least v. */
  lemma {:induction false} LeastPowerOfTwo(v: int, i: nat, j: nat)
    requires v <= Pow2(i) < 2 * v && v <= Pow2(j)
    ensures Pow2(i) <= Pow2(j)
  {
    if j < i {
      assert Pow2(i) == 2 * Pow2(i - 1);
      Pow2Monotone(j, i - 1);
    } else if i < j {
      Pow2Monotone(i, j);
    }
  }

  /** Every power of two that is at least v is at least NextPower(v). */
  lemma NextPowerIsMinimal(v: int, j: nat)
    requires v >= 1 && v <= Pow2(j)
    ensures NextPower(v) <= Pow2(j)
  {
    NextPowerIsLeast(v);
    LeastPowerOfTwo(v, BitLength(v - 1), j);
  }

  lemma NextPowerFits(v: int)
    requires 1 <= v <= 0x4000_0000
    ensures NextPower(v) <= 0x4000_0000
  {
    Pow2Values();
    NextPowerIsMinimal(v, 30);
  }

  lemma {:induction false} BitLengthOfOnes(k: nat)
    ensures BitLength(Pow2(k) - 1) == k
  {
    if k > 0 {
      assert (Pow2(k) - 1) / 2 == Pow2(k - 1) - 1 by {
        DivUnique(Pow2(k) - 1, 2, Pow2(k - 1) - 1, 1);
      }
      BitLengthOfOnes(k - 1);
    }
  }

  /** A power of two is its own next power of two. */
  lemma NextPowerFixesPowers(k: nat)
    ensures NextPower(Pow2(k)) == Pow2(k)
  {
    BitLengthOfOnes(k);
  }

  /** Rounding up twice is rounding up once. */
  lemma NextPowerIdempotent(v: int)
    requires v >= 1
    ensures NextPower(v) >= 1 && NextPower(NextPower(v)) == NextPower(v)
  {
    NextPowerFixesPowers(BitLength(v - 1));
  }

  lemma BitLengthThirtyOne(w: nat)
    requires 0x4000_0000 <= w < 0x8000_0000
    ensures BitLength(w) == 31
  {
    Pow2Values();
    var L := BitLength(w);
    BitLengthAtMost(w, 31);
    BitLengthBounds(w);
    if L < 31 {
      Pow2Monotone(L, 30);
    }
  }

  /** The five `v |= v >> k` steps of `nextPowerOfTwo`, k = 1, 2, 4, 8, 16.
      They copy the highest set bit of v into every lower bit, so a v in
      [0, 2^31) becomes 2^BitLength(v) - 1. The sign bit of a negative v is
      copied the same way, so every negative v becomes -1 (all bits set). */
  method SmearBits(v: int) returns (s: int)
    requires IsInt32(v)
    ensures 0 <= v ==> s == Pow2(BitLength(v)) - 1
    ensures v < 0 ==> s == -1
  {
    s := Or(v, ShiftRight(v, 1));
    assert Smear(v) == SmearSteps(s, 1);
    s := Or(s, ShiftRight(s, 2));
    assert Smear(v) == SmearSteps(s, 2);
    s := Or(s, ShiftRight(s, 4));
    assert Smear(v) == SmearSteps(s, 3);
    s := Or(s, ShiftRight(s, 8));
    assert Smear(v) == SmearSteps(s, 4);
    s := Or(s, ShiftRight(s, 16));
    assert Smear(v) == s;
    if 0 <= v {
      Pow2Values();
      SmearAllOnes(v, 31);
    } else {
      Pow2Values();
      Pow2Small();
      SmearStepsNegative(v, 0, 31);
    }
  }

  /** `nextPowerOfTwo(v)`: `v--`, the smearing steps, `v++`, on a 32-bit
      int. From 1 to 2^30 it yields the least power of two at least v; above
      2^30 that power, 2^31, does not fit and wraps to INT_MIN. From INT_MIN + 1
      to 0, v - 1 is negative, smears to -1 and the result is 0; INT_MIN - 1
      wraps to INT_MAX, which smears to itself and wraps back to INT_MIN. */
  method NextPowerOfTwo(v: int) returns (r: int)
    requires IsInt32(v)
    ensures IsInt32(r)
    ensures 1 <= v <= 0x4000_0000 ==> r == NextPower(v)
    ensures 0x4000_0000 < v ==> r == IntMin
    ensures IntMin < v <= 0 ==> r == 0
    ensures v == IntMin ==> r == IntMin
  {
    var w := Wrap32(v - 1);
    w := SmearBits(w);
    r := Wrap32(w + 1);
    if 0x4000_0000 < v {
      BitLengthThirtyOne(v - 1);
      Pow2Values();
    } else if 1 <= v {
      NextPowerFits(v);
    } else if v == IntMin {
      BitLengthThirtyOne(IntMax);
      Pow2Values();
    }
  }
}

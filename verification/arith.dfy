/** Integer facts shared by the models: powers of two, nested division and
    row-major offsets into flattened grids. */
module Arith {

  /** 2^k. */
  function Pow2(k: nat): (r: nat)
    ensures r >= 1
  {
    if k == 0 then 1 else 2 * Pow2(k - 1)
  }

  lemma {:induction false} Pow2Add(a: nat, b: nat)
    ensures Pow2(a + b) == Pow2(a) * Pow2(b)
  {
    if b > 0 {
      Pow2Add(a, b - 1);
      assert Pow2(a + b) == 2 * Pow2(a + b - 1);
    }
  }

  lemma {:induction false} Pow2Monotone(a: nat, b: nat)
    requires a < b
    ensures Pow2(a) < Pow2(b)
  {
    if b - 1 > a {
      Pow2Monotone(a, b - 1);
    }
  }

  lemma MulLe(a: int, b: int, d: int)
    requires a <= b && d >= 0
    ensures a * d <= b * d
  {
    assert b * d - a * d == (b - a) * d;
  }

  lemma DivNonnegative(x: int, p: int)
    requires x >= 0 && p > 0
    ensures 0 <= x / p <= x
  {
    var q, r := x / p, x % p;
    assert x == q * p + r;
    if q < 0 {
      MulLe(q, -1, p);
    } else if q > x {
      assert (x + 1) * p == x * p + p;
      MulLe(1, p, x);
      MulLe(x + 1, q, p);
    }
  }

  lemma ProductNonnegative(a: int, b: int, c: int, d: int)
    requires a >= 0 && b >= 0 && c >= 0 && d >= 0
    ensures a * b * c * d >= 0
  {
    MulLe(0, a, b);
    MulLe(0, a * b, c);
    MulLe(0, a * b * c, d);
  }

  lemma MulComm(a: int, b: int)
    ensures a * b == b * a
  {
  }

  /** A product of three factors taken in reverse order. */
  lemma MulReverse(a: int, b: int, c: int)
    ensures c * b * a == a * b * c
  {
    assert c * b * a == c * (b * a);
  }

  lemma MulDouble(q: int, h: int, p: int)
    requires p == 2 * h
    ensures q * p == 2 * (q * h)
  {
  }

  lemma MulSubOne(a: int, b: int)
    ensures (a - 1) * b == a * b - b
  {
  }

  /** Euclidean division is determined by quotient and remainder. */
  lemma DivUnique(x: int, d: int, q: int, r: int)
    requires d > 0 && 0 <= r < d && x == q * d + r
    ensures x / d == q && x % d == r
  {
    var q', r' := x / d, x % d;
    assert q' * d + r' == q * d + r;
    if q' < q {
      assert (q' + 1) * d == q' * d + d;
      MulLe(q' + 1, q, d);
    } else if q < q' {
      assert (q + 1) * d == q * d + d;
      MulLe(q + 1, q', d);
    }
  }

  /** Euclidean division by a product is division by each factor in turn. */
  lemma DivDiv(x: int, p: int, q: int)
    requires p > 0 && q > 0
    ensures x / (p * q) == (x / p) / q
  {
    var a := x / p;
    var b := a / q;
    var ra := a % q;
    var rx := x % p;
    assert x == a * p + rx;
    assert a == b * q + ra;
    assert a * p == b * (p * q) + ra * p by {
      assert (b * q + ra) * p == b * q * p + ra * p;
    }
    MulLe(ra, q - 1, p);
    assert (q - 1) * p == q * p - p;
    DivUnique(x, p * q, b, ra * p + rx);
  }

  lemma DivPow2Pow2(x: int, a: nat, b: nat)
    ensures x / Pow2(a + b) == (x / Pow2(a)) / Pow2(b)
  {
    Pow2Add(a, b);
    DivDiv(x, Pow2(a), Pow2(b));
  }

  /** Row-major offset of column j in row i of rows n wide. */
  function Flat(i: int, j: int, n: int): int
  {
    i * n + j
  }

  lemma FlatBounds(i: int, j: int, n: int, m: int)
    requires 0 <= i < m && 0 <= j < n
    ensures 0 <= Flat(i, j, n) < m * n
  {
    MulLe(i, m - 1, n);
    assert (m - 1) * n == m * n - n;
  }

  /** An earlier row ends before a later row begins. */
  lemma FlatOrder(i: int, j: int, i': int, j': int, n: int)
    requires 0 <= j < n && 0 <= j' < n && i < i'
    ensures Flat(i, j, n) < Flat(i', j', n) && i * n + n <= i' * n
  {
    MulLe(i + 1, i', n);
    assert (i + 1) * n == i * n + n;
  }

  lemma FlatInjective(i: int, j: int, i': int, j': int, n: int)
    requires 0 <= j < n && 0 <= j' < n
    requires Flat(i, j, n) == Flat(i', j', n)
    ensures i == i' && j == j'
  {
    if i < i' {
      FlatOrder(i, j, i', j', n);
    } else if i' < i {
      FlatOrder(i', j', i, j, n);
    }
  }

  /** Splitting an offset into row and column inverts `Flat`. */
  lemma FlatDecode(i: int, n: int)
    requires n > 0
    ensures Flat(i / n, i % n, n) == i && 0 <= i % n < n
  {
  }

  /** An offset below m rows of n lies in one of those rows. */
  lemma RowBelow(i: int, n: int, m: int)
    requires n > 0 && 0 <= i < m * n
    ensures 0 <= i / n < m
  {
    DivNonnegative(i, n);
    if i / n >= m {
      MulLe(m, i / n, n);
    }
  }
}

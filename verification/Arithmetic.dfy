/** Integer facts shared by the hardware and compiler models. */
module Arithmetic {

  function Max(a: int, b: int): int { if a >= b then a else b }

  function Pow2(n: nat): (r: nat)
    ensures r >= 1
  {
    if n == 0 then 1 else 2 * Pow2(n - 1)
  }

  /** `cmodel.h`'s ceilDiv. */
  function CeilDiv(a: nat, b: nat): (r: nat)
    requires b > 0
  {
    (a + b - 1) / b
  }

  /** Reducing one summand early does not change the residue. */
  lemma ModAddLeft(a: int, b: int, m: int)
    requires m > 0
    ensures (a % m + b) % m == (a + b) % m
  {
    var q, s := a / m, (a % m + b) / m;
    assert a + b == m * (q + s) + (a % m + b) % m by {
      assert a == m * q + a % m;
      assert a % m + b == m * s + (a % m + b) % m;
      assert m * (q + s) == m * q + m * s;
    }
    ModUnique(a + b, q + s, (a % m + b) % m, m);
  }

  lemma ModUnique(a: int, q: int, r: int, m: int)
    requires m > 0 && 0 <= r < m && a == m * q + r
    ensures a / m == q && a % m == r
  {
    var q', r' := a / m, a % m;
    assert m * (q' - q) == r - r' by {
      assert m * (q' - q) == m * q' - m * q;
    }
    if q' > q {
      MulMonotone(m, 1, q' - q);
    } else if q' < q {
      MulMonotone(m, q' - q, -1);
    }
  }

  lemma DivNonNegative(a: nat, m: nat)
    requires m > 0
    ensures a / m >= 0
  {
    if a / m < 0 {
      MulMonotone(m, a / m, -1);
    }
  }

  lemma MulMonotone(m: int, a: int, b: int)
    requires m >= 0 && a <= b
    ensures m * a <= m * b
  {
    assert m * (b - a) == m * b - m * a;
  }

  lemma ModOfMultiple(x: nat, m: nat, n: nat)
    requires m > 0 && n > 0
    ensures m * n > 0 && (x % (m * n)) % m == x % m
  {
    MulMonotone(m, 1, n);
    var q, r := x / (m * n), x % (m * n);
    assert x == m * (n * q + r / m) + r % m by {
      assert x == (m * n) * q + r;
      assert (m * n) * q == m * (n * q);
      assert r == m * (r / m) + r % m;
      assert m * (n * q + r / m) == m * (n * q) + m * (r / m);
    }
    ModUnique(x, n * q + r / m, r % m, m);
  }

  lemma DivModOfMulAdd(r: int, c: int, n: int)
    requires n > 0 && 0 <= c < n
    ensures (r * n + c) / n == r && (r * n + c) % n == c
  {
    ModUnique(r * n + c, r, c, n);
  }

  lemma PositiveFactors(a: nat, b: nat)
    requires a * b > 0
    ensures a > 0 && b > 0
  {
  }

  /** Element (r, c) of a row-major rectangle. */
  lemma RowMajor(r: nat, c: nat, rows: nat, cols: nat)
    requires r < rows && c < cols
    ensures r * cols + c < rows * cols
  {
    MulMonotone(cols, r + 1, rows);
    assert cols * (r + 1) == r * cols + cols;
  }

  /** The row of element `e` of a row-major rectangle. */
  lemma RowOf(e: nat, rows: nat, cols: nat)
    requires cols > 0 && e < rows * cols
    ensures 0 <= e / cols < rows
  {
    DivNonNegative(e, cols);
    if e / cols >= rows {
      MulMonotone(cols, rows, e / cols);
    }
  }

  lemma Pow2Add(a: nat, b: nat)
    ensures Pow2(a + b) == Pow2(a) * Pow2(b)
  {
    if a > 0 {
      Pow2Add(a - 1, b);
    }
  }

  lemma Pow2Monotone(a: nat, b: nat)
    requires a <= b
    ensures Pow2(a) <= Pow2(b)
  {
    if a < b {
      Pow2Monotone(a, b - 1);
    }
  }
}

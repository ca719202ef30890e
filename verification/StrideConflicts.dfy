/** How many cycles a strided access takes when its steps go round the banks at a fixed pitch, as they do
    under the plain mapping: the closed form behind the measurements of `docs/notes/design/rtl-r2.md`. */
module StrideConflicts {
  import opened Arithmetic
  import opened Types
  import opened Crossbar
  import opened CrossbarDrain

  /** Number of steps after which a pitch of `k` words comes back to the same one of 2^bw banks. */
  function Period(bw: nat, k: nat): (r: nat)
    ensures r >= 1
  {
    if bw == 0 then 1
    else if k % 2 == 1 then Pow2(bw)
    else Period(bw - 1, k / 2)
  }

  /* ---- divisibility by powers of two ---- */

  lemma DoubleMod(x: int, m: int)
    requires m > 0
    ensures (2 * x) % (2 * m) == 2 * (x % m)
  {
    ModUnique(2 * x, x / m, 2 * (x % m), 2 * m);
  }

  /** A multiple of an even number by an odd one is even only if the factor is. */
  lemma {:induction false} OddCancels(bw: nat, k: nat, d: nat)
    requires k % 2 == 1
    ensures (d * k) % Pow2(bw) == 0 <==> d % Pow2(bw) == 0
  {
    if bw > 0 {
      var m := Pow2(bw - 1);
      if d % 2 == 0 {
        var e := d / 2;
        OddCancels(bw - 1, k, e);
        EvenMultiple(d, e, k, m);
      } else {
        OddProduct(d, k);
        OddIsNoMultiple(d * k, m);
        OddIsNoMultiple(d, m);
      }
    }
  }

  lemma EvenMultiple(d: nat, e: nat, k: nat, m: nat)
    requires d == 2 * e && m > 0
    ensures (d * k) % (2 * m) == 2 * ((e * k) % m) && d % (2 * m) == 2 * (e % m)
  {
    MulDouble(k, e);
    assert d * k == 2 * (e * k);
    DoubleMod(e * k, m);
    DoubleMod(e, m);
  }

  lemma OddIsNoMultiple(x: nat, m: nat)
    requires x % 2 == 1 && m > 0
    ensures x % (2 * m) != 0
  {
    ModOfMultiple(x, 2, m);
  }

  lemma {:induction false} PeriodDivides(bw: nat, k: nat, d: nat)
    ensures (d * k) % Pow2(bw) == 0 <==> d % Period(bw, k) == 0
  {
    if bw > 0 {
      if k % 2 == 1 {
        OddCancels(bw, k, d);
      } else {
        var m, h := Pow2(bw - 1), k / 2;
        assert Pow2(bw) == 2 * m && Period(bw, k) == Period(bw - 1, h);
        PeriodDivides(bw - 1, h, d);
        MulDouble(d, h);
        DoubleMultiple(d * k, d * h, Pow2(bw), m);
      }
    }
  }

  lemma MulDouble(d: int, h: int)
    ensures d * (2 * h) == 2 * (d * h)
  {
  }

  lemma DoubleMultiple(x: nat, y: nat, n: nat, m: nat)
    requires x == 2 * y && n == 2 * m && m > 0
    ensures x % n == 0 <==> y % m == 0
  {
    DoubleMod(y, m);
  }

  /** The period is the number of banks divided by gcd(k, number of banks). */
  lemma {:induction false} PeriodIsBanksOverGcd(bw: nat, k: nat) returns (gcd: nat)
    ensures gcd >= 1 && gcd * Period(bw, k) == Pow2(bw)
    ensures k % gcd == 0 && Pow2(bw) % gcd == 0
    ensures forall d: nat | d > 0 && k % d == 0 && Pow2(bw) % d == 0 :: d <= gcd
  {
    if bw == 0 || k % 2 == 1 {
      gcd := 1;
      assert Period(bw, k) == Pow2(bw);
      hide Pow2, Period;
      forall d: nat | d > 0 && k % d == 0 && Pow2(bw) % d == 0
        ensures d <= gcd
      {
        CommonDivisorIsOne(bw, k, d);
      }
    } else {
      var half := PeriodIsBanksOverGcd(bw - 1, k / 2);
      gcd := 2 * half;
      var m, h, p := Pow2(bw - 1), k / 2, Period(bw - 1, k / 2);
      assert Pow2(bw) == 2 * m && Period(bw, k) == p && k == 2 * h;
      hide Pow2, Period;
      DoubleMod(h, half);
      DoubleMod(m, half);
      assert gcd * p == 2 * (half * p);
      forall d: nat | d > 0 && k % d == 0 && Pow2(bw) % d == 0
        ensures d <= gcd
      {
        CommonDivisorHalves(bw, h, m, d);
      }
    }
  }

  lemma CommonDivisorIsOne(bw: nat, k: nat, d: nat)
    requires (bw == 0 || k % 2 == 1) && d > 0 && k % d == 0 && Pow2(bw) % d == 0
    ensures d <= 1
  {
    assert bw == 0 ==> Pow2(bw) == 1;
    hide Pow2;
    if bw == 0 {
      if d > 1 {
        ModUnique(1, 0, 1, d);
      }
    } else {
      OddDivisor(k, d);
      OddDivisorOfPower(bw, d);
    }
  }

  /** A common divisor of 2h and 2m = 2^bw is 1 or twice a common divisor of h and m. */
  lemma CommonDivisorHalves(bw: nat, h: nat, m: nat, d: nat)
    requires d > 0 && (2 * h) % d == 0 && (2 * m) % d == 0 && 2 * m == Pow2(bw)
    ensures d == 1 || (d % 2 == 0 && d / 2 > 0 && h % (d / 2) == 0 && m % (d / 2) == 0)
  {
    hide Pow2;
    if d % 2 == 0 {
      assert d == 2 * (d / 2);
      DoubleMod(h, d / 2);
      DoubleMod(m, d / 2);
    } else {
      OddDivisorOfPower(bw, d);
    }
  }

  lemma OddDivisor(k: nat, d: nat)
    requires k % 2 == 1 && d > 0 && k % d == 0
    ensures d % 2 == 1
  {
    if d % 2 == 0 {
      assert d == 2 * (d / 2);
      OddIsNoMultiple(k, d / 2);
    }
  }

  lemma {:induction false} OddDivisorOfPower(bw: nat, d: nat)
    requires d > 0 && Pow2(bw) % d == 0 && (bw == 0 || d % 2 == 1)
    ensures d == 1
  {
    if bw == 0 {
      if d > 1 {
        ModUnique(1, 0, 1, d);
      }
    } else {
      OddCancelsTwo(Pow2(bw - 1), d);
      OddDivisorOfPower(bw - 1, d);
    }
  }

  lemma OddCancelsTwo(m: nat, d: nat)
    requires d % 2 == 1 && (2 * m) % d == 0
    ensures m % d == 0
  {
    var q := 2 * m / d;
    assert 2 * m == d * q;
    if q % 2 == 1 {
      OddProduct(d, q);
    }
    var h := q / 2;
    Halve(m, d, q, h);
    ModUnique(m, h, 0, d);
  }

  lemma Halve(m: int, d: int, q: int, h: int)
    requires q == 2 * h && 2 * m == d * q
    ensures m == d * h
  {
    MulDouble(d, h);
  }

  lemma OddProduct(a: int, b: int)
    requires a % 2 == 1 && b % 2 == 1
    ensures (a * b) % 2 == 1
  {
    var h := b / 2;
    MulDouble(a, h);
    assert b == 2 * h + 1;
    assert a * b == a * (2 * h) + a;
    OddSum(a * h, a);
  }

  lemma OddSum(x: int, a: int)
    requires a % 2 == 1
    ensures (2 * x + a) % 2 == 1
  {
  }

  /* ---- the loads of a strided batch ---- */

  /** Word addresses 0, k, 2k, ... wrapped to the address width. */
  function Strided(g: Geometry, k: nat, n: nat): seq<nat> {
    seq(n, i requires i >= 0 => StridedAt(g, k, i))
  }

  function StridedAt(g: Geometry, k: nat, i: nat): nat {
    i * k % Size(g)
  }

  lemma StridedBank(g: Geometry, k: nat, i: nat)
    requires !g.hashed
    ensures BankOf(g, StridedAt(g, k, i)) == i * k % NBank(g)
  {
    hide NBank, Depth;
    ModOfMultiple(i * k, NBank(g), Depth(g));
  }

  /** Step `i` of a batch at pitch `k` goes to bank i * h modulo the number of banks. */
  ghost predicate GoesRound(g: Geometry, k: nat, h: nat) {
    forall i: nat :: BankOf(g, StridedAt(g, k, i)) == i * h % NBank(g)
  }

  lemma PlainGoesRound(g: Geometry, k: nat)
    requires !g.hashed
    ensures GoesRound(g, k, k)
  {
    hide BankOf, StridedAt;
    forall i: nat
      ensures BankOf(g, StridedAt(g, k, i)) == i * k % NBank(g)
    {
      StridedBank(g, k, i);
    }
  }

  /** Two steps hit the same bank exactly when they are a multiple of the period apart. */
  lemma SameBank(bw: nat, k: nat, i: nat, j: nat)
    requires i <= j
    ensures i * k % Pow2(bw) == j * k % Pow2(bw) <==> (j - i) % Period(bw, k) == 0
  {
    hide Pow2, Period;
    var m := Pow2(bw);
    PeriodDivides(bw, k, j - i);
    assert j * k == i * k + (j - i) * k;
    SameResidue(i * k, (j - i) * k, m);
  }

  lemma SameResidue(a: nat, b: nat, m: nat)
    requires m > 0
    ensures a % m == (a + b) % m <==> b % m == 0
  {
    if b % m == 0 {
      assert a + b == m * (a / m + b / m) + a % m by {
        assert m * (a / m + b / m) == m * (a / m) + m * (b / m);
      }
      ModUnique(a + b, a / m + b / m, a % m, m);
    }
    if a % m == (a + b) % m {
      var q := (a + b) / m - a / m;
      assert b == m * q by {
        assert m * q == m * ((a + b) / m) - m * (a / m);
      }
      ModUnique(b, q, 0, m);
    }
  }

  lemma {:induction false} LoadAppend(g: Geometry, reqs: seq<nat>, a: nat, b: nat)
    ensures Load(g, reqs + [a], b) == Load(g, reqs, b) + if BankOf(g, a) == b then 1 else 0
  {
    hide BankOf;
    if reqs == [] {
      assert reqs + [a] == [a];
    } else {
      assert (reqs + [a])[1..] == reqs[1..] + [a];
      LoadAppend(g, reqs[1..], a, b);
    }
  }

  lemma CeilDivNext(n: nat, p: nat)
    requires p >= 1
    ensures CeilDiv(n + 1, p) == CeilDiv(n, p) + if n % p == 0 then 1 else 0
  {
    var q, r := n / p, n % p;
    assert n == p * q + r;
    if r == 0 {
      ModUnique(n + p, q + 1, 0, p) by { assert p * (q + 1) == p * q + p; }
      ModUnique(n + p - 1, q, p - 1, p);
    } else {
      ModUnique(n + p, q + 1, r, p) by { assert p * (q + 1) == p * q + p; }
      ModUnique(n + p - 1, q + 1, r - 1, p) by { assert p * (q + 1) == p * q + p; }
    }
  }

  /** Load of the bank first hit at step `first`. */
  lemma {:induction false} StridedLoad(g: Geometry, k: nat, h: nat, n: nat, first: nat)
    requires GoesRound(g, k, h)
    requires forall i: nat | i < first :: i * h % NBank(g) != first * h % NBank(g)
    ensures Load(g, Strided(g, k, n), first * h % NBank(g)) ==
      if n <= first then 0 else CeilDiv(n - first, Period(g.bw, h))
  {
    hide BankOf, Size, Period, Pow2, CeilDiv;
    if n > 0 {
      var i, p, b := n - 1, Period(g.bw, h), first * h % NBank(g);
      StridedLoad(g, k, h, i, first);
      assert Strided(g, k, n) == Strided(g, k, i) + [StridedAt(g, k, i)];
      LoadAppend(g, Strided(g, k, i), StridedAt(g, k, i), b);
      assert BankOf(g, StridedAt(g, k, i)) == i * h % NBank(g);
      if i >= first {
        SameBank(g.bw, h, first, i);
        CeilDivNext(i - first, p);
        CeilDivZero(p);
      }
    }
  }

  lemma CeilDivZero(p: nat)
    requires p >= 1
    ensures CeilDiv(0, p) == 0
  {
    ModUnique(p - 1, 0, p - 1, p);
  }

  lemma CeilDivMonotone(a: nat, b: nat, p: nat)
    requires p >= 1 && a <= b
    ensures CeilDiv(a, p) <= CeilDiv(b, p)
  {
    if CeilDiv(a, p) > CeilDiv(b, p) {
      MulMonotone(p, CeilDiv(b, p) + 1, CeilDiv(a, p));
    }
  }

  lemma {:induction false} NoLoad(g: Geometry, reqs: seq<nat>, b: nat)
    requires forall a | a in reqs :: BankOf(g, a) != b
    ensures Load(g, reqs, b) == 0
  {
    hide BankOf;
    if reqs != [] {
      NoLoad(g, reqs[1..], b);
    }
  }

  /** The least step that hits the same bank as step `i`. */
  lemma FirstHit(m: nat, k: nat, i: nat) returns (first: nat)
    requires m > 0
    ensures first <= i && first * k % m == i * k % m
    ensures forall j: nat | j < first :: j * k % m != first * k % m
  {
    first := 0;
    while first * k % m != i * k % m
      invariant first <= i
      invariant forall j: nat | j < first :: j * k % m != i * k % m
      decreases i - first
    {
      first := first + 1;
    }
  }

  /** `n` steps around the banks drain in exactly ceil(n / (NBANK / gcd(h, NBANK))) cycles. */
  lemma RoundLaw(g: Geometry, k: nat, h: nat, n: nat)
    requires GoesRound(g, k, h)
    ensures DrainCycles(g, Strided(g, k, n)) == CeilDiv(n, Period(g.bw, h))
  {
    hide BankOf, Size, Period, CeilDiv, DrainCycles, Load, NBank, GoesRound;
    var reqs, p := Strided(g, k, n), Period(g.bw, h);
    DrainTimeIsBusiestBank(g, reqs);
    if n > 0 {
      BankZeroLoad(g, k, h, n);
      assert reqs != [];
      var b: nat :| b < NBank(g) && Load(g, reqs, b) == DrainCycles(g, reqs);
      LoadBound(g, k, h, n, b);
    } else {
      CeilDivZero(p);
      NothingToDrain(g, reqs);
    }
  }

  /** Under the plain mapping, `n` accesses at a pitch of `k` words drain in exactly
      ceil(n / (NBANK / gcd(k, NBANK))) cycles. */
  lemma StrideLaw(g: Geometry, k: nat, n: nat)
    requires !g.hashed
    ensures DrainCycles(g, Strided(g, k, n)) == CeilDiv(n, Period(g.bw, k))
  {
    hide GoesRound, DrainCycles, Strided, CeilDiv, Period;
    PlainGoesRound(g, k);
    RoundLaw(g, k, k, n);
  }

  lemma NothingToDrain(g: Geometry, reqs: seq<nat>)
    requires reqs == []
    ensures DrainCycles(g, reqs) == 0
  {
  }

  lemma BankZeroLoad(g: Geometry, k: nat, h: nat, n: nat)
    requires GoesRound(g, k, h) && n > 0
    ensures Load(g, Strided(g, k, n), 0) == CeilDiv(n, Period(g.bw, h))
  {
    hide BankOf, Size, Period, CeilDiv, DrainCycles, Load, Strided, NBank, GoesRound;
    StridedLoad(g, k, h, n, 0);
    ModUnique(0 * h, 0, 0, NBank(g));
  }

  lemma LoadBound(g: Geometry, k: nat, h: nat, n: nat, b: nat)
    requires GoesRound(g, k, h)
    ensures Load(g, Strided(g, k, n), b) <= CeilDiv(n, Period(g.bw, h))
  {
    hide BankOf, Size, Period, CeilDiv, StridedAt;
    var reqs, p := Strided(g, k, n), Period(g.bw, h);
    if a :| a in reqs && BankOf(g, a) == b {
      var i :| 0 <= i < n && reqs[i] == a;
      assert BankOf(g, StridedAt(g, k, i)) == i * h % NBank(g);
      var first := FirstHit(NBank(g), h, i);
      StridedLoad(g, k, h, n, first);
      CeilDivMonotone(n - first, n, p);
    } else {
      NoLoad(g, reqs, b);
    }
  }

  /** A pitch that is odd never conflicts; a pitch divisible by the number of banks serialises. */
  lemma PitchExtremes(g: Geometry, k: nat, n: nat)
    requires !g.hashed && 0 < n <= NBank(g)
    ensures k % 2 == 1 ==> DrainCycles(g, Strided(g, k, n)) == 1
    ensures k % NBank(g) == 0 ==> DrainCycles(g, Strided(g, k, n)) == n
  {
    StrideLaw(g, k, n);
    if k % NBank(g) == 0 {
      PeriodDivides(g.bw, k, 1);
    }
    if k % 2 == 1 {
      var p := Period(g.bw, k);
      assert p == NBank(g);
      ModUnique(n + p - 1, 1, n - 1, p);
    }
  }
}

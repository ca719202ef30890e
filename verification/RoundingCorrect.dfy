/** What the fp16 conversions compute: nearest value, ties to even, overflow, order, inverse. */
module RoundingCorrect {
  import opened Arithmetic
  import opened Machine
  import opened Rounding

  /* ---- the fp16 grid ---- */

  /** A magnitude is Lead(r) steps of size Unit(r), and so is the next one up. */
  function Unit(r: nat): nat { if r < 0x800 then Pow2(125) else Pow2(r / 0x400 + 124) }

  function Lead(r: nat): nat { if r < 0x800 then r else 0x400 + r % 0x400 }

  lemma GridStep(r: nat)
    ensures Mag16(r) == Lead(r) * Unit(r) && Mag16(r + 1) == (Lead(r) + 1) * Unit(r)
    ensures Mag16(r) < Mag16(r + 1)
  {
    hide Pow2;
    if r == 0x7FF {
      PowStep(125);
    } else if r >= 0x800 && r % 0x400 == 0x3FF {
      PowStep(r / 0x400 + 124);
    }
    assert (Lead(r) + 1) * Unit(r) == Lead(r) * Unit(r) + Unit(r);
  }

  lemma PowStep(n: nat)
    ensures Pow2(n + 1) == 2 * Pow2(n)
  {
  }

  lemma {:induction false} GridIncreases(a: nat, b: nat)
    requires a < b
    ensures Mag16(a) < Mag16(b)
  {
    hide Mag16;
    GridStep(b - 1);
    if a < b - 1 {
      GridIncreases(a, b - 1);
    }
  }

  /* ---- rounding to the grid ---- */

  /** `m` lies between the midpoints around the value of rank `r`; a midpoint itself belongs to the
      even neighbour. Rank INF16 has no upper midpoint. */
  ghost predicate Nearest(r: nat, m: nat) {
    && r <= INF16
    && (r > 0 ==> AtLeast(2 * m, Mag16(r - 1) + Mag16(r), r))
    && (r < INF16 ==> AtLeast(Mag16(r) + Mag16(r + 1), 2 * m, r))
  }

  predicate AtLeast(x: int, y: int, r: nat) { x > y || (x == y && r % 2 == 0) }

  /** Only one rank is nearest, and it grows with the magnitude. */
  lemma NearestMonotone(r: nat, m: nat, r': nat, m': nat)
    requires Nearest(r, m) && Nearest(r', m') && m <= m'
    ensures r <= r'
  {
    hide Mag16;
    if r > r' {
      GridIncreases(r - 1, r);
      if r - 1 > r' {
        GridIncreases(r', r - 1);
        GridIncreases(r' + 1, r);
      }
    }
  }

  /** A value on the grid is its own nearest. */
  lemma ExactIsNearest(r: nat)
    requires r <= INF16
    ensures Nearest(r, Mag16(r))
  {
    hide Mag16;
    GridIncreases(r, r + 1);
    if r > 0 {
      GridIncreases(r - 1, r);
    }
  }

  /** `q` units of size u*W and `rem` parts of size W, rounded to whole units. */
  lemma RoundedIsNearest(base: nat, q: nat, u: nat, rem: nat, W: nat, m: nat)
    requires Mag16(base) == q * (u * W) && Mag16(base + 1) == (q + 1) * (u * W) && m == (q * u + rem) * W
    requires rem < u && W > 0 && u % 2 == 0 && base % 2 == q % 2 && base < INF16
    ensures Nearest(base + (if RoundsUp(q, rem, u / 2) then 1 else 0), m)
  {
    hide Mag16, Nearest;
    var step, part := u * W, rem * W;
    Parts(q, u, rem, W);
    StrictlyBelow(rem, u, W);
    Compare(rem, u, W);
    NearestFromParts(base, q, part, step, m, RoundsUp(q, rem, u / 2));
  }

  lemma Parts(q: nat, u: nat, rem: nat, W: nat)
    ensures (q * u + rem) * W == q * (u * W) + rem * W && (q + 1) * (u * W) == q * (u * W) + u * W && 0 <= rem * W
  {
    assert (q * u) * W == q * (u * W);
    MulMonotone(W, 0, rem);
  }

  /** The linear part: the magnitude is `part` above the value of rank `base`, whose step is `step`. */
  lemma NearestFromParts(base: nat, q: nat, part: nat, step: nat, m: nat, up: bool)
    requires base < INF16 && base % 2 == q % 2 && part < step
    requires m == Mag16(base) + part && Mag16(base + 1) == Mag16(base) + step
    requires up <==> 2 * part > step || (2 * part == step && q % 2 == 1)
    ensures Nearest(base + (if up then 1 else 0), m)
  {
    hide Mag16;
    GridIncreases(base + 1, base + 2);
    if base > 0 { GridIncreases(base - 1, base); }
  }

  lemma StrictlyBelow(a: int, b: int, W: nat)
    requires a < b && W > 0
    ensures a * W < b * W
  {
  }

  lemma Compare(a: int, b: int, W: nat)
    requires W > 0
    ensures 2 * a < b <==> 2 * (a * W) < b * W
    ensures 2 * a > b <==> 2 * (a * W) > b * W
  {
    assert (2 * a) * W == 2 * (a * W);
    if 2 * a < b { StrictlyBelow(2 * a, b, W); }
    if 2 * a > b { StrictlyBelow(b, 2 * a, W); }
  }

  lemma TinyIsZero(m: nat)
    requires m <= Pow2(124)
    ensures Nearest(0, m)
  {
    assert Pow2(125) == 2 * Pow2(124);
    assert Mag16(0) == 0 && Mag16(1) == Pow2(125);
  }

  lemma HugeIsInfinite(m: nat)
    requires m >= Pow2(165)
    ensures Nearest(INF16, m)
  {
    hide Mag16, Pow2;
    InfinityValue();
    GridIncreases(INF16 - 1, INF16);
  }

  lemma InfinityValue()
    ensures Mag16(INF16) == Pow2(165)
  {
    hide Pow2;
    SmallPowers();
    Pow2Add(10, 155);
  }

  lemma BelowSum(m: nat, k: nat, a: nat)
    requires m < Pow2(24)
    ensures m * Pow2(k) < Pow2(24 + k)
  {
    Pow2Add(24, k);
    StrictlyBelow(m, Pow2(24), Pow2(k));
  }

  lemma SubnormalNearest(exp: nat, man: nat)
    requires 102 <= exp <= 112 && man < 0x80_0000
    ensures Nearest(NarrowRank(exp, man), (0x80_0000 + man) * Pow2(exp - 1))
  {
    hide Pow2, Nearest;
    var n := 126 - exp;
    var u, W, mant := Pow2(n), Pow2(exp - 1), man + 0x80_0000;
    Pow2Add(n, exp - 1);
    Shifts(n);
    SubnormalKept(man, n);
    var q, rem := mant / u, mant % u;
    assert mant == q * u + rem;
    RoundedIsNearest(q, q, u, rem, W, mant * W);
  }

  lemma NormalGrid(e: nat, m10: nat)
    requires 1 <= e && m10 < 0x400
    ensures Mag16(e * 0x400 + m10) == (0x400 + m10) * Pow2(e + 124)
    ensures Mag16(e * 0x400 + m10 + 1) == (0x400 + m10 + 1) * Pow2(e + 124)
  {
    hide Pow2, Mag16;
    GridStep(e * 0x400 + m10);
    assert Lead(e * 0x400 + m10) == 0x400 + m10 && Unit(e * 0x400 + m10) == Pow2(e + 124);
  }

  lemma NormalNearest(exp: nat, man: nat)
    requires 113 <= exp <= 142 && man < 0x80_0000
    ensures Nearest(NarrowRank(exp, man), (0x80_0000 + man) * Pow2(exp - 1))
  {
    var e, m10, rem, W := exp - 112, man / 0x2000, man % 0x2000, Pow2(exp - 1);
    var base, q := e * 0x400 + m10, 0x400 + m10;
    SplitNormal(exp, man);
    hide Pow2, Nearest, Mag16, NarrowRank;
    PowersApart(exp);
    NormalGrid(e, m10);
    RoundedIsNearest(base, q, 0x2000, rem, W, (0x80_0000 + man) * W);
  }

  lemma PowersApart(exp: nat)
    requires exp >= 1
    ensures Pow2(exp + 12) == 0x2000 * Pow2(exp - 1) && Pow2(exp - 1) > 0
  {
    hide Pow2;
    SmallPowers();
    Pow2Add(13, exp - 1);
  }

  /** The bits that are kept, those that are dropped, and what becomes of them. */
  lemma SplitNormal(exp: nat, man: nat)
    requires 113 <= exp <= 142 && man < 0x80_0000
    ensures var e, m10, rem := exp - 112, man / 0x2000, man % 0x2000;
      && m10 < 0x400 && 0x80_0000 + man == (0x400 + m10) * 0x2000 + rem
      && (e * 0x400 + m10) % 2 == (0x400 + m10) % 2 && e * 0x400 + m10 < INF16
      && NarrowRank(exp, man) == e * 0x400 + m10 + (if RoundsUp(0x400 + m10, rem, 0x1000) then 1 else 0)
  {
  }

  /** fp32ToFp16 rounds every non-NaN magnitude to the nearest fp16 value, ties to even. */
  lemma NarrowIsNearest(x: Dword)
    requires !IsNaN32(x)
    ensures Nearest(NarrowRank(Exp32(x), Man32(x)), Mag32(x))
    ensures Rank16(Narrow(x)) == NarrowRank(Exp32(x), Man32(x)) && Sign16(Narrow(x)) == Sign32(x)
  {
    hide Pow2, Nearest, NarrowRank;
    var exp, man := Exp32(x), Man32(x);
    if exp < 102 {
      TinyRank(exp, man);
      SmallPowers();
      if exp == 0 {
        Pow2Monotone(23, 124);
      } else {
        BelowSum(0x80_0000 + man, exp - 1, 0);
        Pow2Monotone(23 + exp, 124);
      }
      TinyIsZero(Mag32(x));
    } else if exp <= 112 {
      SubnormalNearest(exp, man);
    } else if exp <= 142 {
      NormalNearest(exp, man);
    } else {
      LargeRank(exp, man);
      SmallPowers();
      Pow2Add(23, exp - 1);
      MulMonotone(Pow2(exp - 1), Pow2(23), 0x80_0000 + man);
      Pow2Monotone(165, 22 + exp);
      HugeIsInfinite(Mag32(x));
    }
    SignApart(Sign32(x), NarrowRank(exp, man));
  }

  lemma TinyRank(exp: nat, man: nat)
    requires exp < 102 && man < 0x80_0000
    ensures NarrowRank(exp, man) == 0
  {
  }

  lemma LargeRank(exp: nat, man: nat)
    requires 143 <= exp < 256 && man < 0x80_0000
    ensures NarrowRank(exp, man) == INF16
  {
  }

  lemma SignApart(sign: nat, r: nat)
    requires sign < 2 && r < 0x8000
    ensures (sign * 0x8000 + r) % 0x8000 == r && (sign * 0x8000 + r) / 0x8000 == sign
  {
  }

  /* ---- the main results ---- */

  function Signed32(x: Dword): int { if Sign32(x) == 1 then 0 - Mag32(x) else Mag32(x) }

  function Signed16(h: Word): int { if Sign16(h) == 1 then 0 - Mag16(Rank16(h)) else Mag16(Rank16(h)) }

  function Distance(a: int, b: int): nat { if a <= b then b - a else a - b }

  predicate Finite16(h: Word) { Rank16(h) < INF16 }

  /** Distances along one sign. */
  lemma RankDistance(r: nat, m: nat, k: nat)
    requires Nearest(r, m) && r < INF16
    ensures Distance(m, Mag16(r)) <= Distance(m, Mag16(k))
    ensures k != r && Distance(m, Mag16(r)) == Distance(m, Mag16(k)) ==> r % 2 == 0
  {
    hide Mag16;
    GridIncreases(r, r + 1);
    if r > 0 { GridIncreases(r - 1, r); }
    if k > r {
      if k > r + 1 { GridIncreases(r + 1, k); }
    } else if k < r {
      if k < r - 1 { GridIncreases(k, r - 1); }
    }
  }

  /** No representable fp16 value is closer than the result, and of two equally close ones the result
      has the even significand. */
  lemma NoCloserValue(x: Dword, k: Word)
    requires !IsNaN32(x) && Finite16(Narrow(x)) && Finite16(k)
    ensures Distance(Signed32(x), Signed16(Narrow(x))) <= Distance(Signed32(x), Signed16(k))
    ensures Signed16(k) != Signed16(Narrow(x)) && Distance(Signed32(x), Signed16(Narrow(x))) == Distance(Signed32(x), Signed16(k))
      ==> Narrow(x) % 2 == 0
  {
    hide Mag16, Mag32, Narrow, Nearest, NarrowRank;
    NarrowIsNearest(x);
    var r := Rank16(Narrow(x));
    RankDistance(r, Mag32(x), Rank16(k));
    RankDistance(r, Mag32(x), 0);
    assert Mag16(0) == 0 by { ZeroValue(); }
    if Rank16(k) > 0 { GridIncreases(0, Rank16(k)); }
    RankParity(Narrow(x));
  }

  lemma ZeroValue()
    ensures Mag16(0) == 0
  {
  }

  lemma RankParity(h: Word)
    ensures h % 2 == Rank16(h) % 2
  {
  }

  /** Overflow: the result is infinite exactly from the rounding threshold on. */
  lemma OverflowThreshold(x: Dword)
    requires !IsNaN32(x)
    ensures Rank16(Narrow(x)) == INF16 <==> 2 * Mag32(x) >= Mag16(INF16 - 1) + Mag16(INF16)
  {
    hide Mag16, Mag32, Narrow, NarrowRank;
    NarrowIsNearest(x);
    var r := Rank16(Narrow(x));
    if r < INF16 {
      GridIncreases(r, r + 1);
      if r + 1 < INF16 {
        GridIncreases(r + 1, INF16);
        if r < INF16 - 1 { GridIncreases(r, INF16 - 1); }
      }
    }
  }

  /** The conversion is monotone on all pairs of non-NaN inputs, infinities and zeros included. */
  lemma NarrowMonotone(x: Dword, y: Dword)
    requires !IsNaN32(x) && !IsNaN32(y) && Signed32(x) <= Signed32(y)
    ensures Signed16(Narrow(x)) <= Signed16(Narrow(y))
  {
    hide Mag16, Mag32, Narrow, Nearest, NarrowRank;
    NarrowIsNearest(x);
    NarrowIsNearest(y);
    var rx, ry := Rank16(Narrow(x)), Rank16(Narrow(y));
    if Mag32(x) <= Mag32(y) {
      NearestMonotone(rx, Mag32(x), ry, Mag32(y));
      if rx < ry { GridIncreases(rx, ry); }
    }
    if Mag32(y) <= Mag32(x) {
      NearestMonotone(ry, Mag32(y), rx, Mag32(x));
      if ry < rx { GridIncreases(ry, rx); }
    }
    ZeroRank(rx, Mag32(x));
    ZeroRank(ry, Mag32(y));
  }

  lemma ZeroRank(r: nat, m: nat)
    requires Nearest(r, m)
    ensures m == 0 ==> Mag16(r) == 0
  {
    hide Mag16, Nearest;
    if m == 0 {
      ZeroValue();
      ExactIsNearest(0);
      NearestMonotone(r, 0, 0, 0);
    }
  }

  /* ---- widening is exact ---- */

  lemma FieldsOf(sign: nat, exp: nat, man: nat)
    requires sign < 2 && exp < 256 && man < 0x80_0000
    ensures var x := Bits32(sign, exp, man); Sign32(x) == sign && Exp32(x) == exp && Man32(x) == man
  {
    var x := Bits32(sign, exp, man);
    ModUnique(x, sign * 0x100 + exp, man, 0x80_0000);
    ModUnique(sign * 0x100 + exp, sign, exp, 0x100);
    ModUnique(x, sign, exp * 0x80_0000 + man, 0x8000_0000);
  }

  lemma ScaledMantissa(m: nat, k: nat)
    ensures m * 0x2000 * Pow2(k) == m * Pow2(k + 13)
  {
    SmallPowers();
    Pow2Add(13, k);
  }

  /** A subnormal fp16 value, normalised. */
  lemma SubnormalWidened(man: nat)
    requires 0 < man < 0x400
    ensures 0 <= Normalised(man, -1).1 <= 9
    ensures var (m, e) := Normalised(man, -1);
      (0x80_0000 + (m - 0x400) * 0x2000) * Pow2(111 - e) == man * Pow2(125)
  {
    hide Pow2;
    OneShift(man);
    NormalisedValue(man, -1);
    var (m, e) := Normalised(man, -1);
    ScaledMantissa(m, 111 - e);
    Pow2Add(e + 1, 124 - e);
  }

  /** fp16ToFp32 keeps sign and value of everything but NaNs; infinity goes to infinity. */
  lemma WidenIsExact(h: Word)
    requires !IsNaN16(h)
    ensures !IsNaN32(Widen(h)) && Sign32(Widen(h)) == Sign16(h)
    ensures if Finite16(h) then Mag32(Widen(h)) == Mag16(Rank16(h)) else Exp32(Widen(h)) == 255 && Man32(Widen(h)) == 0
  {
    hide Pow2, Exp32, Man32, Sign32, Bits32, Normalised;
    var sign, exp, man := Sign16(h), Rank16(h) / 0x400, Rank16(h) % 0x400;
    if exp == 0 && man == 0 {
      FieldsOf(sign, 0, 0);
    } else if exp == 0 {
      SubnormalWidened(man);
      var (m, e) := Normalised(man, -1);
      FieldsOf(sign, 112 - e, (m - 0x400) * 0x2000);
    } else if exp == 0x1F {
      FieldsOf(sign, 0xFF, man * 0x2000);
    } else {
      FieldsOf(sign, exp + 112, man * 0x2000);
      ScaledMantissa(0x400 + man, exp + 111);
      NormalGrid(exp, man);
    }
  }

  /** fp32ToFp16 undoes fp16ToFp32 on every non-NaN value. */
  lemma NarrowInvertsWiden(h: Word)
    requires !IsNaN16(h)
    ensures Narrow(Widen(h)) == h
  {
    hide Widen, Narrow, Mag16, Mag32, Nearest, NarrowRank, Exp32, Man32;
    WidenIsExact(h);
    var x := Widen(h);
    NarrowIsNearest(x);
    if Finite16(h) {
      ExactIsNearest(Rank16(h));
      NearestMonotone(Rank16(h), Mag32(x), Rank16(Narrow(x)), Mag32(x));
      NearestMonotone(Rank16(Narrow(x)), Mag32(x), Rank16(h), Mag32(x));
    } else {
      LargeRank(255, 0);
    }
    assert Narrow(x) == Sign16(h) * 0x8000 + Rank16(h);
  }

  /** NaNs stay NaNs of the same sign, and narrowing makes them quiet. */
  lemma NaNsStayNaNs(x: Dword, h: Word)
    ensures IsNaN32(x) ==> IsNaN16(Narrow(x)) && Sign16(Narrow(x)) == Sign32(x) && Rank16(Narrow(x)) % 0x400 >= 0x200
    ensures IsNaN16(h) ==> IsNaN32(Widen(h)) && Sign32(Widen(h)) == Sign16(h)
  {
    hide NarrowRank, Exp32, Man32, Normalised;
    if IsNaN32(x) {
      SignApart(Sign32(x), INF16 + Quieted(Man32(x) / 0x2000));
    }
    if IsNaN16(h) {
      FieldsOf(Sign16(h), 0xFF, Rank16(h) % 0x400 * 0x2000);
    }
  }
}

/** The fp16 conversions (`runtime/include/dtype.h`): widening is exact, narrowing is
    roundTiesToEven (section 4.3.1 of IEEE 754-2019). Bit patterns are integers; magnitudes are
    integers too, in units of 2^-149, the smallest fp32 step. */
module Rounding {
  import opened Arithmetic
  import opened Machine

  const INF16 := 0x7C00

  /* ---- bit patterns ---- */

  function Sign32(x: Dword): nat { x / 0x8000_0000 }

  function Exp32(x: Dword): (e: nat)
    ensures e < 256
  {
    x / 0x80_0000 % 0x100
  }

  function Man32(x: Dword): (m: nat)
    ensures m < 0x80_0000
  {
    x % 0x80_0000
  }

  function Bits32(sign: nat, exp: nat, man: nat): Dword
    requires sign < 2 && exp < 256 && man < 0x80_0000
  {
    sign * 0x8000_0000 + exp * 0x80_0000 + man
  }

  function Sign16(h: Word): nat { h / 0x8000 }

  /** The fields below the sign; among non-NaN values this number grows with the magnitude. */
  function Rank16(h: Word): (r: nat)
    ensures r < 0x8000
  {
    h % 0x8000
  }

  predicate IsNaN32(x: Dword) { Exp32(x) == 255 && Man32(x) != 0 }

  predicate IsNaN16(h: Word) { Rank16(h) > INF16 }

  /* ---- magnitudes ---- */

  /** Infinity counts as 2^128. */
  function Mag32(x: Dword): nat {
    if Exp32(x) == 0 then Man32(x) else (0x80_0000 + Man32(x)) * Pow2(Exp32(x) - 1)
  }

  /** The magnitude of the fp16 value of rank `r`; infinity counts as 2^16. */
  function Mag16(r: nat): nat {
    if r < 0x800 then r * Pow2(125) else (0x400 + r % 0x400) * Pow2(r / 0x400 + 124)
  }

  /* ---- widening ---- */

  /** The normalisation of a subnormal: shift left until bit 10 is set, counting. */
  function Normalised(man: nat, e: int): (r: (nat, int))
    requires 0 < man < 0x800
    ensures 0x400 <= r.0 < 0x800 && r.1 >= e
    decreases 0x800 - man
  {
    if man >= 0x400 then (man, e) else Normalised(2 * man, e + 1)
  }

  lemma {:induction false} NormalisedValue(man: nat, e: int)
    requires 0 < man < 0x800
    ensures var r := Normalised(man, e); r.0 == man * Pow2(r.1 - e)
    decreases 0x800 - man
  {
    if man < 0x400 {
      NormalisedValue(2 * man, e + 1);
      var n := Normalised(2 * man, e + 1).1 - (e + 1);
      assert Pow2(n + 1) == 2 * Pow2(n);
    }
  }

  /** At most ten shifts. */
  lemma {:induction false} NormalisedShifts(man: nat, e: int, k: nat)
    requires 0 < man < 0x800 && Pow2(k) <= man && k <= 10
    ensures Normalised(man, e).1 <= e + 10 - k
    decreases 0x800 - man
  {
    if man < 0x400 {
      SmallPowers();
      assert Pow2(k + 1) == 2 * Pow2(k);
      NormalisedShifts(2 * man, e + 1, k + 1);
    }
  }

  lemma OneShift(man: nat)
    requires 0 < man < 0x400
    ensures 0 <= Normalised(man, -1).1 <= 9
  {
    NormalisedShifts(man, -1, 0);
  }

  function Widen(h: Word): Dword {
    var sign, exp, man := Sign16(h), Rank16(h) / 0x400, Rank16(h) % 0x400;
    if exp == 0 then
      if man == 0 then Bits32(sign, 0, 0)
      else
        OneShift(man);
        var (m, e) := Normalised(man, -1);
        Bits32(sign, 112 - e, (m - 0x400) * 0x2000)
    else if exp == 0x1F then Bits32(sign, 0xFF, man * 0x2000)
    else Bits32(sign, exp + 112, man * 0x2000)
  }

  /** The bit the loop looks at. */
  lemma LeadingBit(man: nat)
    requires 0 < man < 0x800
    ensures man / 0x400 % 2 == 0 <==> man < 0x400
    ensures man >= 0x400 ==> man % 0x400 == man - 0x400
  {
  }

  lemma ShiftOnce(man: nat, e: int)
    requires 0 < man < 0x800
    ensures Normalised(man, e) == (if man >= 0x400 then (man, e) else Normalised(2 * man, e + 1))
  {
  }

  method Fp16ToFp32(h: Word) returns (bits: Dword)
    ensures bits == Widen(h)
  {
    var sign, exp, man := h / 0x8000, h % 0x8000 / 0x400, h % 0x400;
    ModOfMultiple(h, 0x400, 0x20);
    if exp == 0 {
      if man == 0 {
        bits := Bits32(sign, 0, 0);
      } else {
        OneShift(man);
        ghost var start := man;
        var e := 0;
        man := 2 * man;
        hide Normalised;
        ShiftOnce(start, -1);
        while man / 0x400 % 2 == 0
          invariant 0 < man < 0x800 && Normalised(man, e) == Normalised(start, -1)
          decreases 0x800 - man
        {
          LeadingBit(man);
          ShiftOnce(man, e);
          man := 2 * man;
          e := e + 1;
        }
        LeadingBit(man);
        ShiftOnce(man, e);
        man := man % 0x400;
        bits := Bits32(sign, 112 - e, man * 0x2000);
      }
    } else if exp == 0x1F {
      bits := Bits32(sign, 0xFF, man * 0x2000);
    } else {
      bits := Bits32(sign, exp + 112, man * 0x2000);
    }
  }

  /* ---- narrowing ---- */

  predicate RoundsUp(kept: nat, rem: nat, half: nat) { rem > half || (rem == half && kept % 2 == 1) }

  function Rounded(kept: nat, rem: nat, half: nat): nat { if RoundsUp(kept, rem, half) then kept + 1 else kept }

  /** A subnormal result: the significand without its last `n` bits, rounded. */
  function SubnormalRank(man: nat, n: nat): (r: nat)
    requires man < 0x80_0000 && 14 <= n
    ensures r <= 0x400
  {
    var unit := Pow2(n);
    SubnormalKept(man, n);
    Rounded((man + 0x80_0000) / unit, (man + 0x80_0000) % unit, unit / 2)
  }

  /** The fp16 rank of a non-NaN fp32 magnitude. */
  function NarrowRank(exp: nat, man: nat): (r: nat)
    requires exp < 256 && man < 0x80_0000
    ensures r <= INF16
  {
    var e := exp - 112;
    if exp == 0 then 0
    else if e >= 31 then INF16
    else if e < -10 then 0
    else if e <= 0 then SubnormalRank(man, 14 - e)
    else e * 0x400 + Rounded(man / 0x2000, man % 0x2000, 0x1000)
  }

  lemma Shifts(n: nat)
    requires 14 <= n <= 24
    ensures Pow2(n) >= 0x4000 && Pow2(n) % 2 == 0
  {
    Pow2Monotone(14, n);
    assert Pow2(14) == 0x4000 by { SmallPowers(); }
    assert Pow2(n) == 2 * Pow2(n - 1);
  }

  lemma SmallPowers()
    ensures Pow2(10) == 0x400 && Pow2(13) == 0x2000 && Pow2(14) == 0x4000 && Pow2(23) == 0x80_0000 && Pow2(24) == 0x100_0000
  {
    assert Pow2(10) == 0x400;
    assert Pow2(13) == 8 * Pow2(10);
    assert Pow2(14) == 2 * Pow2(13);
    Pow2Add(10, 13);
    assert Pow2(24) == 2 * Pow2(23);
  }

  lemma SubnormalKept(man: nat, n: nat)
    requires man < 0x80_0000 && 14 <= n
    ensures 0 <= (man + 0x80_0000) / Pow2(n) < 0x400
  {
    Pow2Monotone(14, n);
    SmallPowers();
    DivBelow(man + 0x80_0000, Pow2(n), 0x400);
  }

  lemma DivBelow(m: nat, u: nat, n: nat)
    requires u > 0 && m < u * n
    ensures 0 <= m / u < n
  {
    DivNonNegative(m, u);
    if m / u >= n {
      MulMonotone(u, n, m / u);
    }
  }

  /** The payload's top bits, with the quiet bit set. */
  function Quieted(m: nat): (r: nat)
    requires m < 0x400
    ensures r < 0x400
  {
    if m / 0x200 == 1 then m else m + 0x200
  }

  function Narrow(x: Dword): Word {
    var sign := Sign32(x) * 0x8000;
    if IsNaN32(x) then sign + INF16 + Quieted(Man32(x) / 0x2000)
    else sign + NarrowRank(Exp32(x), Man32(x))
  }

  method Fp32ToFp16(x: Dword) returns (h: Word)
    ensures h == Narrow(x)
  {
    var sign, exp, man := x / 0x8000_0000 * 0x8000, x / 0x80_0000 % 0x100, x % 0x80_0000;
    if exp == 0xFF {
      if man == 0 {
        return sign + 0x7C00;
      }
      return sign + 0x7C00 + Quieted(man / 0x2000);
    }
    if exp == 0 {
      return sign;
    }
    var e := exp - 112;
    if e >= 31 {
      return sign + 0x7C00;
    }
    if e <= 0 {
      if e < -10 {
        return sign;
      }
      var kept := RoundSubnormal(man, 14 - e);
      if kept >= 0x400 {
        return sign + 0x400;
      }
      return sign + kept;
    }
    var top := e * 0x400;
    var m10 := RoundNormal(man);
    if m10 == 0x400 {
      top := top + 0x400;
      m10 := 0;
    }
    return sign + top + m10;
  }

  method RoundSubnormal(man: nat, shift: nat) returns (kept: nat)
    requires man < 0x80_0000 && 14 <= shift <= 24
    ensures kept == SubnormalRank(man, shift)
  {
    hide Pow2, Rounded;
    PowHalf(shift);
    SubnormalKept(man, shift);
    var half, unit := Pow2(shift - 1), Pow2(shift);
    var m := man + 0x80_0000;
    kept := RoundParts(m / unit, m % unit, half);
  }

  /** One step up if the remainder is above half, or is half and the kept part odd. */
  method RoundParts(q: nat, rem: nat, half: nat) returns (kept: nat)
    ensures kept == Rounded(q, rem, half)
  {
    kept := q;
    if rem > half || (rem == half && kept % 2 == 1) {
      kept := kept + 1;
    }
  }

  lemma PowHalf(n: nat)
    requires n >= 1
    ensures Pow2(n) / 2 == Pow2(n - 1)
  {
  }

  method RoundNormal(man: nat) returns (m10: nat)
    requires man < 0x80_0000
    ensures m10 == Rounded(man / 0x2000, man % 0x2000, 0x1000) && m10 <= 0x400
  {
    m10 := RoundParts(man / 0x2000, man % 0x2000, 0x1000);
  }
}

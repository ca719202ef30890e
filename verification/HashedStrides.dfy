/** How many cycles a strided access takes under the hashed mapping, and the comparison of the three
    layouts in section 6.3 of `docs/notes/design/rtl-r2.md`. */
module HashedStrides {
  import opened Arithmetic
  import opened Types
  import opened Crossbar
  import opened CrossbarDrain
  import opened StrideConflicts

  /* ---- bank and local address of a wrapped address ---- */

  /** `local` is taken modulo the number of banks: with at least as many words as banks in each, the
      wrap of the address width does not show there. */
  lemma WrappedAddress(g: Geometry, x: nat)
    requires g.bw <= g.law
    ensures x % Size(g) % NBank(g) == x % NBank(g)
    ensures LocalOf(g, x % Size(g)) % NBank(g) == LocalOf(g, x) % NBank(g)
  {
    var n, d := NBank(g), Depth(g);
    ModOfMultiple(x, n, d);
    QuotientOfMod(x, n, d);
    assert Pow2(g.law) == Pow2(g.bw) * Pow2(g.law - g.bw) by { Pow2Add(g.bw, g.law - g.bw); }
    DivNonNegative(x, n);
    ModOfMultiple(x / n, n, Pow2(g.law - g.bw));
  }

  lemma QuotientOfMod(x: nat, n: nat, d: nat)
    requires n > 0 && d > 0
    ensures n * d > 0 && x % (n * d) / n == x / n % d
  {
    MulMonotone(n, 1, d);
    DivNonNegative(x, n);
    var q, r := x / n, x % n;
    var e, l := q / d, q % d;
    assert x == n * d * e + (n * l + r) by {
      assert x == n * q + r;
      assert q == d * e + l;
      assert n * q == n * (d * e) + n * l;
      assert n * (d * e) == n * d * e;
    }
    assert n * l + r < n * d by {
      MulMonotone(n, l + 1, d);
      assert n * (l + 1) == n * l + n;
    }
    MulMonotone(n, 0, l);
    ModUnique(x, e, n * l + r, n * d);
    ModUnique(n * l + r, l, r, n);
  }

  lemma HashedBank(g: Geometry, x: nat)
    requires g.hashed && g.bw <= g.law
    ensures BankOf(g, x % Size(g)) == Xor(g.bw, x % NBank(g), LocalOf(g, x) % NBank(g))
  {
    hide NBank, Depth, Size, LocalOf, Xor;
    WrappedAddress(g, x);
  }

  lemma {:induction false} XorZero(w: nat, y: nat)
    requires y < Pow2(w)
    ensures Xor(w, 0, y) == y && Xor(w, y, 0) == y
  {
    if w > 0 {
      XorZero(w - 1, y / 2);
    }
  }

  /* ---- pitches that are a multiple of the number of banks ---- */

  /** All steps have offset 0 in their local row, so the hash alone picks the bank. */
  lemma WideGoesRound(g: Geometry, k: nat, h: nat)
    requires g.hashed && g.bw <= g.law && k == h * NBank(g)
    ensures GoesRound(g, k, h)
  {
    hide BankOf, NBank, Size, Xor, LocalOf;
    forall i: nat
      ensures BankOf(g, StridedAt(g, k, i)) == i * h % NBank(g)
    {
      WideStep(g, k, h, i);
    }
  }

  lemma WideStep(g: Geometry, k: nat, h: nat, i: nat)
    requires g.hashed && g.bw <= g.law && k == h * NBank(g)
    ensures BankOf(g, StridedAt(g, k, i)) == i * h % NBank(g)
  {
    hide BankOf, NBank, Size, Xor;
    var n := NBank(g);
    HashedBank(g, i * k);
    assert i * k == n * (i * h) by {
      assert i * (h * n) == i * h * n;
    }
    ModUnique(i * k, i * h, 0, n);
    assert n == Pow2(g.bw) by { hide Pow2; BankCount(g); }
    XorZero(g.bw, i * h % n);
  }

  lemma BankCount(g: Geometry)
    ensures NBank(g) == Pow2(g.bw)
  {
  }

  /** Under the hashed mapping, a pitch of `h` local rows conflicts as a pitch of `h` words does under
      the plain one. */
  lemma WideLaw(g: Geometry, h: nat, n: nat)
    requires g.hashed && g.bw <= g.law
    ensures DrainCycles(g, Strided(g, h * NBank(g), n)) == CeilDiv(n, Period(g.bw, h))
  {
    hide DrainCycles, Strided, CeilDiv, Period, NBank, GoesRound;
    WideGoesRound(g, h * NBank(g), h);
    RoundLaw(g, h * NBank(g), h, n);
  }

  /* ---- pitches of a power of two up to the number of banks ---- */

  /** `u` shifted left by `s` bits. */
  function ShiftLeft(u: nat, s: nat): nat {
    if s == 0 then u else 2 * ShiftLeft(u, s - 1)
  }

  lemma {:induction false} ShiftIsProduct(u: nat, s: nat)
    ensures ShiftLeft(u, s) == u * Pow2(s)
  {
    if s > 0 {
      ShiftIsProduct(u, s - 1);
      MulDouble(u, Pow2(s - 1));
    }
  }

  lemma HalfBelow(s: nat, w: nat)
    requires s > 0 && w < Pow2(s)
    ensures w / 2 < Pow2(s - 1)
  {
  }

  lemma ShiftStep(n: nat, x: nat, y: nat, a: nat, b: nat, c: nat, w: nat)
    requires n > 0 && x == 2 * a && y == 2 * b + w && Xor(n - 1, a, b + w / 2) == c + w / 2
    ensures Xor(n, x, y) == 2 * c + w
  {
    hide Xor;
    Halves(x, y, a, b, w);
    XorParts(n, x, y);
    Rejoin(Xor(n, x, y), c, w);
  }

  lemma Halves(x: int, y: int, a: int, b: int, w: nat)
    requires x == 2 * a && y == 2 * b + w
    ensures x / 2 == a && y / 2 == b + w / 2 && (x + y) % 2 == w % 2
  {
  }

  lemma Rejoin(z: nat, c: nat, w: nat)
    requires z / 2 == c + w / 2 && z % 2 == w % 2
    ensures z == 2 * c + w
  {
  }

  /** Shifted operands are hashed above the shift. */
  lemma {:induction false} XorOfShifted(s: nat, t: nat, u: nat, v: nat, w: nat)
    requires w < Pow2(s)
    ensures Xor(s + t, ShiftLeft(u, s), ShiftLeft(v, s) + w) == ShiftLeft(Xor(t, u, v), s) + w
  {
    if s > 0 {
      HalfBelow(s, w);
      XorOfShifted(s - 1, t, u, v, w / 2);
      hide Pow2, Xor;
      ShiftStep(s + t, ShiftLeft(u, s), ShiftLeft(v, s) + w, ShiftLeft(u, s - 1), ShiftLeft(v, s - 1),
        ShiftLeft(Xor(t, u, v), s - 1), w);
    }
  }

  lemma XorShift(s: nat, t: nat, u: nat, v: nat, w: nat)
    requires w < Pow2(s)
    ensures u * Pow2(s) >= 0 && v * Pow2(s) + w >= 0
    ensures Xor(s + t, u * Pow2(s), v * Pow2(s) + w) == Xor(t, u, v) * Pow2(s) + w
  {
    hide Pow2, Xor, ShiftLeft;
    ShiftIsProduct(u, s);
    ShiftIsProduct(v, s);
    ShiftIsProduct(Xor(t, u, v), s);
    XorOfShifted(s, t, u, v, w);
  }

  /** The position within block `q` of NBANK steps whose step goes to bank `b`. */
  function HitAt(s: nat, t: nat, q: nat, b: nat): (j: nat)
    ensures j < Pow2(t) * (b % Pow2(s) + 1)
  {
    MulMonotone(Pow2(t), 0, b % Pow2(s));
    DivNonNegative(b, Pow2(s));
    b % Pow2(s) * Pow2(t) + Xor(t, b / Pow2(s), q % Pow2(t))
  }

  /** Step j of block q at pitch 2^s. */
  lemma FineStep(g: Geometry, s: nat, t: nat, q: nat, j: nat)
    requires g.hashed && g.bw <= g.law && s + t == g.bw && j < NBank(g)
    ensures q * NBank(g) + j >= 0 && 0 <= j / Pow2(t) < Pow2(s)
    ensures BankOf(g, StridedAt(g, Pow2(s), q * NBank(g) + j)) == Xor(t, j % Pow2(t), q % Pow2(t)) * Pow2(s) + j / Pow2(t)
  {
    var n, S, T := NBank(g), Pow2(s), Pow2(t);
    Pow2Add(s, t);
    MulMonotone(n, 0, q);
    hide BankOf, NBank, Size, Xor, Pow2;
    var i := q * n + j;
    BankCount(g);
    HashedBank(g, i * S);
    FineOffset(i, j, q, S, T, n);
    var u, v, w := j % T, q % T, j / T;
    XorShift(s, t, u, v, w);
    assert LocalOf(g, i * S) == i * S / n by { LocalIs(g, i * S); }
  }

  lemma LocalIs(g: Geometry, a: nat)
    ensures LocalOf(g, a) == a / NBank(g)
  {
  }

  /** Offset and local row of step q * n + j at pitch S, with n = S * T banks. */
  lemma FineOffset(i: nat, j: nat, q: nat, S: nat, T: nat, n: nat)
    requires S > 0 && T > 0 && n == S * T && j < n && i == q * n + j
    ensures i * S >= 0 && i * S / n >= 0 && 0 <= j / T < S
    ensures i * S % n == j % T * S
    ensures i * S / n % n == q % T * S + j / T
  {
    MulMonotone(S, 0, i);
    DivNonNegative(i * S, n);
    RowOf(j, S, T);
    var c, r := j / T, j % T;
    var l := q * S + c;
    Regroup(i, j, q, S, T, n);
    ScaledSteps(i, l, r, S, T, n);
    ShortProduct(r, S, T, n);
    ModUnique(i * S, l, r * S, n);
    LocalRow(q, c, S, T, n);
  }

  lemma Regroup(i: nat, j: nat, q: nat, S: nat, T: nat, n: nat)
    requires T > 0 && n == S * T && i == q * n + j
    ensures i == T * (q * S + j / T) + j % T
  {
    assert q * n == T * (q * S) by { assert q * (S * T) == q * S * T; }
    assert T * (q * S + j / T) == T * (q * S) + T * (j / T);
  }

  lemma ScaledSteps(i: int, l: int, r: int, S: int, T: int, n: int)
    requires n == S * T && i == T * l + r
    ensures i * S == n * l + r * S
  {
    assert (T * l + r) * S == T * l * S + r * S;
    assert T * l * S == S * T * l;
  }

  lemma ShortProduct(r: nat, S: nat, T: nat, n: nat)
    requires r < T && n == S * T && S > 0
    ensures 0 <= r * S < n
  {
    MulMonotone(S, 0, r);
    MulMonotone(S, r + 1, T);
    assert S * (r + 1) == r * S + S;
  }

  lemma LocalRow(q: nat, c: nat, S: nat, T: nat, n: nat)
    requires c < S && n == S * T && T > 0
    ensures q * S + c >= 0 && (q * S + c) % n == q % T * S + c
  {
    MulMonotone(S, 0, q);
    var e, l := q / T, q % T;
    ShortProduct(l, S, T, n);
    MulMonotone(S, l + 1, T);
    assert S * (l + 1) == l * S + S;
    assert q * S + c == n * e + (l * S + c) by {
      assert q == T * e + l;
      assert S * (T * e) == n * e;
      assert q * S == S * (T * e) + l * S;
    }
    ModUnique(q * S + c, e, l * S + c, n);
  }

  lemma SplitEqual(a: int, b: int, c: int, d: int, m: int)
    requires 0 <= b < m && 0 <= d < m
    ensures a * m + b == c * m + d <==> a == c && b == d
  {
    DivModOfMulAdd(a, b, m);
    DivModOfMulAdd(c, d, m);
  }

  /** Hashing with `v` is one to one. */
  lemma XorCancels(t: nat, u: nat, v: nat, c: nat)
    requires u < Pow2(t) && c < Pow2(t)
    ensures Xor(t, u, v) == c <==> u == Xor(t, c, v)
  {
    hide Xor, Pow2;
    XorInvolutive(t, u, v);
    XorInvolutive(t, c, v);
  }

  /** Every block goes to every bank exactly once. */
  lemma OncePerBlock(g: Geometry, s: nat, t: nat, q: nat, j: nat, b: nat)
    requires g.hashed && g.bw <= g.law && s + t == g.bw && j < NBank(g) && b < NBank(g)
    ensures q * NBank(g) + j >= 0 && HitAt(s, t, q, b) < NBank(g)
    ensures BankOf(g, StridedAt(g, Pow2(s), q * NBank(g) + j)) == b <==> j == HitAt(s, t, q, b)
  {
    FineStep(g, s, t, q, j);
    Pow2Add(s, t);
    BankCount(g);
    hide BankOf, NBank, StridedAt, Pow2, Xor;
    var S, T := Pow2(s), Pow2(t);
    var u, v, c, d := j % T, q % T, b / S, b % S;
    assert T * S == S * T;
    RowOf(b, T, S);
    MulMonotone(T, d + 1, S);
    SplitEqual(Xor(t, u, v), j / T, c, d, S);
    SplitEqual(j / T, u, d, Xor(t, c, v), T);
    XorCancels(t, u, v, c);
    Rebuilt(b, S);
    Rebuilt(j, T);
  }

  lemma Rebuilt(x: int, m: int)
    requires m > 0
    ensures x == x / m * m + x % m
  {
  }

  /** After q whole blocks and r steps of the next one, bank b has been asked q times, and once more if
      its position has come. */
  lemma {:induction false} FineLoad(g: Geometry, s: nat, t: nat, q: nat, r: nat, b: nat)
    requires g.hashed && g.bw <= g.law && s + t == g.bw && r <= NBank(g) && b < NBank(g)
    ensures q * NBank(g) + r >= 0
    ensures Load(g, Strided(g, Pow2(s), q * NBank(g) + r), b) == q + if HitAt(s, t, q, b) < r then 1 else 0
    decreases q, r
  {
    MulMonotone(NBank(g), 0, q);
    hide BankOf, NBank, StridedAt, Pow2, HitAt;
    var k, n := Pow2(s), q * NBank(g) + r;
    if r > 0 {
      FineLoad(g, s, t, q, r - 1, b);
      OncePerBlock(g, s, t, q, r - 1, b);
      assert Strided(g, k, n) == Strided(g, k, n - 1) + [StridedAt(g, k, n - 1)];
      LoadAppend(g, Strided(g, k, n - 1), StridedAt(g, k, n - 1), b);
    } else if q > 0 {
      FineLoad(g, s, t, q - 1, NBank(g), b);
      OncePerBlock(g, s, t, q - 1, 0, b);
      assert (q - 1) * NBank(g) + NBank(g) == n;
    } else {
      assert Strided(g, k, n) == [];
    }
  }

  lemma BlocksOf(n: nat, m: nat)
    requires m > 0
    ensures n / m >= 0 && n == n / m * m + n % m
    ensures CeilDiv(n, m) == n / m + if n % m > 0 then 1 else 0
  {
    DivNonNegative(n, m);
    var q, r := n / m, n % m;
    assert n == m * q + r;
    if r > 0 {
      ModUnique(n + m - 1, q + 1, r - 1, m) by { assert m * (q + 1) == m * q + m; }
    } else {
      ModUnique(n + m - 1, q, m - 1, m);
    }
  }

  lemma FineBound(g: Geometry, s: nat, t: nat, n: nat, b: nat)
    requires g.hashed && g.bw <= g.law && s + t == g.bw && b < NBank(g)
    ensures Load(g, Strided(g, Pow2(s), n), b) <= CeilDiv(n, NBank(g))
  {
    hide NBank, Pow2, Strided, HitAt, CeilDiv, Load;
    var m := NBank(g);
    BlocksOf(n, m);
    FineLoad(g, s, t, n / m, n % m, b);
  }

  /** The bank that the last block, complete or not, begins with is asked most. */
  lemma FineBusiest(g: Geometry, s: nat, t: nat, n: nat) returns (b: nat)
    requires g.hashed && g.bw <= g.law && s + t == g.bw
    ensures b < NBank(g) && Load(g, Strided(g, Pow2(s), n), b) == CeilDiv(n, NBank(g))
  {
    hide NBank, Pow2, Strided, HitAt, CeilDiv, Load, StridedAt, BankOf;
    var m := NBank(g);
    BlocksOf(n, m);
    var q, r := n / m, n % m;
    MulMonotone(m, 0, q);
    b := BankOf(g, StridedAt(g, Pow2(s), q * m + 0));
    OncePerBlock(g, s, t, q, 0, b);
    FineLoad(g, s, t, q, r, b);
  }

  /** A pitch of 2^s words with 2^s at most the number of banks never conflicts within NBANK reads. */
  lemma FineLaw(g: Geometry, s: nat, n: nat)
    requires g.hashed && s <= g.bw <= g.law
    ensures DrainCycles(g, Strided(g, Pow2(s), n)) == CeilDiv(n, NBank(g))
  {
    hide NBank, Pow2, CeilDiv, Load, DrainCycles, StridedAt, BankOf;
    var reqs := Strided(g, Pow2(s), n);
    DrainTimeIsBusiestBank(g, reqs);
    var b := FineBusiest(g, s, g.bw - s, n);
    assert Load(g, reqs, b) <= DrainCycles(g, reqs);
    if reqs != [] {
      var c: nat :| c < NBank(g) && Load(g, reqs, c) == DrainCycles(g, reqs);
      FineBound(g, s, g.bw - s, n, c);
    } else {
      NothingToDrain(g, reqs);
    }
  }

  /* ---- the law ---- */

  lemma {:induction false} PeriodOfPower(bw: nat, t: nat)
    ensures Period(bw, Pow2(t)) == if t <= bw then Pow2(bw - t) else 1
  {
    if bw > 0 && t > 0 {
      assert Pow2(t) == 2 * Pow2(t - 1);
      PeriodOfPower(bw - 1, t - 1);
    }
  }

  /** Reads that one cycle can serve at most, at a pitch of 2^s words under the hashed mapping. */
  function HashedPeriod(bw: nat, s: nat): (r: nat)
    ensures r >= 1
  {
    if s <= bw then Pow2(bw) else if s <= 2 * bw then Pow2(2 * bw - s) else 1
  }

  lemma WidePower(bw: nat, s: nat)
    requires s > bw
    ensures Pow2(s - bw) * Pow2(bw) == Pow2(s) && Period(bw, Pow2(s - bw)) == HashedPeriod(bw, s)
  {
    Pow2Add(s - bw, bw);
    PeriodOfPower(bw, s - bw);
    hide Pow2, Period;
    assert bw - (s - bw) == 2 * bw - s;
  }

  /** `n` reads at a pitch of 2^s words under the hashed mapping. */
  lemma HashedStrideLaw(g: Geometry, s: nat, n: nat)
    requires g.hashed && g.bw <= g.law
    ensures DrainCycles(g, Strided(g, Pow2(s), n)) == CeilDiv(n, HashedPeriod(g.bw, s))
  {
    hide CeilDiv, DrainCycles, Strided, Pow2, Period, NBank;
    if s <= g.bw {
      BankCount(g);
      FineLaw(g, s, n);
    } else {
      WidePower(g.bw, s);
      BankCount(g);
      WideLaw(g, Pow2(s - g.bw), n);
    }
  }

  /** With no more reads than banks: one cycle while the hash sees every bit of the step, ever fewer
      banks as the pitch moves out of its window, one bank once it has left it. */
  lemma HashWindow(g: Geometry, s: nat, n: nat)
    requires g.hashed && g.bw <= g.law && 0 < n <= NBank(g)
    ensures s <= g.bw ==> DrainCycles(g, Strided(g, Pow2(s), n)) == 1
    ensures g.bw <= s <= 2 * g.bw ==> DrainCycles(g, Strided(g, Pow2(s), n)) == CeilDiv(n, Pow2(2 * g.bw - s))
    ensures s >= 2 * g.bw ==> DrainCycles(g, Strided(g, Pow2(s), n)) == n
  {
    HashedStrideLaw(g, s, n);
    BankCount(g);
    assert Pow2(0) == 1;
    hide DrainCycles, Strided, Pow2, NBank;
    if s <= g.bw {
      ModUnique(n + Pow2(g.bw) - 1, 1, n - 1, Pow2(g.bw));
    }
  }

  /* ---- two operands in one set of banks ---- */

  lemma {:induction false} LoadConcat(g: Geometry, xs: seq<nat>, ys: seq<nat>, b: nat)
    ensures Load(g, xs + ys, b) == Load(g, xs, b) + Load(g, ys, b)
    decreases xs
  {
    hide BankOf;
    if xs == [] {
      assert xs + ys == ys;
    } else {
      assert (xs + ys)[1..] == xs[1..] + ys;
      LoadConcat(g, xs[1..], ys, b);
    }
  }

  /** Bank 0 is a busiest one. */
  ghost predicate ZeroBusiest(g: Geometry, reqs: seq<nat>) { Load(g, reqs, 0) == DrainCycles(g, reqs) }

  /** Two batches that are both busiest in bank 0 take as long together as one after the other. */
  lemma OperandsCollide(g: Geometry, xs: seq<nat>, ys: seq<nat>)
    requires ZeroBusiest(g, xs) && ZeroBusiest(g, ys)
    ensures DrainCycles(g, xs + ys) == DrainCycles(g, xs) + DrainCycles(g, ys)
  {
    hide BankOf, DrainCycles, Load, NBank;
    DrainTimeIsBusiestBank(g, xs);
    DrainTimeIsBusiestBank(g, ys);
    DrainTimeIsBusiestBank(g, xs + ys);
    LoadConcat(g, xs, ys, 0);
    assert Load(g, xs + ys, 0) <= DrainCycles(g, xs + ys);
    if xs + ys != [] {
      var b: nat :| b < NBank(g) && Load(g, xs + ys, b) == DrainCycles(g, xs + ys);
      LoadConcat(g, xs, ys, b);
      assert Load(g, xs, b) <= DrainCycles(g, xs) && Load(g, ys, b) <= DrainCycles(g, ys);
    } else {
      assert xs == [] && ys == [];
      NothingToDrain(g, xs + ys);
    }
  }

  /** Strided reads from address 0 on, up to one for each bank where the steps do not just go round. */
  lemma StridesCollide(g: Geometry, k: nat, n: nat)
    requires n > 0 && (!g.hashed || (g.bw <= g.law && ((exists h: nat :: k == h * NBank(g)) || (n <= NBank(g) && exists s: nat :: s <= g.bw && k == Pow2(s)))))
    ensures ZeroBusiest(g, Strided(g, k, n))
  {
    hide BankOf, DrainCycles, Load, NBank, Strided, Pow2, CeilDiv, Period, GoesRound;
    if !g.hashed {
      PlainGoesRound(g, k);
      RoundBusiest(g, k, k, n);
    } else if h: nat :| k == h * NBank(g) {
      WideGoesRound(g, k, h);
      RoundBusiest(g, k, h, n);
    } else {
      var s: nat :| s <= g.bw && k == Pow2(s);
      FineBusiestZero(g, s, n);
    }
  }

  lemma RoundBusiest(g: Geometry, k: nat, h: nat, n: nat)
    requires GoesRound(g, k, h) && n > 0
    ensures ZeroBusiest(g, Strided(g, k, n))
  {
    hide BankOf, DrainCycles, Load, NBank, Strided, CeilDiv, Period, GoesRound;
    RoundLaw(g, k, h, n);
    BankZeroLoad(g, k, h, n);
  }

  lemma FineBusiestZero(g: Geometry, s: nat, n: nat)
    requires g.hashed && s <= g.bw <= g.law && 0 < n <= NBank(g)
    ensures ZeroBusiest(g, Strided(g, Pow2(s), n))
  {
    hide BankOf, DrainCycles, Load, NBank, Strided, StridedAt, Pow2;
    HashWindow(g, s, n);
    FineLoad(g, s, g.bw - s, 0, n, 0);
    FirstHitsZero(s, g.bw - s);
  }

  lemma FirstHitsZero(s: nat, t: nat)
    ensures HitAt(s, t, 0, 0) == 0
  {
    XorZero(t, 0);
  }

  /* ---- the comparison of section 6.3 ---- */

  lemma Powers()
    ensures Pow2(0) == 1 && Pow2(3) == 8 && Pow2(5) == 32 && Pow2(7) == 128 && Pow2(10) == 1024
  {
    assert Pow2(4) == 16 && Pow2(6) == 64 && Pow2(8) == 256 && Pow2(9) == 512;
  }

  lemma Periods()
    ensures Period(5, 128) == 1 && Period(5, 129) == 32 && Period(5, 1) == 32
  {
    Powers();
    assert Period(2, 16) == 1 && Period(3, 32) == 1 && Period(4, 64) == 1;
  }

  /** 16 reads of A at the given pitch, alone and with 16 consecutive reads of B behind them. */
  lemma TableEntry(g: Geometry, k: nat, alone: nat)
    requires NBank(g) == 32 && DrainCycles(g, Strided(g, k, 16)) == alone
    requires ZeroBusiest(g, Strided(g, k, 16)) && ZeroBusiest(g, Strided(g, 1, 16)) && DrainCycles(g, Strided(g, 1, 16)) == 1
    ensures DrainCycles(g, Strided(g, k, 16) + Strided(g, 1, 16)) == alone + 1
  {
    hide DrainCycles, Strided, ZeroBusiest, NBank;
    OperandsCollide(g, Strided(g, k, 16), Strided(g, 1, 16));
  }

  /** 32 banks: 16 and 17 cycles at a pitch of 128 under the plain mapping, 1 and 2 with the pitch padded
      to 129. */
  lemma PlainTable(law: nat)
    ensures var g := Geometry(5, law, false);
      && DrainCycles(g, Strided(g, 128, 16)) == 16 && DrainCycles(g, Strided(g, 128, 16) + Strided(g, 1, 16)) == 17
      && DrainCycles(g, Strided(g, 129, 16)) == 1 && DrainCycles(g, Strided(g, 129, 16) + Strided(g, 1, 16)) == 2
  {
    var g := Geometry(5, law, false);
    Powers();
    Periods();
    BankCount(g);
    hide DrainCycles, Strided, ZeroBusiest, NBank, Pow2, Period;
    StrideLaw(g, 128, 16);
    StrideLaw(g, 129, 16);
    StrideLaw(g, 1, 16);
    StridesCollide(g, 128, 16);
    StridesCollide(g, 129, 16);
    StridesCollide(g, 1, 16);
    TableEntry(g, 128, 16);
    TableEntry(g, 129, 1);
  }

  /** The hash takes 2 and 3 cycles at a pitch of 128, and serialises a pitch of 1024. */
  lemma HashedTable(law: nat)
    requires law >= 5
    ensures var g := Geometry(5, law, true);
      && DrainCycles(g, Strided(g, 128, 16)) == 2 && DrainCycles(g, Strided(g, 128, 16) + Strided(g, 1, 16)) == 3
      && DrainCycles(g, Strided(g, 1024, 16)) == 16
  {
    var g := Geometry(5, law, true);
    Powers();
    BankCount(g);
    hide DrainCycles, Strided, ZeroBusiest, NBank, Pow2;
    HashWindow(g, 7, 16);
    HashWindow(g, 10, 16);
    HashWindow(g, 0, 16);
    assert 128 == 4 * NBank(g);
    StridesCollide(g, 128, 16);
    assert 0 <= g.bw && 1 == Pow2(0);
    StridesCollide(g, 1, 16);
    TableEntry(g, 128, 2);
  }
}

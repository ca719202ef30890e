/** A clean hazard report makes the order inside every SYNC-free segment irrelevant. */
module HazardSoundness {
  import opened Types
  import opened Machine
  import opened HazardChecker
  import opened Footprints
  import opened Commutation

  /* ---- segments and reorderings ---- */

  /** The program cut at its SYNCs. */
  function Segments(p: seq<Instr>): (r: seq<seq<Instr>>)
    ensures |r| >= 1
  {
    if p == [] then [[]]
    else
      var rest := Segments(p[1..]);
      if p[0] == Sync then [[]] + rest else [[p[0]] + rest[0]] + rest[1..]
  }

  /** The same SYNCs, with the instructions between two of them in any order. */
  ghost predicate Reordered(p: seq<Instr>, q: seq<Instr>) {
    && |Segments(p)| == |Segments(q)|
    && forall k | 0 <= k < |Segments(p)| :: multiset(Segments(p)[k]) == multiset(Segments(q)[k])
  }

  function RunSegments<F>(f: Fpu<F>, m: Mem, segments: seq<seq<Instr>>): Option<Mem>
    decreases segments
  {
    if segments == [] then Some(m)
    else
      var r := Run(f, m, segments[0]);
      if r.Some? then RunSegments(f, r.value, segments[1..]) else None
  }

  /** On the in-order machine a SYNC does nothing. */
  lemma {:induction false} SyncIsNoOp<F>(f: Fpu<F>, m: Mem, p: seq<Instr>)
    ensures Run(f, m, p) == RunSegments(f, m, Segments(p))
    decreases p
  {
    if p == [] {
      assert Segments(p)[1..] == [];
    } else {
      var rest := Segments(p[1..]);
      if p[0] == Sync {
        assert Exec(f, m, Sync) == Some(m);
        assert ([[]] + rest)[1..] == rest;
        SyncIsNoOp(f, m, p[1..]);
      } else {
        var first := [p[0]] + rest[0];
        assert Segments(p) == [first] + rest[1..] && ([first] + rest[1..])[1..] == rest[1..];
        assert first[1..] == rest[0];
        var next := Exec(f, m, p[0]);
        if next.Some? {
          SyncIsNoOp(f, next.value, p[1..]);
        }
      }
    }
  }

  /* ---- a clean report, segment by segment ---- */

  ghost predicate NoOverlap(xs: seq<Access>, ys: seq<Access>) {
    forall x, y | x in xs && y in ys :: !Overlap(x.ranges, y.ranges)
  }

  /** What the checker compares for a later instruction `j` against an earlier one `i`. */
  ghost predicate Clear(i: Instr, j: Instr) {
    NoOverlap(Reads(j), Writes(i)) && NoOverlap(Writes(j), Reads(i)) && NoOverlap(Writes(j), Writes(i))
  }

  ghost predicate PairwiseClear(s: seq<Instr>) { forall a, b | 0 <= a < b < |s| :: Clear(s[a], s[b]) }

  lemma CleanPairs(p: seq<Instr>, a: nat, b: nat)
    requires Clean(p) && a < b < |p| && forall k | a <= k <= b :: p[k] != Sync
    ensures Clear(p[a], p[b])
  {
    hide Overlap, Reads, Writes;
    forall x, y | x in Reads(p[b]) && y in Writes(p[a])
      ensures !Overlap(x.ranges, y.ranges)
    {
      assert !IsHazard(p, Violation(b, RAW, x.name, a, y.name));
    }
    forall x, y | x in Writes(p[b]) && y in Reads(p[a])
      ensures !Overlap(x.ranges, y.ranges)
    {
      assert !IsHazard(p, Violation(b, WAR, x.name, a, y.name));
    }
    forall x, y | x in Writes(p[b]) && y in Writes(p[a])
      ensures !Overlap(x.ranges, y.ranges)
    {
      assert !IsHazard(p, Violation(b, WAW, x.name, a, y.name));
    }
  }

  lemma {:induction false} FirstSegment(p: seq<Instr>)
    ensures var s := Segments(p)[0];
      |s| <= |p| && s == p[..|s|] && Sync !in s
  {
    if p != [] && p[0] != Sync {
      FirstSegment(p[1..]);
    }
  }

  lemma {:induction false} CleanSegments(p: seq<Instr>)
    requires Clean(p)
    ensures forall s | s in Segments(p) :: PairwiseClear(s)
  {
    hide Clear;
    if p != [] {
      CleanTail(p);
      CleanSegments(p[1..]);
      if p[0] != Sync {
        var rest := Segments(p[1..]);
        var first := [p[0]] + rest[0];
        FirstSegment(p[1..]);
        forall b | 1 <= b < |first|
          ensures Clear(p[0], first[b])
        {
          assert forall k | 0 < k <= b :: p[k] == rest[0][k - 1];
          CleanPairs(p, 0, b);
        }
        forall a, b | 0 <= a < b < |first|
          ensures Clear(first[a], first[b])
        {
          if a > 0 {
            assert PairwiseClear(rest[0]);
          }
        }
      }
    }
  }

  lemma CleanTail(p: seq<Instr>)
    requires p != [] && Clean(p)
    ensures Clean(p[1..])
  {
    hide IsHazard;
    forall v
      ensures !IsHazard(p[1..], v)
    {
      if IsHazard(p[1..], v) {
        HazardShifts(p, v);
      }
    }
  }

  lemma HazardShifts(p: seq<Instr>, v: Violation)
    requires p != [] && IsHazard(p[1..], v)
    ensures IsHazard(p, v.(index := v.index + 1, prev := v.prev + 1))
  {
    hide Overlap, Reads, Writes;
    var t, w := p[1..], v.(index := v.index + 1, prev := v.prev + 1);
    assert forall k | w.prev <= k <= w.index :: p[k] == t[k - 1];
  }

  lemma ClearIsIndependent(i: Instr, j: Instr)
    requires Clear(i, j)
    ensures Independent(i, j) && Independent(j, i)
  {
    hide Reads, Writes;
    NoOverlapDisjoint(Reads(j), Writes(i));
    NoOverlapDisjoint(Writes(j), Reads(i));
    NoOverlapDisjoint(Writes(j), Writes(i));
  }

  lemma NoOverlapDisjoint(xs: seq<Access>, ys: seq<Access>)
    requires NoOverlap(xs, ys)
    ensures Disjoint(Cells(xs), Cells(ys)) && Disjoint(Cells(ys), Cells(xs))
  {
  }

  /* ---- permutations of one segment ---- */

  ghost predicate AllPlain(p: seq<Instr>) { forall i | i in p :: Plain(i) }

  function Without(s: seq<Instr>, k: nat): seq<Instr>
    requires k < |s|
  {
    s[..k] + s[k + 1..]
  }

  lemma {:induction false} MoveToFront<F>(f: Fpu<F>, m: Mem, s: seq<Instr>, k: nat)
    requires Full(m) && k < |s| && AllPlain(s) && PairwiseClear(s)
    ensures Run(f, m, s) == Run(f, m, [s[k]] + Without(s, k))
    decreases s
  {
    hide Full, Exec, Clear, Plain;
    if k == 0 {
      assert [s[0]] + Without(s, 0) == s;
    } else {
      var x, y, rest := s[k], s[0], Without(s[1..], k - 1);
      assert Without(s, k) == [y] + rest;
      assert ([x] + ([y] + rest))[1..] == [y] + rest && ([y] + rest)[1..] == rest && ([x] + rest)[1..] == rest;
      assert Plain(x) && Plain(y) && Clear(y, x);
      ClearIsIndependent(y, x);
      IndependentCommute(f, m, y, x);
      var r := Exec(f, m, y);
      if r.Some? {
        ExecFrame(f, m, y);
        assert s[1..][k - 1] == x;
        MoveToFront(f, r.value, s[1..], k - 1);
      }
    }
  }

  lemma WithoutKeeps(s: seq<Instr>, k: nat)
    requires k < |s| && AllPlain(s) && PairwiseClear(s)
    ensures AllPlain(Without(s, k)) && PairwiseClear(Without(s, k))
    ensures multiset(Without(s, k)) == multiset(s) - multiset{s[k]}
  {
    hide Plain, Clear;
    var t := Without(s, k);
    assert s == s[..k] + ([s[k]] + s[k + 1..]);
    forall a, b | 0 <= a < b < |t|
      ensures Clear(t[a], t[b])
    {
      assert t[a] == s[if a < k then a else a + 1] && t[b] == s[if b < k then b else b + 1];
    }
  }

  /** A segment of pairwise clear instructions gives the same result in every order. */
  lemma {:induction false} OrderIrrelevant<F>(f: Fpu<F>, m: Mem, s: seq<Instr>, t: seq<Instr>)
    requires Full(m) && AllPlain(s) && PairwiseClear(s) && multiset(s) == multiset(t)
    ensures Run(f, m, s) == Run(f, m, t)
    ensures Run(f, m, s).Some? ==> Full(Run(f, m, s).value)
    decreases |t|
  {
    hide Full, Exec, Plain, PairwiseClear, AllPlain;
    if t == [] {
      assert |s| == |multiset(s)| == 0;
    } else {
      assert t[0] in multiset(t);
      var k :| 0 <= k < |s| && s[k] == t[0];
      MoveToFront(f, m, s, k);
      WithoutKeeps(s, k);
      assert t == [t[0]] + t[1..];
      assert ([s[k]] + Without(s, k))[1..] == Without(s, k);
      var r := Exec(f, m, t[0]);
      PlainAt(s, k);
      if r.Some? {
        ExecFrame(f, m, t[0]);
        OrderIrrelevant(f, r.value, Without(s, k), t[1..]);
      }
    }
  }

  lemma PlainAt(s: seq<Instr>, k: nat)
    requires k < |s| && AllPlain(s)
    ensures Plain(s[k])
  {
  }

  lemma {:induction false} SegmentsInAnyOrder<F>(f: Fpu<F>, m: Mem, ps: seq<seq<Instr>>, qs: seq<seq<Instr>>)
    requires Full(m) && |ps| == |qs|
    requires forall k | 0 <= k < |ps| :: AllPlain(ps[k]) && PairwiseClear(ps[k]) && multiset(ps[k]) == multiset(qs[k])
    ensures RunSegments(f, m, ps) == RunSegments(f, m, qs)
    decreases ps
  {
    hide Full, Run, AllPlain, PairwiseClear;
    if ps != [] {
      OrderIrrelevant(f, m, ps[0], qs[0]);
      var r := Run(f, m, ps[0]);
      if r.Some? {
        SegmentsInAnyOrder(f, r.value, ps[1..], qs[1..]);
      }
    }
  }

  lemma {:induction false} SegmentsOf(p: seq<Instr>)
    ensures forall s, i | s in Segments(p) && i in s :: i in p
  {
    if p != [] {
      SegmentsOf(p[1..]);
      var rest := Segments(p[1..]);
      assert rest[0] in rest;
      forall s, i | s in Segments(p) && i in s
        ensures i in p
      {
        if s in rest {
          assert i in p[1..];
        } else if s != [] {
          assert s == [p[0]] + rest[0];
        }
      }
    }
  }

  /** If the checker reports nothing, every reordering of the instructions inside the SYNC-free
      segments leaves the memory of the in-order run, and aborts exactly when it does. */
  lemma {:induction false} CleanMeansOrderFree<F>(f: Fpu<F>, m: Mem, p: seq<Instr>, q: seq<Instr>)
    requires Full(m) && Clean(p) && AllPlain(p) && Reordered(p, q)
    ensures Run(f, m, p) == Run(f, m, q)
  {
    hide Full, Run, Plain, PairwiseClear, IsHazard;
    CleanSegments(p);
    SegmentsOf(p);
    forall k | 0 <= k < |Segments(p)|
      ensures AllPlain(Segments(p)[k])
    {
      assert Segments(p)[k] in Segments(p);
    }
    SegmentsInAnyOrder(f, m, Segments(p), Segments(q));
    SyncIsNoOp(f, m, p);
    SyncIsNoOp(f, m, q);
  }
}

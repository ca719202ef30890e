/** The static hazard checker `tools/hazard_check.py`: footprints as byte intervals, and the loop
    that compares every instruction with those still active since the last SYNC. */
module HazardChecker {
  import opened Types
  import opened Machine

  /** A half-open byte interval. */
  datatype Interval = Interval(lo: int, hi: int)

  datatype Access = Access(name: string, ranges: seq<Interval>)

  function TileRanges(base: int, rows: nat, cols: nat, stride: nat): seq<Interval> {
    seq(rows, r requires r >= 0 => Interval(base + r * stride, base + r * stride + cols * 2))
  }

  predicate Overlap(a: seq<Interval>, b: seq<Interval>) {
    exists i, j | 0 <= i < |a| && 0 <= j < |b| :: a[i].lo < b[j].hi && b[j].lo < a[i].hi
  }

  function Block(base: int, elems: nat): seq<Interval> { [Interval(base, base + elems * 2)] }

  function RhsElems(d: EwiseParam): nat { d.rhsBlk * (if d.rhsStride != 0 then d.rows else 1) }

  /** parse_instruction: what an instruction reads. */
  function Reads(i: Instr): seq<Access> {
    match i
    case DmaLoad(d) => [Access("DDR", TileRanges(d.ddrAddr, d.rows, d.cols, d.srcStride))]
    case DmaStore(d) => [Access("SRAM", TileRanges(d.sramAddr, d.rows, d.cols, d.srcStride))]
    case Matmul(d) =>
      [Access("lhs", Block(d.lhsAddr, d.M * d.K)), Access("rhs", Block(d.rhsAddr, d.K * d.N))] +
      (if d.accumulate != 0 then [Access("dst", Block(d.dstAddr, d.M * d.N))] else [])
    case Ewise(_, d) =>
      [Access("lhs", Block(d.lhsAddr, d.rows * d.cols)), Access("rhs", Block(d.rhsAddr, RhsElems(d)))]
    case Act(d) => [Access("src", Block(d.srcAddr, d.n))]
    case Reduce(d) => [Access("src", Block(d.srcAddr, d.rows * d.cols))]
    case Sync => []
  }

  /** parse_instruction: what an instruction writes. */
  function Writes(i: Instr): seq<Access> {
    match i
    case DmaLoad(d) => [Access("SRAM", TileRanges(d.sramAddr, d.rows, d.cols, d.dstStride))]
    case DmaStore(d) => [Access("DDR", TileRanges(d.ddrAddr, d.rows, d.cols, d.dstStride))]
    case Matmul(d) => [Access("dst", Block(d.dstAddr, d.M * d.N))]
    case Ewise(_, d) => [Access("dst", Block(d.dstAddr, d.rows * d.cols))]
    case Act(d) => [Access("dst", Block(d.dstAddr, d.n))]
    case Reduce(d) =>
      [Access("dst", Block(d.dstAddr, d.rows))] +
      (if d.kind == 3 then [Access("idx", Block(d.idxAddr, 2 * d.rows))] else [])
    case Sync => []
  }

  datatype Hazard = RAW | WAR | WAW

  /** One reported violation: the access `name` of instruction `index` against the access
      `prevName` of the earlier instruction `prev`. */
  datatype Violation = Violation(index: nat, hazard: Hazard, name: string, prev: nat, prevName: string)

  datatype Active = Active(index: nat, write: bool, access: Access)

  /** What a violation of this kind means: two overlapping accesses of two instructions with no
      SYNC between them. */
  ghost predicate IsHazard(p: seq<Instr>, v: Violation) {
    && v.prev < v.index < |p|
    && (forall k | v.prev <= k <= v.index :: p[k] != Sync)
    && exists a, b ::
        && a in (if v.hazard == RAW then Reads(p[v.index]) else Writes(p[v.index])) && a.name == v.name
        && b in (if v.hazard == WAR then Reads(p[v.prev]) else Writes(p[v.prev])) && b.name == v.prevName
        && Overlap(a.ranges, b.ranges)
  }

  /* ---- the loop ---- */

  method RangesOverlap(a: seq<Interval>, b: seq<Interval>) returns (r: bool)
    ensures r == Overlap(a, b)
  {
    for i := 0 to |a|
      invariant forall k, j | 0 <= k < i && 0 <= j < |b| :: !(a[k].lo < b[j].hi && b[j].lo < a[k].hi)
    {
      for j := 0 to |b|
        invariant forall k | 0 <= k < j :: !(a[i].lo < b[k].hi && b[k].lo < a[i].hi)
      {
        if a[i].lo < b[j].hi && b[j].lo < a[i].hi {
          return true;
        }
      }
    }
    return false;
  }

  /** Accesses still active before instruction `n`. */
  ghost predicate IsActive(p: seq<Instr>, n: nat, x: Active)
    requires n <= |p|
  {
    && x.index < n
    && (forall k | x.index <= k < n :: p[k] != Sync)
    && x.access in (if x.write then Writes(p[x.index]) else Reads(p[x.index]))
  }

  /** The hazard of a current access against an active one, if their kinds conflict at all. */
  function Classify(write: bool, prevWrite: bool): Option<Hazard> {
    if !write then (if prevWrite then Some(RAW) else None)
    else if prevWrite then Some(WAW) else Some(WAR)
  }

  ghost predicate Conflicts(index: nat, write: bool, a: Access, x: Active, v: Violation) {
    && Classify(write, x.write) == Some(v.hazard) && Overlap(a.ranges, x.access.ranges)
    && v == Violation(index, v.hazard, a.name, x.index, x.access.name)
  }

  /** One access of the current instruction against the whole active list. */
  method CheckAccess(index: nat, write: bool, a: Access, active: seq<Active>) returns (found: seq<Violation>)
    ensures forall v :: v in found <==> exists x | x in active :: Conflicts(index, write, a, x, v)
  {
    found := [];
    for j := 0 to |active|
      invariant forall v :: v in found <==> exists k | 0 <= k < j :: Conflicts(index, write, a, active[k], v)
    {
      var x := active[j];
      var kind := Classify(write, x.write);
      if kind.Some? {
        var hit := RangesOverlap(a.ranges, x.access.ranges);
        if hit {
          found := found + [Violation(index, kind.value, a.name, x.index, x.access.name)];
        }
      }
    }
  }

  method CheckAccesses(index: nat, write: bool, accesses: seq<Access>, active: seq<Active>)
    returns (found: seq<Violation>)
    ensures forall v :: v in found <==>
      exists a, x | a in accesses && x in active :: Conflicts(index, write, a, x, v)
  {
    found := [];
    for j := 0 to |accesses|
      invariant forall v :: v in found <==>
        exists k, x | 0 <= k < j && x in active :: Conflicts(index, write, accesses[k], x, v)
    {
      var more := CheckAccess(index, write, accesses[j], active);
      found := found + more;
    }
  }

  method Activate(index: nat, write: bool, accesses: seq<Access>) returns (r: seq<Active>)
    ensures forall x :: x in r <==> x.index == index && x.write == write && x.access in accesses
  {
    r := [];
    for j := 0 to |accesses|
      invariant forall x :: x in r <==> x.index == index && x.write == write && x.access in accesses[..j]
    {
      r := r + [Active(index, write, accesses[j])];
    }
    assert accesses[..|accesses|] == accesses;
  }

  /** What instruction `n` is reported for. */
  method CheckInstruction(p: seq<Instr>, n: nat, active: seq<Active>) returns (found: seq<Violation>)
    requires n < |p| && p[n] != Sync && forall x :: x in active <==> IsActive(p, n, x)
    ensures forall v :: v in found <==> v.index == n && IsHazard(p, v)
  {
    hide IsHazard, IsActive, Conflicts;
    var raw := CheckAccesses(n, false, Reads(p[n]), active);
    var waw := CheckAccesses(n, true, Writes(p[n]), active);
    ReportIsExact(p, n, active, raw, waw);
    found := raw + waw;
  }

  /** The active list after instruction `n`. */
  lemma ActiveNext(p: seq<Instr>, n: nat, next: nat)
    requires n < |p| && next == n + 1
    ensures p[n] == Sync ==> forall x :: !IsActive(p, next, x)
    ensures p[n] != Sync ==> forall x :: IsActive(p, next, x) <==>
      (IsActive(p, n, x) || (x.index == n && x.access in (if x.write then Writes(p[n]) else Reads(p[n]))))
  {
    hide Reads, Writes;
  }

  /** The checker's report: exactly the hazards of the program. */
  method Check(p: seq<Instr>) returns (violations: seq<Violation>)
    ensures forall v :: v in violations <==> IsHazard(p, v)
  {
    hide IsHazard, IsActive;
    var active: seq<Active> := [];
    violations := [];
    NothingActive(p);
    for n := 0 to |p|
      invariant forall x :: x in active <==> IsActive(p, n, x)
      invariant forall v :: v in violations <==> v.index < n && IsHazard(p, v)
    {
      ActiveNext(p, n, n + 1);
      if p[n] == Sync {
        active := [];
        NoHazardAtSync(p, n);
      } else {
        var found := CheckInstruction(p, n, active);
        var r := Activate(n, false, Reads(p[n]));
        var w := Activate(n, true, Writes(p[n]));
        violations := violations + found;
        active := active + r + w;
      }
    }
    HazardsInside(p);
  }

  lemma NothingActive(p: seq<Instr>)
    ensures forall x :: !IsActive(p, 0, x)
  {
  }

  lemma NoHazardAtSync(p: seq<Instr>, n: nat)
    requires n < |p| && p[n] == Sync
    ensures forall v: Violation :: v.index == n ==> !IsHazard(p, v)
  {
  }

  lemma HazardsInside(p: seq<Instr>)
    ensures forall v: Violation :: IsHazard(p, v) ==> v.index < |p|
  {
  }

  lemma ReportIsExact(p: seq<Instr>, n: nat, active: seq<Active>, raw: seq<Violation>, waw: seq<Violation>)
    requires n < |p| && p[n] != Sync
    requires forall x :: x in active <==> IsActive(p, n, x)
    requires forall v :: v in raw <==>
      exists a, x | a in Reads(p[n]) && x in active :: Conflicts(n, false, a, x, v)
    requires forall v :: v in waw <==>
      exists a, x | a in Writes(p[n]) && x in active :: Conflicts(n, true, a, x, v)
    ensures forall v :: v in raw + waw <==> v.index == n && IsHazard(p, v)
  {
    hide Overlap, Reads, Writes;
    forall v
      ensures v in raw + waw <==> v.index == n && IsHazard(p, v)
    {
      if v.index == n && IsHazard(p, v) {
        var a, b :|
          && a in (if v.hazard == RAW then Reads(p[v.index]) else Writes(p[v.index])) && a.name == v.name
          && b in (if v.hazard == WAR then Reads(p[v.prev]) else Writes(p[v.prev])) && b.name == v.prevName
          && Overlap(a.ranges, b.ranges);
        var x := Active(v.prev, v.hazard != WAR, b);
        assert IsActive(p, n, x);
        assert Conflicts(n, v.hazard != RAW, a, x, v);
      }
    }
  }

  /** A clean report. */
  ghost predicate Clean(p: seq<Instr>) { forall v :: !IsHazard(p, v) }
}

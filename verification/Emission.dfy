/** Addresses and instructions: the bump allocator and DDR slots of `EclipseAllocate`, and the
    descriptor fields that the emitters of `EclipseToEasm` derive from them. */
module Emission {
  import opened Arithmetic
  import opened Types
  import opened Machine
  import opened EclipseIR

  const SRAM_ALIGNMENT := 32
  const DDR_STRIDE := 0x1_0000

  /** Slots between the command queue area and the end of DDR. */
  const MAX_ROOTS := 0x7FFF

  function AlignTo(a: nat, alignment: nat): (r: nat)
    requires alignment > 0
    ensures a <= r < a + alignment && r % alignment == 0
  {
    AlignToBounds(a, alignment);
    CeilDiv(a, alignment) * alignment
  }

  lemma AlignToBounds(a: nat, alignment: nat)
    requires alignment > 0
    ensures var r := CeilDiv(a, alignment) * alignment; a <= r < a + alignment && r % alignment == 0 && r >= 0
    ensures CeilDiv(a, alignment) >= 0
  {
    var q := (a + alignment - 1) / alignment;
    DivNonNegative(a + alignment - 1, alignment);
    assert a + alignment - 1 == alignment * q + (a + alignment - 1) % alignment;
    assert q * alignment == alignment * q;
    ModUnique(q * alignment, q, 0, alignment);
  }

  /** The blocks lie between `lo` and `hi`, one behind the other. */
  ghost predicate InOrder(blocks: seq<(int, int)>, lo: int, hi: int) {
    && lo <= hi
    && (forall i | 0 <= i < |blocks| :: lo <= blocks[i].0 <= blocks[i].1 <= hi)
    && (forall i, j | 0 <= i < j < |blocks| :: blocks[i].1 <= blocks[j].0)
  }

  lemma OneBlockMore(blocks: seq<(int, int)>, lo: int, hi: int, start: int, end: int)
    requires InOrder(blocks, lo, hi) && hi <= start <= end
    ensures InOrder(blocks + [(start, end)], lo, end)
  {
  }

  lemma NoWrap(x: nat)
    ensures x < TWO_32 ==> U32(x) == x
  {
  }

  /** The bump allocator. All its sums are 32 bits wide. */
  class SramAllocator {
    const base: Dword
    const size: Dword
    var next: Dword
    /** Every block handed out so far, as (start, end). */
    ghost var blocks: seq<(int, int)>

    /** The blocks lie inside the memory, one behind the other and in front of `next`. */
    ghost predicate Packed()
      reads this
    {
      next <= base + size < TWO_32 && InOrder(blocks, base, next)
    }

    constructor (base: Dword, size: Dword)
      ensures this.base == base && this.size == size && next == base && blocks == []
      ensures base + size < TWO_32 ==> Packed()
    {
      this.base, this.size, next, blocks := base, size, base, [];
    }

    /** The next free block, or 0 when it does not fit. A request whose sum wraps around can be granted
        a block that reaches outside the memory; any other grant keeps the blocks packed. */
    method Allocate(bytes: Dword, alignment: Dword) returns (addr: Dword)
      requires alignment > 0
      modifies this
      ensures var a := U32(AlignTo(old(next), alignment));
        if U32(a + bytes) <= U32(base + size) then
          addr == a && next == U32(a + bytes) && blocks == old(blocks) + [(a, a + bytes)]
        else
          addr == 0 && next == old(next) && blocks == old(blocks)
      ensures old(Packed()) && AlignTo(old(next), alignment) + bytes < TWO_32 ==> Packed()
    {
      hide AlignTo, InOrder, U32;
      var aligned := U32(AlignTo(next, alignment));
      NoWrap(AlignTo(next, alignment));
      NoWrap(aligned + bytes);
      NoWrap(base + size);
      if U32(aligned + bytes) > U32(base + size) {
        return 0;
      }
      if Packed() && AlignTo(next, alignment) + bytes < TWO_32 {
        OneBlockMore(blocks, base, next, aligned, aligned + bytes);
      }
      next := U32(aligned + bytes);
      blocks := blocks + [(aligned, aligned + bytes)];
      return aligned;
    }
  }

  /* ---- placement ---- */

  /** SRAM addresses of the buffers; the DDR slot of a root follows from its number. */
  datatype Placement = Placement(sram: seq<int>)

  function DdrAddr(r: Root): int { DDR_ADDR + DDR_STRIDE * (r + 1) }

  /** The first free address after placing the first `n` buffers. */
  function Cursor(shapes: seq<Shape>, n: nat): nat
    requires n <= |shapes|
    decreases n, 0
  {
    if n == 0 then SRAM_ADDR else SramAddr(shapes, n - 1) + 2 * Size(shapes[n - 1])
  }

  /** Where the bump allocator puts buffer `k`. */
  function SramAddr(shapes: seq<Shape>, k: nat): nat
    requires k < |shapes|
    decreases k, 1
  {
    AlignTo(Cursor(shapes, k), SRAM_ALIGNMENT)
  }

  predicate NonEmpty(s: Shape) { 1 <= s.rows < 0x4000_0000 && 1 <= s.cols < 0x4000_0000 }

  /** All buffers fit into SRAM, all roots into their DDR slots, and nothing is empty. */
  ghost predicate Fits(ty: Typing) {
    && (forall r | 0 <= r < |ty.root| :: NonEmpty(ty.root[r])) && (forall b | 0 <= b < |ty.buf| :: NonEmpty(ty.buf[b]))
    && Cursor(ty.buf, |ty.buf|) <= SRAM_ADDR + SRAM_SIZE
    && |ty.root| <= MAX_ROOTS
    && forall r | 0 <= r < |ty.root| :: 2 * Size(ty.root[r]) <= DDR_STRIDE
  }

  function Place(ty: Typing): (pl: Placement)
    ensures |pl.sram| == |ty.buf|
  {
    Placement(seq(|ty.buf|, k requires 0 <= k < |ty.buf| => SramAddr(ty.buf, k)))
  }

  lemma {:induction false} CursorMonotone(shapes: seq<Shape>, i: nat, j: nat)
    requires i <= j <= |shapes|
    ensures SRAM_ADDR <= Cursor(shapes, i) <= Cursor(shapes, j)
  {
    hide AlignTo;
    if i < j {
      CursorMonotone(shapes, i, j - 1);
    } else if i > 0 {
      CursorMonotone(shapes, i - 1, i - 1);
    }
  }

  /** Distinct buffers never share a byte, whatever is allocated. */
  lemma PlacedApart(ty: Typing, i: nat, j: nat)
    requires i < j < |ty.buf|
    ensures Place(ty).sram[i] + 2 * Size(ty.buf[i]) <= Place(ty).sram[j]
  {
    hide AlignTo;
    CursorMonotone(ty.buf, i + 1, j);
  }

  /** Every buffer starts at the first multiple of 32 behind the buffer before it. */
  lemma PlacedTight(ty: Typing, k: nat)
    requires k < |ty.buf|
    ensures var end := if k == 0 then 0x1000_0000 else Place(ty).sram[k - 1] + 2 * Size(ty.buf[k - 1]);
      end <= Place(ty).sram[k] < end + 32 && Place(ty).sram[k] % 32 == 0
  {
    assert SramAddr(ty.buf, k) == AlignTo(Cursor(ty.buf, k), SRAM_ALIGNMENT);
    assert k > 0 ==> Cursor(ty.buf, k) == SramAddr(ty.buf, k - 1) + 2 * Size(ty.buf[k - 1]);
    hide SramAddr, Cursor, Size;
  }

  lemma PlacedInside(ty: Typing, k: nat)
    requires Fits(ty) && k < |ty.buf|
    ensures SRAM_ADDR <= Place(ty).sram[k] && Place(ty).sram[k] + 2 * Size(ty.buf[k]) <= SRAM_ADDR + SRAM_SIZE
    ensures Place(ty).sram[k] % 16 == 0
  {
    hide AlignTo;
    CursorMonotone(ty.buf, 0, k);
    CursorMonotone(ty.buf, k + 1, |ty.buf|);
    Mod32(Place(ty).sram[k]);
  }

  lemma Mod32(a: int)
    requires a % 32 == 0
    ensures a % 16 == 0
  {
  }

  lemma RootInside(ty: Typing, r: nat)
    requires Fits(ty) && r < |ty.root|
    ensures DDR_ADDR + 0x1_0000 <= DdrAddr(r) && DdrAddr(r) + 2 * Size(ty.root[r]) <= DDR_ADDR + DDR_SIZE
    ensures DdrAddr(r) % 16 == 0
  {
  }

  lemma RootsApart(ty: Typing, r: nat, s: nat)
    requires Fits(ty) && r < s < |ty.root|
    ensures DdrAddr(r) + 2 * Size(ty.root[r]) <= DdrAddr(s)
  {
  }

  /** The pass passes a buffer's size on in 32 bits. */
  function Request(s: Shape): Dword { U32(2 * Size(s)) }

  /** Where the allocator's next block starts, its free memory starting at `next`. */
  function Granted(next: Dword): Dword { U32(AlignTo(next, SRAM_ALIGNMENT)) }

  /** The allocator's free address after the first `n` buffers; None once a request was refused, which
      is what the pass takes address 0 for. */
  function Free(shapes: seq<Shape>, n: nat): Option<Dword>
    requires n <= |shapes|
  {
    if n == 0 then Some(SRAM_ADDR) else
      match Free(shapes, n - 1)
      case None => None
      case Some(next) =>
        var end := U32(Granted(next) + Request(shapes[n - 1]));
        if Granted(next) == 0 || end > SRAM_ADDR + SRAM_SIZE then None else Some(end)
  }

  lemma NothingPlaced(shapes: seq<Shape>)
    ensures Free(shapes, 0) == Some(SRAM_ADDR) && Cursor(shapes, 0) == SRAM_ADDR
  {
  }

  lemma NextFree(shapes: seq<Shape>, n: nat, next: Dword)
    requires n < |shapes| && Free(shapes, n) == Some(next)
    ensures var a := U32(AlignTo(next, SRAM_ALIGNMENT)); var end := U32(a + Request(shapes[n]));
      a == Granted(next) && Free(shapes, n + 1) == if a == 0 || end > SRAM_ADDR + SRAM_SIZE then None else Some(end)
  {
    hide AlignTo, Size, U32;
  }

  /* ---- the pass ---- */

  const SRAM_MEMORY_SPACE := 0
  const DDR_MEMORY_SPACE := 1

  /** A user of an allocation: a cast to a memory space, or anything else. */
  datatype User = SpaceCast(space: nat) | OtherUser

  /** A memref.alloc with its memory space and its users. */
  datatype Alloc = Alloc(space: nat, users: seq<User>, shape: Shape)

  /** A buffer: in the SRAM's memory space and not cast to the DDR's. */
  predicate OnChip(a: Alloc) { a.space == 0 && SpaceCast(1) !in a.users }

  /** The shapes of the buffers, in program order. */
  function Buffers(allocs: seq<Alloc>): (r: seq<Shape>)
    ensures |r| <= |allocs|
  {
    if allocs == [] then []
    else
      var last := allocs[|allocs| - 1];
      Buffers(allocs[..|allocs| - 1]) + if OnChip(last) then [last.shape] else []
  }

  /** How many arguments are memrefs. */
  function MemRefs(args: seq<bool>): nat {
    if args == [] then 0 else MemRefs(args[..|args| - 1]) + if args[|args| - 1] then 1 else 0
  }

  /** The n-th 64 KB slot behind the command queue area, in 32 bits. */
  function Slot(n: nat): Dword { U32(0x4001_0000 + 0x1_0000 * n) }

  /** The pass looks at the end of DDR once, behind the arguments, and at every SRAM request. */
  ghost predicate Accepted(args: seq<bool>, allocs: seq<Alloc>) {
    && Slot(MemRefs(args)) <= 0xC000_0000
    && Free(Buffers(allocs), |Buffers(allocs)|).Some?
  }

  method IsOnChip(a: Alloc) returns (sram: bool)
    ensures sram == OnChip(a)
  {
    sram := a.space == SRAM_MEMORY_SPACE;
    for k := 0 to |a.users|
      invariant sram == (a.space == SRAM_MEMORY_SPACE && SpaceCast(DDR_MEMORY_SPACE) !in a.users[..k])
    {
      if a.users[k] == SpaceCast(DDR_MEMORY_SPACE) {
        sram := false;
      }
    }
    assert a.users[..|a.users|] == a.users;
  }

  /** The walk over the arguments: memrefs get consecutive 64 KB slots behind the command queue area. */
  method PlaceArguments(args: seq<bool>) returns (addrs: seq<Option<Dword>>, next: Dword)
    ensures next == Slot(MemRefs(args))
    ensures |addrs| == |args| && forall i | 0 <= i < |args| ::
        addrs[i] == if args[i] then Some(Slot(MemRefs(args[..i]))) else None
  {
    next, addrs := U32(DDR_ADDR + 0x1_0000), [];
    for i := 0 to |args|
      invariant next == Slot(MemRefs(args[..i]))
      invariant |addrs| == i && forall k | 0 <= k < i ::
          addrs[k] == if args[k] then Some(Slot(MemRefs(args[..k]))) else None
    {
      assert args[..i + 1][..i] == args[..i];
      if args[i] {
        addrs := addrs + [Some(next)];
        NextSlot(MemRefs(args[..i]));
        next := U32(next + DDR_STRIDE);
      } else {
        addrs := addrs + [None];
      }
    }
    assert args[..|args|] == args;
  }

  lemma NextSlot(n: nat)
    ensures U32(Slot(n) + DDR_STRIDE) == Slot(n + 1)
  {
  }

  /** Where the walk puts allocation `k`: a buffer at the allocator's next block, anything else in the
      next slot behind those of the arguments. */
  ghost predicate PlacedAt(args: seq<bool>, allocs: seq<Alloc>, k: nat, addr: Dword)
    requires k < |allocs|
  {
    var before := Buffers(allocs[..k]);
    if OnChip(allocs[k]) then Free(before, |before|).Some? && addr == Granted(Free(before, |before|).value)
    else addr == Slot(MemRefs(args) + (k - |before|))
  }

  /** One buffer of the walk, behind the buffers `bufs`. */
  method PlaceBuffer(allocator: SramAllocator, s: Shape, ghost bufs: seq<Shape>) returns (addr: Dword)
    requires allocator.base == SRAM_ADDR && allocator.size == SRAM_SIZE
    modifies allocator
    ensures var f := Free(bufs + [s], |bufs| + 1);
      match Free(bufs, |bufs|)
      case None => f.None?
      case Some(at) => at == old(allocator.next) ==>
          && (addr != 0 <==> f.Some?) && (addr != 0 ==> addr == Granted(at) && f == Some(allocator.next))
  {
    hide AlignTo, Size, U32, Granted, Request, Free;
    NoWrap(SRAM_ADDR + SRAM_SIZE);
    FreeSnoc(bufs, s, allocator.next);
    addr := allocator.Allocate(Request(s), SRAM_ALIGNMENT);
  }

  /** One allocation of the walk. */
  method PlaceNext(allocator: SramAllocator, ghost args: seq<bool>, allocs: seq<Alloc>, k: nat, curDdrAddr: Dword)
    returns (addr: Dword, next: Dword, refused: bool)
    requires allocator.base == SRAM_ADDR && allocator.size == SRAM_SIZE && k < |allocs|
    requires curDdrAddr == Slot(MemRefs(args) + (k - |Buffers(allocs[..k])|))
    modifies allocator
    ensures next == Slot(MemRefs(args) + (k + 1 - |Buffers(allocs[..k + 1])|))
    ensures var bufs, bufs' := Buffers(allocs[..k]), Buffers(allocs[..k + 1]);
      match Free(bufs, |bufs|)
      case None => Free(bufs', |bufs'|).None?
      case Some(at) => at == old(allocator.next) ==>
          && (refused <==> Free(bufs', |bufs'|).None?)
          && (!refused ==> Free(bufs', |bufs'|) == Some(allocator.next) && PlacedAt(args, allocs, k, addr))
  {
    hide U32, Granted, Free, OnChip, Slot, Buffers;
    ghost var bufs := Buffers(allocs[..k]);
    BuffersNext(allocs, k);
    var sram := IsOnChip(allocs[k]);
    if sram {
      addr := PlaceBuffer(allocator, allocs[k].shape, bufs);
      next, refused := curDdrAddr, addr == 0;
    } else {
      NextSlot(MemRefs(args) + (k - |bufs|));
      addr, next, refused := curDdrAddr, U32(curDdrAddr + DDR_STRIDE), false;
    }
  }

  /** The walk over one function. A failure does not stop it, but fails the pass. */
  method PlaceAll(args: seq<bool>, allocs: seq<Alloc>) returns (ok: bool, argAddrs: seq<Option<Dword>>, addrs: seq<Dword>)
    ensures ok == Accepted(args, allocs)
    ensures |argAddrs| == |args| && forall i | 0 <= i < |args| ::
        argAddrs[i] == if args[i] then Some(Slot(MemRefs(args[..i]))) else None
    ensures ok ==> |addrs| == |allocs| && forall k | 0 <= k < |allocs| :: PlacedAt(args, allocs, k, addrs[k])
  {
    hide U32, Granted, Free, OnChip, Slot, PlacedAt, MemRefs;
    var curDdrAddr;
    argAddrs, curDdrAddr := PlaceArguments(args);
    var inside := curDdrAddr <= DDR_ADDR + DDR_SIZE;
    var allocator := new SramAllocator(SRAM_ADDR, SRAM_SIZE);
    var granted := true;
    addrs := [];
    NothingPlaced([]);
    assert Buffers(allocs[..0]) == [];
    hide Buffers;
    for k := 0 to |allocs|
      invariant allocator.base == SRAM_ADDR && allocator.size == SRAM_SIZE && fresh(allocator)
      invariant granted == Free(Buffers(allocs[..k]), |Buffers(allocs[..k])|).Some?
      invariant granted ==> Free(Buffers(allocs[..k]), |Buffers(allocs[..k])|) == Some(allocator.next)
      invariant curDdrAddr == Slot(MemRefs(args) + (k - |Buffers(allocs[..k])|))
      invariant |addrs| == k && (granted ==> forall i | 0 <= i < k :: PlacedAt(args, allocs, i, addrs[i]))
    {
      var addr, refused;
      addr, curDdrAddr, refused := PlaceNext(allocator, args, allocs, k, curDdrAddr);
      granted := granted && !refused;
      addrs := addrs + [addr];
    }
    assert allocs[..|allocs|] == allocs;
    ok := inside && granted;
  }

  lemma BuffersNext(allocs: seq<Alloc>, k: nat)
    requires k < |allocs|
    ensures Buffers(allocs[..k + 1]) == if OnChip(allocs[k]) then Buffers(allocs[..k]) + [allocs[k].shape] else Buffers(allocs[..k])
  {
    hide OnChip;
    assert allocs[..k + 1][..k] == allocs[..k];
    assert Buffers(allocs[..k]) + [] == Buffers(allocs[..k]);
  }

  /** One buffer more. */
  lemma FreeSnoc(shapes: seq<Shape>, s: Shape, next: Dword)
    ensures var f := Free(shapes + [s], |shapes| + 1);
      match Free(shapes, |shapes|)
      case None => f.None?
      case Some(at) =>
        at == next ==>
          var a := U32(AlignTo(next, SRAM_ALIGNMENT)); var end := U32(a + Request(s));
          a == Granted(next) && f == if a == 0 || end > SRAM_ADDR + SRAM_SIZE then None else Some(end)
  {
    hide AlignTo, Size, U32;
    FreeOfPrefix(shapes + [s], shapes, |shapes|);
  }

  lemma {:induction false} FreeOfPrefix(shapes: seq<Shape>, front: seq<Shape>, n: nat)
    requires n <= |front| <= |shapes| && shapes[..|front|] == front
    ensures Free(shapes, n) == Free(front, n)
  {
    hide AlignTo, Size, U32, Granted, Request;
    if n > 0 {
      FreeOfPrefix(shapes, front, n - 1);
    }
  }

  lemma {:induction false} OnceRefused(shapes: seq<Shape>, k: nat, n: nat)
    requires k <= n <= |shapes|
    ensures Free(shapes, k).None? ==> Free(shapes, n).None?
  {
    if k < n {
      OnceRefused(shapes, k, n - 1);
    }
  }

  /** The walk went through and every buffer it placed has room inside the SRAM. */
  ghost predicate PlacedWell(shapes: seq<Shape>, n: nat)
    requires n <= |shapes|
  {
    && Free(shapes, n).Some?
    && forall k | 0 <= k < n :: Free(shapes, k).Some?
        && SRAM_ADDR <= Granted(Free(shapes, k).value)
        && Granted(Free(shapes, k).value) + 2 * Size(shapes[k]) <= SRAM_ADDR + SRAM_SIZE
  }

  /** The walk places all buffers well if and only if they fit when nothing wraps around, and then it
      places them where the placement says. */
  lemma {:induction false} PlacementExactly(shapes: seq<Shape>, n: nat)
    requires n <= |shapes|
    ensures PlacedWell(shapes, n) <==> Cursor(shapes, n) <= SRAM_ADDR + SRAM_SIZE
    ensures PlacedWell(shapes, n) ==> Free(shapes, n) == Some(Cursor(shapes, n))
    ensures PlacedWell(shapes, n) ==> forall k | 0 <= k < n :: Granted(Free(shapes, k).value) == SramAddr(shapes, k)
  {
    hide AlignTo, Size, Granted, Request, SramAddr, Cursor, Free;
    if n > 0 {
      PlacementExactly(shapes, n - 1);
      CursorMonotone(shapes, n - 1, n);
      if PlacedWell(shapes, n) {
        OnceRefused(shapes, n - 1, n);
        NextPlaced(shapes, n - 1);
      } else if Cursor(shapes, n) <= SRAM_ADDR + SRAM_SIZE {
        NextPlaced(shapes, n - 1);
      }
    } else {
      NothingPlaced(shapes);
    }
  }

  /** Once the free address is right, so is the next block, and its end if it has room. */
  lemma NextPlaced(shapes: seq<Shape>, n: nat)
    requires n < |shapes| && SRAM_ADDR <= Cursor(shapes, n) <= SRAM_ADDR + SRAM_SIZE && Free(shapes, n) == Some(Cursor(shapes, n))
    ensures Granted(Cursor(shapes, n)) == SramAddr(shapes, n) >= SRAM_ADDR
    ensures Cursor(shapes, n + 1) == SramAddr(shapes, n) + 2 * Size(shapes[n])
    ensures Cursor(shapes, n + 1) <= SRAM_ADDR + SRAM_SIZE ==> Free(shapes, n + 1) == Some(Cursor(shapes, n + 1))
  {
    hide AlignTo, Size, U32;
    NoWrap(AlignTo(Cursor(shapes, n), SRAM_ALIGNMENT));
    NoWrap(2 * Size(shapes[n]));
    NoWrap(SramAddr(shapes, n) + 2 * Size(shapes[n]));
  }

  /** A buffer of 0x7800_0000 elements is accepted: its end wraps around to address 0. */
  lemma OversizedAccepted()
    ensures var s := [Shape(0x7800_0000, 1)];
      Free(s, 1) == Some(0) && Granted(Free(s, 0).value) == SRAM_ADDR && !PlacedWell(s, 1)
  {
    var s := [Shape(0x7800_0000, 1)];
    assert Free(s, 0) == Some(SRAM_ADDR);
    assert Granted(SRAM_ADDR) == SRAM_ADDR;
    assert Size(s[0]) == 0x7800_0000;
  }

  /* ---- what the pass accepts ---- */

  lemma {:induction false} BuffersPrefix(allocs: seq<Alloc>, k: nat, n: nat)
    requires k <= n <= |allocs|
    ensures Buffers(allocs[..k]) <= Buffers(allocs[..n])
  {
    hide OnChip;
    if k < n {
      BuffersPrefix(allocs, k, n - 1);
      BuffersNext(allocs, n - 1);
    }
  }

  /** Behind allocation `k` there is one buffer more, or one other allocation more, than in front of it. */
  lemma {:induction false} CountsGrow(allocs: seq<Alloc>, k: nat, n: nat)
    requires k < n <= |allocs|
    ensures OnChip(allocs[k]) ==> |Buffers(allocs[..k])| < |Buffers(allocs[..n])|
    ensures !OnChip(allocs[k]) ==> n - |Buffers(allocs[..n])| > k - |Buffers(allocs[..k])|
  {
    hide OnChip, Buffers;
    BuffersNext(allocs, n - 1);
    if k < n - 1 {
      CountsGrow(allocs, k, n - 1);
    }
  }

  /** The placement's number for allocation `k`, among the buffers or among the roots. */
  ghost predicate Agrees(ty: Typing, args: seq<bool>, allocs: seq<Alloc>, k: nat, addr: Dword)
    requires k < |allocs|
  {
    var b := |Buffers(allocs[..k])|;
    if OnChip(allocs[k]) then b < |ty.buf| && addr == Place(ty).sram[b]
    else 0 <= MemRefs(args) + (k - b) < |ty.root| && addr == DdrAddr(MemRefs(args) + (k - b))
  }

  lemma AllocationAgrees(ty: Typing, args: seq<bool>, allocs: seq<Alloc>, k: nat, addr: Dword)
    requires Fits(ty) && ty.buf == Buffers(allocs) && |ty.root| == MemRefs(args) + (|allocs| - |ty.buf|)
    requires k < |allocs| && PlacedAt(args, allocs, k, addr)
    ensures Agrees(ty, args, allocs, k, addr)
  {
    hide AlignTo, Size, Granted, Request, SramAddr, Cursor, Free, OnChip, Buffers, MemRefs;
    var before := Buffers(allocs[..k]);
    assert allocs[..|allocs|] == allocs;
    CountsGrow(allocs, k, |allocs|);
    if OnChip(allocs[k]) {
      PlacementExactly(ty.buf, |ty.buf|);
      BuffersPrefix(allocs, k, |allocs|);
      FreeOfPrefix(ty.buf, before, |before|);
    } else {
      RootSlot(MemRefs(args) + (k - |before|));
    }
  }

  lemma FitsAccepted(ty: Typing, args: seq<bool>, allocs: seq<Alloc>)
    requires Fits(ty) && ty.buf == Buffers(allocs) && |ty.root| == MemRefs(args) + (|allocs| - |ty.buf|)
    ensures Accepted(args, allocs)
  {
    assert Cursor(ty.buf, |ty.buf|) <= SRAM_ADDR + SRAM_SIZE && |ty.root| <= MAX_ROOTS;
    hide Fits, AlignTo, Size, Granted, Request, SramAddr, Cursor, Free, OnChip, Buffers, MemRefs;
    PlacementExactly(ty.buf, |ty.buf|);
    LastSlot(MemRefs(args));
  }

  lemma LastSlot(n: nat)
    requires n <= MAX_ROOTS
    ensures Slot(n) <= 0xC000_0000
  {
  }

  lemma RootSlot(r: nat)
    requires r < MAX_ROOTS
    ensures Slot(r) == DdrAddr(r)
  {
  }

  /** For a function whose tensors fit, the pass succeeds and agrees with the placement: buffers in
      order, and roots numbered by the memref arguments and then the other allocations. */
  lemma WalkMeetsPlacement(ty: Typing, args: seq<bool>, allocs: seq<Alloc>)
    requires Fits(ty) && ty.buf == Buffers(allocs) && |ty.root| == MemRefs(args) + (|allocs| - |ty.buf|)
    ensures Accepted(args, allocs)
    ensures forall k: nat, addr: Dword | k < |allocs| && PlacedAt(args, allocs, k, addr) :: Agrees(ty, args, allocs, k, addr)
  {
    hide Fits, Buffers, MemRefs, PlacedAt, Agrees, OnChip, Accepted;
    FitsAccepted(ty, args, allocs);
    forall k: nat, addr: Dword | k < |allocs| && PlacedAt(args, allocs, k, addr)
      ensures Agrees(ty, args, allocs, k, addr)
    {
      AllocationAgrees(ty, args, allocs, k, addr);
    }
  }

  /** A slot of 64 KB lies inside DDR. */
  predicate SlotInside(addr: int) { In(Ddr, addr) && In(Ddr, addr + 0xFFFF) }

  /** The first n slots all lie inside DDR if and only if there are at most 0x7FFF of them. */
  lemma SlotsInsideExactly(n: nat)
    ensures (forall r: nat | r < n :: SlotInside(Slot(r))) <==> n <= MAX_ROOTS
  {
    if n > MAX_ROOTS {
      assert !SlotInside(Slot(MAX_ROOTS));
    }
  }

  /** The end of DDR is not looked at again behind the allocations: this function, with one of them more
      than there are slots, is accepted, and the last one lies behind DDR. */
  lemma AllocationsUnchecked()
    ensures var allocs := seq(0x8000, i => Alloc(1, [], Shape(1, 1)));
      && Accepted([], allocs) && PlacedAt([], allocs, 0x7FFF, 0xC000_0000) && !SlotInside(0xC000_0000)
  {
    var allocs := seq(0x8000, i => Alloc(1, [], Shape(1, 1)));
    NoBuffers(allocs, 0x7FFF);
    NoBuffers(allocs, 0x8000);
    assert allocs[..0x8000] == allocs;
    NothingPlaced([]);
  }

  lemma {:induction false} NoBuffers(allocs: seq<Alloc>, n: nat)
    requires n <= |allocs| && forall k | 0 <= k < |allocs| :: !OnChip(allocs[k])
    ensures Buffers(allocs[..n]) == []
  {
    hide OnChip;
    if n > 0 {
      NoBuffers(allocs, n - 1);
      BuffersNext(allocs, n - 1);
    }
  }

  /* ---- emission ---- */

  /** emitDmaLoadOp, emitDmaStoreOp, emitMatmulOp, emitEwiseOp, emitActOp, emitReduceOp, emitSyncOp.
      None stands for an operation the emitters have no case for. */
  function EmitOp(ty: Typing, pl: Placement, op: IrOp): Option<Instr>
    requires |pl.sram| == |ty.buf|
  {
    match op
    case Load(CastOf(Base(r)), b) =>
      if r < |ty.root| && b < |ty.buf| then
        var cols := ty.root[r].cols;
        Some(DmaLoad(DmaParam(U32(pl.sram[b]), U32(DdrAddr(r)), U32(ty.root[r].rows), U32(cols),
                              U32(2 * cols), U32(2 * cols))))
      else None
    case Load(SubOf(CastOf(Base(r)), Fixed(ro), Fixed(co), rows, cols), b) =>
      if r < |ty.root| && b < |ty.buf| then
        var pitch := U32(2 * ty.root[r].cols);
        Some(DmaLoad(DmaParam(U32(pl.sram[b]), U32(DdrAddr(r) + U32(ro) * pitch + U32(co) * 2), U32(rows), U32(cols),
                              pitch, U32(2 * cols))))
      else None
    case Store(b, CastOf(Base(r))) =>
      if r < |ty.root| && b < |ty.buf| then
        var cols := ty.root[r].cols;
        Some(DmaStore(DmaParam(U32(pl.sram[b]), U32(DdrAddr(r)), U32(ty.root[r].rows), U32(cols),
                               U32(2 * cols), U32(2 * cols))))
      else None
    case MatmulOp(l, r, d, acc, ta, tb) =>
      if l < |ty.buf| && r < |ty.buf| && d < |ty.buf| then
        var (M, K, N) := Dims(ty, op);
        Some(Matmul(MatmulParam(U32(pl.sram[d]), U32(pl.sram[r]), U32(pl.sram[l]), U32(M), U32(K), U32(N),
                                if acc then 1 else 0, ta, tb)))
      else None
    case EwiseOp(kind, l, r, d) =>
      if l < |ty.buf| && r < |ty.buf| && d < |ty.buf| then
        var blk := U32(ty.buf[r].cols);
        Some(Ewise(kind, EwiseParam(U32(pl.sram[d]), U32(pl.sram[r]), U32(pl.sram[l]),
                                    U32(ty.buf[d].rows), U32(ty.buf[d].cols), blk,
                                    if ty.buf[r].rows == 1 then 0 else blk)))
      else None
    case ActOp(kind, a, d) =>
      if a < |ty.buf| && d < |ty.buf| then
        Some(Act(ActParam(U32(pl.sram[d]), U32(pl.sram[a]), U32(Size(ty.buf[a])), ActCode(kind))))
      else None
    case ReduceOp(kind, a, d) =>
      if a < |ty.buf| && d < |ty.buf| then
        Some(Reduce(ReduceParam(U32(pl.sram[d]), 0, U32(pl.sram[a]), U32(ty.buf[a].rows), U32(ty.buf[a].cols),
                                ReduceCode(kind))))
      else None
    case SyncOp => Some(Sync)
    case _ => None
  }

  function ActCode(k: ActKind): (c: Dword)
    ensures ActKindOf(c) == Some(k)
  {
    match k case Relu => 0 case Exp => 1 case Rsqrt => 2 case Silu => 3
  }

  function ReduceCode(k: ReduceKind): (c: Dword)
    ensures ReduceKindOf(c) == Some(k)
  {
    match k case MaxKind => 0 case SumKind => 1 case SquareSum => 2 case Argmax => 3
  }

  /** The instruction stream of an unrolled body; operations without an instruction are skipped. */
  function Emit(ty: Typing, pl: Placement, ops: seq<IrOp>): seq<Instr>
    requires |pl.sram| == |ty.buf|
  {
    if ops == [] then []
    else (match EmitOp(ty, pl, ops[0]) case Some(i) => [i] case None => []) + Emit(ty, pl, ops[1..])
  }
}

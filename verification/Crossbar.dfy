/** One cycle of the banked SRAM: `rtl/bank/bank_xbar.sv` in front of the independent banks of
    `bank_mem.sv`, each a one-read one-write `sram.sv`. */
module Crossbar {
  import opened Arithmetic
  import opened Types

  /** 2^bw banks of 2^law words; `hashed` selects the XOR mapping. */
  datatype Geometry = Geometry(bw: nat, law: nat, hashed: bool)

  function NBank(g: Geometry): (r: nat)
    ensures r >= 1
  {
    Pow2(g.bw)
  }

  function Depth(g: Geometry): (r: nat)
    ensures r >= 1
  {
    Pow2(g.law)
  }

  function Size(g: Geometry): (r: nat)
    ensures r >= 1
  {
    MulMonotone(NBank(g), 1, Depth(g));
    NBank(g) * Depth(g)
  }

  /** Bitwise exclusive or of two `w`-bit numbers. */
  function Xor(w: nat, x: nat, y: nat): (r: nat)
    ensures r < Pow2(w)
  {
    if w == 0 then 0 else 2 * Xor(w - 1, x / 2, y / 2) + (x + y) % 2
  }

  function LocalOf(g: Geometry, a: nat): nat {
    var n := NBank(g);
    DivNonNegative(a, n);
    a / n
  }

  function BankOf(g: Geometry, a: nat): (b: nat)
    ensures b < NBank(g)
  {
    if g.hashed then Xor(g.bw, a % NBank(g), LocalOf(g, a) % NBank(g)) else a % NBank(g)
  }

  type Banks = seq<seq<nat>>

  ghost predicate ValidBanks(g: Geometry, m: Banks) {
    |m| == NBank(g) && forall b | 0 <= b < |m| :: |m[b]| == Depth(g)
  }

  /** The banks and the registers behind the read port. */
  datatype State = State(banks: Banks, rdata: seq<nat>, grant: seq<bool>, bankOfD: seq<nat>)

  ghost predicate Valid(g: Geometry, s: State) {
    && ValidBanks(g, s.banks)
    && |s.rdata| == |s.grant| == |s.bankOfD| == NBank(g)
    && forall i | 0 <= i < |s.bankOfD| :: s.bankOfD[i] < NBank(g)
  }

  /* ---- arbitration: the first slot that names a bank wins it ---- */

  function FirstReader(g: Geometry, reqs: seq<nat>, b: nat): Option<nat> {
    if reqs == [] then None
    else if BankOf(g, reqs[0]) == b then Some(reqs[0])
    else FirstReader(g, reqs[1..], b)
  }

  function FirstWriter(g: Geometry, port: seq<Option<Write>>, b: nat): Option<Write> {
    if port == [] then None
    else if port[0].Some? && BankOf(g, port[0].value.addr) == b then port[0]
    else FirstWriter(g, port[1..], b)
  }

  ghost predicate Served(g: Geometry, reqs: seq<nat>, i: nat)
    requires i < |reqs|
  {
    forall j | 0 <= j < i :: BankOf(g, reqs[j]) != BankOf(g, reqs[i])
  }

  ghost predicate WriteGranted(g: Geometry, port: seq<Option<Write>>, i: nat)
    requires i < |port|
  {
    port[i].Some? &&
    forall j | 0 <= j < i && port[j].Some? :: BankOf(g, port[j].value.addr) != BankOf(g, port[i].value.addr)
  }

  /** One bank after the edge. */
  function BankAfter(g: Geometry, bank: seq<nat>, w: Option<Write>): seq<nat> {
    if w.Some? && LocalOf(g, w.value.addr) < |bank| then bank[LocalOf(g, w.value.addr) := w.value.data] else bank
  }

  function WriteEdge(g: Geometry, banks: Banks, port: seq<Option<Write>>): (r: Banks)
    ensures |r| == |banks|
  {
    seq(|banks|, b requires 0 <= b < |banks| => BankAfter(g, banks[b], FirstWriter(g, port, b)))
  }

  /** What bank `b` reads before the edge; an unaddressed bank reads local address 0. */
  function ReadEdge(g: Geometry, bank: seq<nat>, r: Option<nat>): nat
    requires |bank| > 0
  {
    var local := if r.Some? then LocalOf(g, r.value) else 0;
    if local < |bank| then bank[local] else 0
  }

  /** A rising edge with rst_n high: reads see the memory as it was before the edge. */
  ghost function Next(g: Geometry, s: State, reqs: seq<nat>, port: seq<Option<Write>>): State
    requires Valid(g, s) && |reqs| == |port| == NBank(g)
  {
    State(WriteEdge(g, s.banks, port),
          seq(NBank(g), b requires 0 <= b < NBank(g) => ReadEdge(g, s.banks[b], FirstReader(g, reqs, b))),
          seq(NBank(g), i requires 0 <= i < NBank(g) => Served(g, reqs, i)),
          seq(NBank(g), i requires 0 <= i < NBank(g) => BankOf(g, reqs[i])))
  }

  /** A rising edge with rst_n low: the read registers clear; the write port is not gated. */
  ghost function NextInReset(g: Geometry, s: State, port: seq<Option<Write>>): State
    requires Valid(g, s)
  {
    State(WriteEdge(g, s.banks, port),
          seq(NBank(g), b requires 0 <= b < NBank(g) => 0),
          seq(NBank(g), i requires 0 <= i < NBank(g) => false),
          seq(NBank(g), i requires 0 <= i < NBank(g) => 0))
  }

  /** The read data port. */
  function RdData(s: State, i: nat): nat
    requires i < |s.bankOfD| && s.bankOfD[i] < |s.rdata|
  {
    s.rdata[s.bankOfD[i]]
  }

  /* ---- the flat view ---- */

  lemma {:induction false} XorInvolutive(w: nat, x: nat, y: nat)
    requires x < Pow2(w)
    ensures Xor(w, Xor(w, x, y), y) == x
  {
    hide Xor;
    if w > 0 {
      var z := Xor(w, x, y);
      XorParts(w, x, y);
      XorParts(w, z, y);
      XorInvolutive(w - 1, x / 2, y / 2);
      ParityTwice(x, y, z);
    }
  }

  lemma XorParts(w: nat, x: nat, y: nat)
    requires w > 0
    ensures Xor(w, x, y) / 2 == Xor(w - 1, x / 2, y / 2) && Xor(w, x, y) % 2 == (x + y) % 2
  {
    hide Pow2;
  }

  lemma ParityTwice(x: nat, y: nat, z: nat)
    requires z % 2 == (x + y) % 2
    ensures (z + y) % 2 == x % 2
  {
  }

  /** Under either mapping the bank and the local address determine the offset within the local row. */
  lemma SameOffset(g: Geometry, a: nat, b: nat)
    requires BankOf(g, a) == BankOf(g, b) && LocalOf(g, a) == LocalOf(g, b)
    ensures a % NBank(g) == b % NBank(g)
  {
    hide Pow2, LocalOf, Xor;
    if g.hashed {
      XorInvolutive(g.bw, a % NBank(g), LocalOf(g, a) % NBank(g));
      XorInvolutive(g.bw, b % NBank(g), LocalOf(g, b) % NBank(g));
    }
  }

  /** Under either mapping an address is determined by its bank and its local address. */
  lemma MappingInjective(g: Geometry, a: nat, b: nat)
    requires BankOf(g, a) == BankOf(g, b) && LocalOf(g, a) == LocalOf(g, b)
    ensures a == b
  {
    SameOffset(g, a, b);
    hide NBank, BankOf;
    var n := NBank(g);
    assert a == n * LocalOf(g, a) + a % n;
    assert b == n * LocalOf(g, b) + b % n;
  }

  lemma LocalInRange(g: Geometry, a: nat)
    requires a < Size(g)
    ensures LocalOf(g, a) < Depth(g)
  {
    if LocalOf(g, a) >= Depth(g) {
      MulMonotone(NBank(g), Depth(g), LocalOf(g, a));
    }
  }

  /** Every bank cell is the home of exactly one address. */
  lemma MappingSurjective(g: Geometry, b: nat, local: nat) returns (a: nat)
    requires b < NBank(g) && local < Depth(g)
    ensures a < Size(g) && BankOf(g, a) == b && LocalOf(g, a) == local
  {
    var low := if g.hashed then Xor(g.bw, b, local % NBank(g)) else b;
    a := local * NBank(g) + low;
    DivModOfMulAdd(local, low, NBank(g));
    if g.hashed {
      XorInvolutive(g.bw, b, local % NBank(g));
    }
    MulMonotone(NBank(g), local + 1, Depth(g));
    assert NBank(g) * (local + 1) == local * NBank(g) + NBank(g);
  }

  /** The memory as one array indexed by word address. */
  ghost function Flat(g: Geometry, m: Banks): (r: seq<nat>)
    requires ValidBanks(g, m)
    ensures |r| == Size(g)
  {
    seq(Size(g), a requires 0 <= a < Size(g) => LocalInRange(g, a); m[BankOf(g, a)][LocalOf(g, a)])
  }

  function ApplyWrite(mem: seq<nat>, w: Write): (r: seq<nat>)
    ensures |r| == |mem|
  {
    if w.addr < |mem| then mem[w.addr := w.data] else mem
  }

  /** Writes performed one at a time, in order. */
  function ApplyWrites(mem: seq<nat>, ws: seq<Write>): (r: seq<nat>)
    ensures |r| == |mem|
    decreases ws
  {
    if ws == [] then mem else ApplyWrites(ApplyWrite(mem, ws[0]), ws[1..])
  }
}

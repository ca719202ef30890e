/** The crossbar and its banks as an object updated in place, with the arbitration loops of
    `rtl/bank/bank_xbar.sv`, and the two drain loops that drive it. */
module BankedSram {
  import opened Arithmetic
  import opened Types
  import opened Crossbar
  import opened CrossbarDrain

  class Sram {
    const g: Geometry
    const mem: array2<nat>
    const rdata: array<nat>
    const grant: array<bool>
    const bankOfD: array<nat>

    ghost predicate Allocated()
      reads this
    {
      && mem.Length0 == rdata.Length == grant.Length == bankOfD.Length == NBank(g)
      && mem.Length1 == Depth(g)
      && rdata != bankOfD
    }

    function Bank(b: nat): seq<nat>
      requires b < mem.Length0
      reads mem
    {
      seq(mem.Length1, l requires 0 <= l < mem.Length1 reads mem => mem[b, l])
    }

    ghost function Contents(): State
      reads this, mem, rdata, grant, bankOfD
    {
      State(seq(mem.Length0, b requires 0 <= b < mem.Length0 reads mem => Bank(b)),
            rdata[..], grant[..], bankOfD[..])
    }

    ghost predicate Ready()
      reads this, mem, rdata, grant, bankOfD
    {
      Allocated() && Valid(g, Contents())
    }

    constructor (g: Geometry)
      ensures Ready() && this.g == g
      ensures fresh(mem) && fresh(rdata) && fresh(grant) && fresh(bankOfD)
    {
      this.g := g;
      mem := new nat[NBank(g), Depth(g)]((b, l) => 0);
      rdata := new nat[NBank(g)](_ => 0);
      grant := new bool[NBank(g)](_ => false);
      bankOfD := new nat[NBank(g)](_ => 0);
    }

    /** The read arbitration loop: bank by bank, the first slot that names the bank is served. */
    method ArbitrateReads(reqs: seq<nat>) returns (served: array<bool>, local: array<nat>)
      requires |reqs| == NBank(g)
      ensures fresh(served) && fresh(local) && served.Length == local.Length == NBank(g)
      ensures forall i | 0 <= i < NBank(g) :: served[i] <==> Served(g, reqs, i)
      ensures forall b | 0 <= b < NBank(g) :: local[b] == FirstLocal(g, reqs, b)
    {
      hide BankOf, LocalOf, NBank, FirstLocal, Served;
      var n := NBank(g);
      served := new bool[n](_ => false);
      local := new nat[n](_ => 0);
      for b := 0 to n
        invariant forall i | 0 <= i < n :: served[i] <==> BankOf(g, reqs[i]) < b && Served(g, reqs, i)
        invariant forall c | 0 <= c < n :: local[c] == if c < b then FirstLocal(g, reqs, c) else 0
      {
        ServeBank(reqs, b, served, local);
      }
    }

    method ServeBank(reqs: seq<nat>, b: nat, served: array<bool>, local: array<nat>)
      requires served.Length == |reqs| && b < local.Length && local[b] == 0
      modifies served, local
      ensures forall k | 0 <= k < |reqs| ::
        served[k] <==> old(served[k]) || (BankOf(g, reqs[k]) == b && Served(g, reqs, k))
      ensures forall c | 0 <= c < local.Length :: local[c] == if c == b then FirstLocal(g, reqs, b) else old(local[c])
    {
      hide BankOf, LocalOf;
      var found := false;
      ghost var winner := 0;
      for i := 0 to |reqs|
        invariant if found then winner < i && BankOf(g, reqs[winner]) == b
                  else forall j | 0 <= j < i :: BankOf(g, reqs[j]) != b
        invariant forall k | 0 <= k < |reqs| ::
          served[k] <==> old(served[k]) || (k < i && BankOf(g, reqs[k]) == b && Served(g, reqs, k))
        invariant forall c | 0 <= c < local.Length && c != b :: local[c] == old(local[c])
        invariant if found then local[b] == FirstLocal(g, reqs, b)
                  else local[b] == 0 && FirstReader(g, reqs, b) == FirstReader(g, reqs[i..], b)
      {
        assert reqs[i..][1..] == reqs[i + 1..];
        if !found && BankOf(g, reqs[i]) == b {
          found, winner := true, i;
          served[i] := true;
          local[b] := LocalOf(g, reqs[i]);
        }
      }
      assert reqs[|reqs|..] == [];
    }

    /** The write arbitration loop; the chosen write of each bank. */
    method ArbitrateWrites(port: seq<Option<Write>>) returns (chosen: array<Option<Write>>)
      requires |port| == NBank(g)
      ensures fresh(chosen) && chosen.Length == NBank(g)
      ensures forall b | 0 <= b < NBank(g) :: chosen[b] == FirstWriter(g, port, b)
    {
      hide BankOf, NBank;
      var n := NBank(g);
      chosen := new Option<Write>[n](_ => None);
      for b := 0 to n
        invariant forall c | 0 <= c < b :: chosen[c] == FirstWriter(g, port, c)
        invariant forall c | b <= c < n :: chosen[c] == None
      {
        for i := 0 to n
          invariant forall c | 0 <= c < b :: chosen[c] == FirstWriter(g, port, c)
          invariant forall c | b < c < n :: chosen[c] == None
          invariant FirstWriter(g, port, b) == if chosen[b].Some? then chosen[b] else FirstWriter(g, port[i..], b)
        {
          assert port[i..][1..] == port[i + 1..];
          if chosen[b].None? && port[i].Some? && BankOf(g, port[i].value.addr) == b {
            chosen[b] := port[i];
          }
        }
        assert port[n..] == [];
      }
    }

    /** One rising edge of clk with rst_n high. */
    method Edge(reqs: seq<nat>, port: seq<Option<Write>>)
      requires Ready() && |reqs| == |port| == NBank(g)
      requires forall i | 0 <= i < |reqs| :: reqs[i] < Size(g)
      modifies mem, rdata, grant, bankOfD
      ensures Ready() && Contents() == Next(g, old(Contents()), reqs, port)
    {
      hide BankOf, LocalOf, NBank, Depth, Size, FirstLocal, Served, ReadEdge;
      var served, local := ArbitrateReads(reqs);
      var chosen := ArbitrateWrites(port);
      LatchReads(reqs, served, local);
      CommitWrites(port, chosen);
    }

    /** One rising edge of clk with rst_n low. */
    method ResetEdge(port: seq<Option<Write>>)
      requires Ready() && |port| == NBank(g)
      modifies mem, rdata, grant, bankOfD
      ensures Ready() && Contents() == NextInReset(g, old(Contents()), port)
    {
      hide BankOf, LocalOf, NBank, Depth, Size;
      for i := 0 to NBank(g)
        invariant Ready() && Contents().banks == old(Contents().banks)
        invariant forall k | 0 <= k < i :: rdata[k] == 0 && !grant[k] && bankOfD[k] == 0
      {
        rdata[i], grant[i], bankOfD[i] := 0, false, 0;
      }
      var chosen := ArbitrateWrites(port);
      CommitWrites(port, chosen);
    }

    method LatchReads(reqs: seq<nat>, served: array<bool>, local: array<nat>)
      requires Ready() && |reqs| == NBank(g) && served.Length == local.Length == NBank(g)
      requires forall i | 0 <= i < |reqs| :: reqs[i] < Size(g)
      requires forall i | 0 <= i < NBank(g) :: served[i] <==> Served(g, reqs, i)
      requires forall b | 0 <= b < NBank(g) :: local[b] == FirstLocal(g, reqs, b)
      requires served != grant && local != rdata && local != bankOfD
      modifies rdata, grant, bankOfD
      ensures Ready() && Contents().banks == old(Contents().banks)
      ensures forall b | 0 <= b < NBank(g) :: rdata[b] == ReadEdge(g, Bank(b), FirstReader(g, reqs, b))
      ensures forall i | 0 <= i < NBank(g) :: grant[i] == Served(g, reqs, i) && bankOfD[i] == BankOf(g, reqs[i])
    {
      hide BankOf, LocalOf, NBank, Depth, Size, Served, FirstLocal, FirstReader, ReadEdge;
      for i := 0 to NBank(g)
        invariant Ready() && Contents().banks == old(Contents().banks)
        invariant forall b | 0 <= b < NBank(g) :: local[b] == FirstLocal(g, reqs, b)
        invariant forall b | 0 <= b < NBank(g) :: served[b] == Served(g, reqs, b)
        invariant forall b | 0 <= b < i :: rdata[b] == ReadEdge(g, Bank(b), FirstReader(g, reqs, b))
        invariant forall k | 0 <= k < i :: grant[k] == Served(g, reqs, k) && bankOfD[k] == BankOf(g, reqs[k])
      {
        FirstReaderLocal(g, reqs, i);
        ReadAtLocal(g, Bank(i), reqs, i);
        rdata[i] := mem[i, local[i]];
        grant[i] := served[i];
        bankOfD[i] := BankOf(g, reqs[i]);
      }
    }

    method CommitWrites(port: seq<Option<Write>>, chosen: array<Option<Write>>)
      requires Ready() && chosen.Length == NBank(g)
      requires forall b | 0 <= b < NBank(g) :: chosen[b] == FirstWriter(g, port, b)
      modifies mem
      ensures Ready() && Contents() == old(Contents()).(banks := WriteEdge(g, old(Contents().banks), port))
    {
      hide BankOf, LocalOf, NBank, Depth, Size;
      for b := 0 to NBank(g)
        invariant forall c | 0 <= c < NBank(g) ::
          Bank(c) == if c < b then BankAfter(g, old(Bank(c)), FirstWriter(g, port, c)) else old(Bank(c))
      {
        label Before:
        if chosen[b].Some? && LocalOf(g, chosen[b].value.addr) < mem.Length1 {
          mem[b, LocalOf(g, chosen[b].value.addr)] := chosen[b].value.data;
          assert forall c | 0 <= c < NBank(g) && c != b :: Bank(c) == old@Before(Bank(c));
        }
      }
    }

    /** Present a batch of reads, compacted, with address 0 in the unused slots, until all of it
        has been granted; the number of cycles this takes. */
    method RunReads(batch: seq<nat>) returns (cycles: nat)
      requires Ready() && |batch| <= NBank(g) && forall r | r in batch :: r < Size(g)
      modifies mem, rdata, grant, bankOfD
      ensures Ready() && Contents().banks == old(Contents().banks)
      ensures cycles == DrainCycles(g, batch)
    {
      hide BankOf, LocalOf, NBank, Depth, Size, WriteEdge, ReadEdge, Served;
      SizePositive(g);
      cycles := 0;
      var pending: seq<nat> := batch;
      var n := NBank(g);
      var idle := seq(n, i requires 0 <= i < n => None);
      while pending != []
        invariant Ready() && Contents().banks == old(Contents().banks)
        invariant |pending| <= n && forall r | r in pending :: r < Size(g)
        invariant cycles + DrainCycles(g, pending) == DrainCycles(g, batch)
        decreases |pending|
      {
        var reqs := pending + seq(n - |pending|, i requires 0 <= i < n - |pending| => 0);
        forall i | 0 <= i < n
          ensures reqs[i] < Size(g)
        {
          assert i < |pending| ==> reqs[i] == pending[i] && pending[i] in pending;
        }
        NothingWritten(g, Contents().banks, idle);
        Edge(reqs, idle);
        var kept := Compact(reqs, |pending|);
        StillPending(g, reqs, pending);
        pending, cycles := kept, cycles + 1;
      }
    }

    /** The writes that win no bank. */
    method KeepUngranted(pending: seq<Write>, port: seq<Option<Write>>) returns (kept: seq<Write>)
      requires port == SlotsOf(g, pending)
      ensures kept == Ungranted(g, pending, 0)
    {
      hide WriteGranted, SlotsOf;
      kept := [];
      var i := |pending|;
      SlotCount(pending);
      while i > 0
        invariant 0 <= i <= |pending| && kept == Ungranted(g, pending, i)
      {
        i := i - 1;
        var granted := IsWriteGranted(port, i);
        if !granted {
          kept := [pending[i]] + kept;
        }
      }
    }

    lemma SlotCount(pending: seq<Write>)
      ensures |SlotsOf(g, pending)| >= |pending|
    {
    }

    /** The requests of the first `n` slots that were not granted. */
    method Compact(reqs: seq<nat>, n: nat) returns (kept: seq<nat>)
      requires n <= |reqs| <= grant.Length && forall i | 0 <= i < n :: grant[i] == Served(g, reqs, i)
      ensures kept == Waiting(g, reqs, n, 0)
    {
      hide Served;
      kept := [];
      var i := n;
      while i > 0
        invariant 0 <= i <= n && kept == Waiting(g, reqs, n, i)
      {
        i := i - 1;
        if !grant[i] {
          kept := [reqs[i]] + kept;
        }
      }
    }

    /** Present a batch of writes, re-presenting the ones whose wr_grant stays low. */
    method RunWrites(batch: seq<Write>)
      requires Ready() && |batch| <= NBank(g) && forall w | w in batch :: w.addr < Size(g)
      modifies mem, rdata, grant, bankOfD
      ensures Ready() && Flat(g, Contents().banks) == ApplyWrites(old(Flat(g, Contents().banks)), batch)
    {
      hide BankOf, LocalOf, NBank, Depth, Size, WriteEdge, ReadEdge, Served, Flat, ApplyWrites;
      var pending := batch;
      var n := NBank(g);
      SizePositive(g);
      var reqs := seq(n, i requires 0 <= i < n => 0);
      ghost var expected := DrainWrites(g, Contents().banks, batch);
      WriteDrainLinearizable(g, Contents().banks, batch);
      while pending != []
        invariant Ready() && |pending| <= n
        invariant DrainWrites(g, Contents().banks, pending) == expected
        decreases |pending|
      {
        var port := SlotsOf(g, pending);
        var kept := KeepUngranted(pending, port);
        Edge(reqs, port);
        LosersAreUngranted(g, pending, 0);
        assert pending[0..] == pending && BanksBefore(g, pending, 0) == {};
        pending := kept;
      }
    }

    method IsWriteGranted(port: seq<Option<Write>>, i: nat) returns (granted: bool)
      requires i < |port|
      ensures granted == WriteGranted(g, port, i)
    {
      hide BankOf;
      granted := port[i].Some?;
      for j := 0 to i
        invariant granted == (port[i].Some? &&
          forall k | 0 <= k < j && port[k].Some? :: BankOf(g, port[k].value.addr) != BankOf(g, port[i].value.addr))
      {
        if port[i].Some? && port[j].Some? && BankOf(g, port[j].value.addr) == BankOf(g, port[i].value.addr) {
          granted := false;
        }
      }
    }
  }

  lemma SizePositive(g: Geometry)
    ensures Size(g) > 0
  {
  }

  /** Behind the pending requests only fillers: what waits is what the batch still has to present. */
  lemma StillPending(g: Geometry, reqs: seq<nat>, pending: seq<nat>)
    requires pending <= reqs
    ensures Waiting(g, reqs, |pending|, 0) == Unserved(g, pending, {})
    ensures forall r | r in Unserved(g, pending, {}) :: r in pending
  {
    hide Unserved, Waiting;
    UnservedAreWaiting(g, reqs, |pending|, 0);
    assert reqs[0..|pending|] == pending && RequestedBefore(g, reqs, 0) == {};
    UnservedAreRequests(g, pending, {});
  }

  lemma {:induction false} UnservedAreRequests(g: Geometry, reqs: seq<nat>, taken: set<nat>)
    ensures forall r | r in Unserved(g, reqs, taken) :: r in reqs
    decreases reqs
  {
    hide BankOf;
    if reqs != [] {
      if BankOf(g, reqs[0]) in taken {
        UnservedAreRequests(g, reqs[1..], taken);
      } else {
        UnservedAreRequests(g, reqs[1..], taken + {BankOf(g, reqs[0])});
      }
    }
  }

  lemma NothingWritten(g: Geometry, m: Banks, port: seq<Option<Write>>)
    requires forall i | 0 <= i < |port| :: port[i].None?
    ensures WriteEdge(g, m, port) == m
  {
    forall b: nat
      ensures FirstWriter(g, port, b).None?
    {
      NoWriter(g, port, b);
    }
  }

  lemma {:induction false} NoWriter(g: Geometry, port: seq<Option<Write>>, b: nat)
    requires forall i | 0 <= i < |port| :: port[i].None?
    ensures FirstWriter(g, port, b).None?
  {
    if port != [] {
      NoWriter(g, port[1..], b);
    }
  }

  /** The local address the read loop hands to bank `b`. */
  function FirstLocal(g: Geometry, reqs: seq<nat>, b: nat): nat {
    if FirstReader(g, reqs, b).Some? then LocalOf(g, FirstReader(g, reqs, b).value) else 0
  }

  lemma ReadAtLocal(g: Geometry, bank: seq<nat>, reqs: seq<nat>, b: nat)
    requires FirstLocal(g, reqs, b) < |bank|
    ensures ReadEdge(g, bank, FirstReader(g, reqs, b)) == bank[FirstLocal(g, reqs, b)]
  {
    hide FirstReader, LocalOf;
  }

  lemma {:induction false} FirstReaderLocal(g: Geometry, reqs: seq<nat>, b: nat)
    requires forall i | 0 <= i < |reqs| :: reqs[i] < Size(g)
    ensures FirstLocal(g, reqs, b) < Depth(g)
  {
    hide BankOf, LocalOf, Size;
    if reqs != [] {
      if BankOf(g, reqs[0]) == b {
        LocalInRange(g, reqs[0]);
      } else {
        FirstReaderLocal(g, reqs[1..], b);
      }
    }
  }
}

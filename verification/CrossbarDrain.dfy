/** What the crossbar guarantees over whole request batches, under both bank mappings. */
module CrossbarDrain {
  import opened Arithmetic
  import opened Types
  import opened Crossbar

  /* ---- one cycle, seen through the flat memory ---- */

  /** Every granted read returns, one cycle later, the flat memory's value at its address before
      the edge, whatever is written at that same edge. */
  lemma GrantedReadIsFlat(g: Geometry, s: State, reqs: seq<nat>, port: seq<Option<Write>>, i: nat)
    requires Valid(g, s) && |reqs| == |port| == NBank(g) && i < NBank(g)
    requires reqs[i] < Size(g) && Next(g, s, reqs, port).grant[i]
    ensures RdData(Next(g, s, reqs, port), i) == Flat(g, s.banks)[reqs[i]]
  {
    hide BankOf, LocalOf;
    FirstReaderIsServed(g, reqs, i);
    LocalInRange(g, reqs[i]);
  }

  lemma {:induction false} FirstReaderIsServed(g: Geometry, reqs: seq<nat>, i: nat)
    requires i < |reqs| && Served(g, reqs, i)
    ensures FirstReader(g, reqs, BankOf(g, reqs[i])) == Some(reqs[i])
  {
    hide BankOf;
    if i > 0 {
      assert Served(g, reqs[1..], i - 1);
      FirstReaderIsServed(g, reqs[1..], i - 1);
    }
  }

  lemma EdgeKeepsShape(g: Geometry, m: Banks, port: seq<Option<Write>>)
    requires ValidBanks(g, m)
    ensures ValidBanks(g, WriteEdge(g, m, port))
  {
  }

  /** The writes of a list that win their bank when the banks in `taken` are already gone. */
  function Winners(g: Geometry, ws: seq<Write>, taken: set<nat>): seq<Write> {
    if ws == [] then []
    else if BankOf(g, ws[0].addr) in taken then Winners(g, ws[1..], taken)
    else [ws[0]] + Winners(g, ws[1..], taken + {BankOf(g, ws[0].addr)})
  }

  function Losers(g: Geometry, ws: seq<Write>, taken: set<nat>): (r: seq<Write>)
    ensures |r| <= |ws|
    ensures ws != [] && taken == {} ==> |r| < |ws|
  {
    if ws == [] then []
    else if BankOf(g, ws[0].addr) in taken then [ws[0]] + Losers(g, ws[1..], taken)
    else Losers(g, ws[1..], taken + {BankOf(g, ws[0].addr)})
  }

  function FirstOfBank(g: Geometry, ws: seq<Write>, b: nat): Option<Write> {
    if ws == [] then None
    else if BankOf(g, ws[0].addr) == b then Some(ws[0])
    else FirstOfBank(g, ws[1..], b)
  }

  lemma {:induction false} FirstWriterIsFirst(g: Geometry, port: seq<Option<Write>>, b: nat)
    ensures FirstWriter(g, port, b) == FirstOfBank(g, Driven(port), b)
  {
    hide BankOf;
    if port != [] {
      FirstWriterIsFirst(g, port[1..], b);
      if port[0].Some? {
        assert Driven(port)[1..] == Driven(port[1..]);
      } else {
        assert Driven(port) == Driven(port[1..]);
      }
    }
  }

  lemma {:induction false} WinnersAt(g: Geometry, mem: seq<nat>, ws: seq<Write>, taken: set<nat>, a: nat)
    requires a < |mem|
    ensures ApplyWrites(mem, Winners(g, ws, taken))[a] ==
      if BankOf(g, a) !in taken && FirstOfBank(g, ws, BankOf(g, a)).Some?
         && FirstOfBank(g, ws, BankOf(g, a)).value.addr == a
      then FirstOfBank(g, ws, BankOf(g, a)).value.data else mem[a]
    decreases ws
  {
    hide BankOf;
    if ws != [] {
      var b := BankOf(g, ws[0].addr);
      if b in taken {
        WinnersAt(g, mem, ws[1..], taken, a);
      } else {
        var rest := Winners(g, ws[1..], taken + {b});
        assert ([ws[0]] + rest)[1..] == rest;
        WinnersAt(g, ApplyWrite(mem, ws[0]), ws[1..], taken + {b}, a);
      }
    }
  }

  /** One edge performs exactly the winning writes on the flat memory. */
  lemma {:induction false} EdgeIsFlat(g: Geometry, m: Banks, port: seq<Option<Write>>)
    requires ValidBanks(g, m) && forall w | w in Driven(port) :: w.addr < Size(g)
    ensures ValidBanks(g, WriteEdge(g, m, port))
    ensures Flat(g, WriteEdge(g, m, port)) == ApplyWrites(Flat(g, m), Winners(g, Driven(port), {}))
  {
    hide BankOf, LocalOf, Size;
    EdgeKeepsShape(g, m, port);
    var after := Flat(g, WriteEdge(g, m, port));
    var applied := ApplyWrites(Flat(g, m), Winners(g, Driven(port), {}));
    forall a | 0 <= a < Size(g)
      ensures after[a] == applied[a]
    {
      var b := BankOf(g, a);
      LocalInRange(g, a);
      WinnersAt(g, Flat(g, m), Driven(port), {}, a);
      FirstWriterIsFirst(g, port, b);
      var w := FirstOfBank(g, Driven(port), b);
      if w.Some? {
        FirstIsMember(g, Driven(port), b);
        LocalInRange(g, w.value.addr);
        if LocalOf(g, w.value.addr) == LocalOf(g, a) {
          MappingInjective(g, w.value.addr, a);
        }
      }
    }
  }

  lemma {:induction false} FirstIsMember(g: Geometry, ws: seq<Write>, b: nat)
    requires FirstOfBank(g, ws, b).Some?
    ensures FirstOfBank(g, ws, b).value in ws && BankOf(g, FirstOfBank(g, ws, b).value.addr) == b
  {
    hide BankOf;
    if BankOf(g, ws[0].addr) != b {
      FirstIsMember(g, ws[1..], b);
    }
  }

  /** An edge in reset: no read is granted or returns anything but 0, and the writes reach the flat memory
      as at any other edge. */
  lemma ResetIsFlat(g: Geometry, s: State, port: seq<Option<Write>>)
    requires Valid(g, s) && forall w | w in Driven(port) :: w.addr < Size(g)
    ensures var s' := NextInReset(g, s, port);
      && Valid(g, s') && Flat(g, s'.banks) == ApplyWrites(Flat(g, s.banks), Winners(g, Driven(port), {}))
      && forall i | 0 <= i < NBank(g) :: !s'.grant[i] && RdData(s', i) == 0
  {
    hide BankOf, LocalOf, Size, WriteEdge, Flat, Winners, ApplyWrites;
    EdgeIsFlat(g, s.banks, port);
  }

  /* ---- draining a batch of writes ---- */

  /** The banks after presenting `ws` and re-presenting what was not granted, in slot order, until
      nothing is left. */
  function DrainWrites(g: Geometry, m: Banks, ws: seq<Write>): Banks
    decreases |ws|
  {
    if ws == [] then m
    else DrainWrites(g, WriteEdge(g, m, SlotsOf(g, ws)), Losers(g, ws, {}))
  }

  /** The pending writes in the low slots, the other slots not valid. */
  function SlotsOf(g: Geometry, ws: seq<Write>): seq<Option<Write>> {
    seq(Max(NBank(g), |ws|), i requires i >= 0 => if i < |ws| then Some(ws[i]) else None)
  }

  lemma {:induction false} DrivenPending(port: seq<Option<Write>>, ws: seq<Write>)
    requires |ws| <= |port|
    requires forall i | 0 <= i < |port| :: port[i] == if i < |ws| then Some(ws[i]) else None
    ensures Driven(port) == ws
    decreases port
  {
    if port != [] {
      DrivenPending(port[1..], if ws == [] then [] else ws[1..]);
    }
  }

  /** The writes of the batch whose wr_grant stayed low, from slot `k` on. */
  ghost function Ungranted(g: Geometry, ws: seq<Write>, k: nat): seq<Write>
    requires k <= |ws|
    decreases |ws| - k
  {
    if k == |ws| then []
    else (if WriteGranted(g, SlotsOf(g, ws), k) then [] else [ws[k]]) + Ungranted(g, ws, k + 1)
  }

  function BanksBefore(g: Geometry, ws: seq<Write>, k: nat): set<nat>
    requires k <= |ws|
  {
    set i | 0 <= i < k :: BankOf(g, ws[i].addr)
  }

  /** What is re-presented is what the hardware did not grant. */
  lemma {:induction false} LosersAreUngranted(g: Geometry, ws: seq<Write>, k: nat)
    requires k <= |ws|
    ensures Losers(g, ws[k..], BanksBefore(g, ws, k)) == Ungranted(g, ws, k)
    decreases |ws| - k
  {
    hide BankOf;
    if k < |ws| {
      LosersAreUngranted(g, ws, k + 1);
      var slots := SlotsOf(g, ws);
      assert ws[k..][1..] == ws[k + 1..];
      assert BanksBefore(g, ws, k + 1) == BanksBefore(g, ws, k) + {BankOf(g, ws[k].addr)};
      if BankOf(g, ws[k].addr) in BanksBefore(g, ws, k) {
        var i :| 0 <= i < k && BankOf(g, ws[i].addr) == BankOf(g, ws[k].addr);
        assert slots[i].value == ws[i];
        assert BanksBefore(g, ws, k + 1) == BanksBefore(g, ws, k);
      } else {
        assert WriteGranted(g, slots, k);
      }
    }
  }

  lemma {:induction false} SwapBehind(mem: seq<nat>, w: Write, ws: seq<Write>)
    requires forall v | v in ws :: v.addr != w.addr
    ensures ApplyWrites(ApplyWrite(mem, w), ws) == ApplyWrite(ApplyWrites(mem, ws), w)
    decreases ws
  {
    if ws != [] {
      assert ws[0].addr != w.addr;
      assert ApplyWrite(ApplyWrite(mem, w), ws[0]) == ApplyWrite(ApplyWrite(mem, ws[0]), w);
      SwapBehind(ApplyWrite(mem, ws[0]), w, ws[1..]);
    }
  }

  lemma {:induction false} WinnersAvoidTaken(g: Geometry, ws: seq<Write>, taken: set<nat>)
    ensures forall v | v in Winners(g, ws, taken) :: BankOf(g, v.addr) !in taken && v in ws
    decreases ws
  {
    hide BankOf;
    if ws != [] {
      if BankOf(g, ws[0].addr) in taken {
        WinnersAvoidTaken(g, ws[1..], taken);
      } else {
        WinnersAvoidTaken(g, ws[1..], taken + {BankOf(g, ws[0].addr)});
      }
    }
  }

  lemma {:induction false} LosersAreMembers(g: Geometry, ws: seq<Write>, taken: set<nat>)
    ensures forall v | v in Losers(g, ws, taken) :: v in ws
    decreases ws
  {
    hide BankOf;
    if ws != [] {
      if BankOf(g, ws[0].addr) in taken {
        LosersAreMembers(g, ws[1..], taken);
      } else {
        LosersAreMembers(g, ws[1..], taken + {BankOf(g, ws[0].addr)});
      }
    }
  }

  /** Letting the winners overtake the losers does not change the memory: a loser is only overtaken
      by writes to other banks, hence to other addresses. */
  lemma {:induction false} OvertakingIsHarmless(g: Geometry, mem: seq<nat>, ws: seq<Write>, taken: set<nat>)
    ensures ApplyWrites(ApplyWrites(mem, Winners(g, ws, taken)), Losers(g, ws, taken)) == ApplyWrites(mem, ws)
    decreases ws
  {
    hide BankOf;
    if ws != [] {
      var w, b := ws[0], BankOf(g, ws[0].addr);
      if b in taken {
        var won := Winners(g, ws[1..], taken);
        WinnersAvoidTaken(g, ws[1..], taken);
        SwapBehind(mem, w, won);
        assert ([w] + Losers(g, ws[1..], taken))[1..] == Losers(g, ws[1..], taken);
        OvertakingIsHarmless(g, ApplyWrite(mem, w), ws[1..], taken);
      } else {
        var won := Winners(g, ws[1..], taken + {b});
        assert ([w] + won)[1..] == won;
        OvertakingIsHarmless(g, ApplyWrite(mem, w), ws[1..], taken + {b});
      }
    }
  }

  /** The drain is linearizable: it ends in the memory that the same writes leave when applied one
      at a time in slot order. */
  lemma {:induction false} WriteDrainLinearizable(g: Geometry, m: Banks, ws: seq<Write>)
    requires ValidBanks(g, m) && forall w | w in ws :: w.addr < Size(g)
    ensures ValidBanks(g, DrainWrites(g, m, ws))
    ensures Flat(g, DrainWrites(g, m, ws)) == ApplyWrites(Flat(g, m), ws)
    decreases |ws|
  {
    hide BankOf, LocalOf, Size, WriteEdge, Flat, ApplyWrites, ValidBanks;
    if ws == [] {
      NoWrites(Flat(g, m));
    } else {
      DrivenPending(SlotsOf(g, ws), ws);
      EdgeIsFlat(g, m, SlotsOf(g, ws));
      LosersAreMembers(g, ws, {});
      OvertakingIsHarmless(g, Flat(g, m), ws, {});
      WriteDrainLinearizable(g, WriteEdge(g, m, SlotsOf(g, ws)), Losers(g, ws, {}));
    }
  }

  lemma NoWrites(mem: seq<nat>)
    ensures ApplyWrites(mem, []) == mem
  {
  }

  /* ---- exact drain time of a batch of reads ---- */

  /** Requests of the list for bank `b`. */
  function Load(g: Geometry, reqs: seq<nat>, b: nat): nat {
    if reqs == [] then 0
    else (if BankOf(g, reqs[0]) == b then 1 else 0) + Load(g, reqs[1..], b)
  }

  /** The requests not served when the banks in `taken` are already gone, order kept. */
  function Unserved(g: Geometry, reqs: seq<nat>, taken: set<nat>): (r: seq<nat>)
    ensures |r| <= |reqs|
    ensures reqs != [] && taken == {} ==> |r| < |reqs|
  {
    if reqs == [] then []
    else if BankOf(g, reqs[0]) in taken then [reqs[0]] + Unserved(g, reqs[1..], taken)
    else Unserved(g, reqs[1..], taken + {BankOf(g, reqs[0])})
  }

  /** Cycles until every request of the batch has been granted. */
  function DrainCycles(g: Geometry, reqs: seq<nat>): nat
    decreases |reqs|
  {
    if reqs == [] then 0 else 1 + DrainCycles(g, Unserved(g, reqs, {}))
  }

  lemma {:induction false} LoadDropsByOne(g: Geometry, reqs: seq<nat>, taken: set<nat>, b: nat)
    ensures Load(g, Unserved(g, reqs, taken), b) ==
      if b in taken || Load(g, reqs, b) == 0 then Load(g, reqs, b) else Load(g, reqs, b) - 1
    decreases reqs
  {
    hide BankOf;
    if reqs != [] {
      var c := BankOf(g, reqs[0]);
      if c in taken {
        LoadDropsByOne(g, reqs[1..], taken, b);
        assert ([reqs[0]] + Unserved(g, reqs[1..], taken))[1..] == Unserved(g, reqs[1..], taken);
      } else {
        LoadDropsByOne(g, reqs[1..], taken + {c}, b);
      }
    }
  }

  /** The busiest bank decides: the drain takes exactly as many cycles as the largest bank load. */
  lemma {:induction false} DrainTimeIsBusiestBank(g: Geometry, reqs: seq<nat>)
    ensures forall b: nat :: Load(g, reqs, b) <= DrainCycles(g, reqs)
    ensures reqs != [] ==> exists b: nat :: b < NBank(g) && Load(g, reqs, b) == DrainCycles(g, reqs)
    decreases |reqs|
  {
    hide BankOf, NBank;
    if reqs != [] {
      var rest := Unserved(g, reqs, {});
      DrainTimeIsBusiestBank(g, rest);
      forall b: nat
        ensures Load(g, reqs, b) <= DrainCycles(g, reqs)
      {
        LoadDropsByOne(g, reqs, {}, b);
        assert Load(g, rest, b) <= DrainCycles(g, rest);
      }
      if rest == [] {
        var b := BankOf(g, reqs[0]);
        assert Load(g, reqs, b) == 1;
      } else {
        var b: nat :| b < NBank(g) && Load(g, rest, b) == DrainCycles(g, rest);
        LoadDropsByOne(g, reqs, {}, b);
        assert Load(g, reqs, b) == DrainCycles(g, reqs);
      }
    }
  }

  /** The requests of slots k .. n whose grant stayed low. */
  ghost function Waiting(g: Geometry, reqs: seq<nat>, n: nat, k: nat): seq<nat>
    requires k <= n <= |reqs|
    decreases n - k
  {
    if k == n then [] else (if Served(g, reqs, k) then [] else [reqs[k]]) + Waiting(g, reqs, n, k + 1)
  }

  function RequestedBefore(g: Geometry, reqs: seq<nat>, k: nat): set<nat>
    requires k <= |reqs|
  {
    set i | 0 <= i < k :: BankOf(g, reqs[i])
  }

  /** Compacting the waiting requests of the low `n` slots, whatever fillers sit behind them. */
  lemma {:induction false} UnservedAreWaiting(g: Geometry, reqs: seq<nat>, n: nat, k: nat)
    requires k <= n <= |reqs|
    ensures Unserved(g, reqs[k..n], RequestedBefore(g, reqs, k)) == Waiting(g, reqs, n, k)
    decreases n - k
  {
    hide BankOf;
    if k < n {
      UnservedAreWaiting(g, reqs, n, k + 1);
      assert reqs[k..n][1..] == reqs[k + 1..n];
      assert RequestedBefore(g, reqs, k + 1) == RequestedBefore(g, reqs, k) + {BankOf(g, reqs[k])};
      if BankOf(g, reqs[k]) in RequestedBefore(g, reqs, k) {
        assert RequestedBefore(g, reqs, k + 1) == RequestedBefore(g, reqs, k);
      }
    }
  }
}

/** The two-entry valid/ready slice (`rtl/pip/pipe_slice.sv`) and chains of it. */
module PipeSlice {
  import opened Types

  datatype Slice = Slice(cnt: nat, r0: Byte, r1: Byte)

  predicate Valid(s: Slice) { s.cnt <= 2 }

  function MValid(s: Slice): bool { s.cnt > 0 }

  function SReady(s: Slice): bool { s.cnt < 2 }

  /** One clock edge with rst_n high; cnt is two bits wide. */
  function Next(s: Slice, sValid: bool, sData: Byte, mReady: bool): Slice {
    var push, pop := sValid && SReady(s), MValid(s) && mReady;
    Slice((s.cnt + (if push then 1 else 0) - (if pop then 1 else 0)) % 4,
          if pop && s.cnt == 2 then s.r1 else if push && (s.cnt == 0 || pop) then sData else s.r0,
          if s.cnt == 1 && push && !pop then sData else s.r1)
  }

  /** The words a slice holds, oldest first. */
  function Held(s: Slice): (h: seq<Byte>)
    ensures |h| <= 2
  {
    if s.cnt == 0 then [] else if s.cnt == 1 then [s.r0] else [s.r0, s.r1]
  }

  /** One edge moves the oldest word out and the offered word in, first in first out. */
  lemma SliceIsFifo(s: Slice, sValid: bool, sData: Byte, mReady: bool)
    requires Valid(s)
    ensures Valid(Next(s, sValid, sData, mReady))
    ensures (if MValid(s) && mReady then [s.r0] else []) + Held(Next(s, sValid, sData, mReady))
      == Held(s) + (if sValid && SReady(s) then [sData] else [])
    ensures MValid(s) && !mReady ==> MValid(Next(s, sValid, sData, mReady)) && Next(s, sValid, sData, mReady).r0 == s.r0
  {
  }

  /** The registers as an object. */
  class Registers {
    var cnt: nat
    var r0: Byte
    var r1: Byte

    ghost predicate Valid()
      reads this
    {
      cnt <= 2
    }

    function State(): Slice
      reads this
    {
      Slice(cnt, r0, r1)
    }

    constructor ()
      ensures Valid() && Held(State()) == []
    {
      cnt, r0, r1 := 0, 0, 0;
    }

    /** always_ff @(posedge clk). */
    method Posedge(rst_n: bool, sValid: bool, sData: Byte, mReady: bool)
      requires Valid()
      modifies this
      ensures Valid()
      ensures rst_n ==> State() == Next(old(State()), sValid, sData, mReady)
      ensures !rst_n ==> Held(State()) == []
    {
      SliceIsFifo(State(), sValid, sData, mReady);
      if !rst_n {
        cnt, r0, r1 := 0, 0, 0;
      } else {
        var push, pop := sValid && cnt < 2, cnt > 0 && mReady;
        var cnt', r0', r1' := cnt, r0, r1;
        if push { cnt' := cnt' + 1; }
        if pop { cnt' := cnt' - 1; }
        if pop && cnt == 2 { r0' := r1; } else if push && (cnt == 0 || pop) { r0' := sData; }
        if cnt == 1 && push && !pop { r1' := sData; }
        cnt, r0, r1 := cnt', r0', r1';
      }
    }
  }

  /* ---- a chain: the master side of each slice drives the slave side of the next ---- */

  type Chain = seq<Slice>

  ghost predicate ValidChain(c: Chain) { c != [] && forall i | 0 <= i < |c| :: Valid(c[i]) }

  /** What slice `i` sees on its slave side and from its successor. */
  function Offered(c: Chain, i: nat, valid: bool): bool
    requires i < |c|
  {
    if i == 0 then valid else MValid(c[i - 1])
  }

  function OfferedData(c: Chain, i: nat, data: Byte): Byte
    requires i < |c|
  {
    if i == 0 then data else c[i - 1].r0
  }

  function Drained(c: Chain, i: nat, ready: bool): bool
    requires i < |c|
  {
    if i == |c| - 1 then ready else SReady(c[i + 1])
  }

  function NextSlice(c: Chain, i: nat, valid: bool, data: Byte, ready: bool): Slice
    requires i < |c|
  {
    Next(c[i], Offered(c, i, valid), OfferedData(c, i, data), Drained(c, i, ready))
  }

  /** All slices clock at once. */
  function NextChain(c: Chain, valid: bool, data: Byte, ready: bool): Chain {
    seq(|c|, i requires 0 <= i < |c| => NextSlice(c, i, valid, data, ready))
  }

  /** The words inside the slices from `i` on, oldest first. */
  function InFlight(c: Chain, i: nat): seq<Byte>
    requires i <= |c|
    decreases |c| - i
  {
    if i == |c| then [] else InFlight(c, i + 1) + Held(c[i])
  }

  /** What passes from slice i-1 (or the source) into slice i in one cycle, and from the last slice
      to the sink. */
  function Passed(c: Chain, i: nat, valid: bool, data: Byte, ready: bool): seq<Byte>
    requires c != [] && i <= |c|
  {
    if i == |c| then (if MValid(c[i - 1]) && ready then [c[i - 1].r0] else [])
    else if Offered(c, i, valid) && SReady(c[i]) then [OfferedData(c, i, data)] else []
  }

  lemma StagePasses(c: Chain, i: nat, valid: bool, data: Byte, ready: bool)
    requires ValidChain(c) && i < |c|
    ensures Passed(c, i + 1, valid, data, ready) + Held(NextSlice(c, i, valid, data, ready))
      == Held(c[i]) + Passed(c, i, valid, data, ready)
    ensures Valid(NextSlice(c, i, valid, data, ready))
  {
    hide Next, Held;
    SliceIsFifo(c[i], Offered(c, i, valid), OfferedData(c, i, data), Drained(c, i, ready));
  }

  lemma Regroup(out': seq<Byte>, rest': seq<Byte>, rest: seq<Byte>, next: seq<Byte>, held': seq<Byte>, held: seq<Byte>, in': seq<Byte>)
    requires out' + rest' == rest + next && next + held' == held + in'
    ensures out' + (rest' + held') == (rest + held) + in'
  {
    assert out' + (rest' + held') == (out' + rest') + held';
    assert (rest + next) + held' == rest + (next + held');
    assert rest + (held + in') == (rest + held) + in';
  }

  lemma {:induction false} ChainIsFifo(c: Chain, i: nat, valid: bool, data: Byte, ready: bool)
    requires ValidChain(c) && i <= |c|
    ensures ValidChain(NextChain(c, valid, data, ready))
    ensures Passed(c, |c|, valid, data, ready) + InFlight(NextChain(c, valid, data, ready), i)
      == InFlight(c, i) + Passed(c, i, valid, data, ready)
    decreases |c| - i
  {
    hide NextSlice, Held, Passed;
    var c' := NextChain(c, valid, data, ready);
    forall k | 0 <= k < |c|
      ensures Valid(c'[k])
    {
      StagePasses(c, k, valid, data, ready);
    }
    if i < |c| {
      ChainIsFifo(c, i + 1, valid, data, ready);
      StagePasses(c, i, valid, data, ready);
      Regroup(Passed(c, |c|, valid, data, ready), InFlight(c', i + 1), InFlight(c, i + 1), Passed(c, i + 1, valid, data, ready),
              Held(c'[i]), Held(c[i]), Passed(c, i, valid, data, ready));
    }
  }

  lemma {:induction false} InFlightBound(c: Chain, i: nat)
    requires i <= |c|
    ensures |InFlight(c, i)| <= 2 * (|c| - i)
    decreases |c| - i
  {
    if i < |c| {
      InFlightBound(c, i + 1);
    }
  }

  /* ---- runs ---- */

  /** The environment in each cycle. */
  datatype Env = Env(valid: nat -> bool, data: nat -> Byte, ready: nat -> bool)

  /** The chain after some cycles, with the words accepted from the source and delivered so far. */
  datatype System = System(chain: Chain, accepted: seq<Byte>, delivered: seq<Byte>)

  function Trace(c: Chain, e: Env, n: nat): (s: System)
    requires c != []
    ensures |s.chain| == |c|
  {
    if n == 0 then System(c, [], [])
    else
      var s, t := Trace(c, e, n - 1), n - 1;
      System(NextChain(s.chain, e.valid(t), e.data(t), e.ready(t)),
             s.accepted + Passed(s.chain, 0, e.valid(t), e.data(t), e.ready(t)),
             s.delivered + Passed(s.chain, |c|, e.valid(t), e.data(t), e.ready(t)))
  }

  /** Nothing is lost, duplicated or reordered under any valid/ready pattern: what went in is what
      came out followed by what is still inside, at most two words a slice. */
  lemma {:induction false} ChainConserves(c: Chain, e: Env, n: nat)
    requires ValidChain(c)
    ensures var s := Trace(c, e, n);
      && ValidChain(s.chain)
      && InFlight(c, 0) + s.accepted == s.delivered + InFlight(s.chain, 0)
      && |InFlight(s.chain, 0)| <= 2 * |c|
  {
    hide NextChain, Passed, InFlight;
    var s := Trace(c, e, n);
    if n > 0 {
      ChainConserves(c, e, n - 1);
      var was, t := Trace(c, e, n - 1), n - 1;
      ChainIsFifo(was.chain, 0, e.valid(t), e.data(t), e.ready(t));
      var in', out' := Passed(was.chain, 0, e.valid(t), e.data(t), e.ready(t)),
                       Passed(was.chain, |c|, e.valid(t), e.data(t), e.ready(t));
      calc {
        InFlight(c, 0) + s.accepted;
        (InFlight(c, 0) + was.accepted) + in';
        (was.delivered + InFlight(was.chain, 0)) + in';
        was.delivered + (InFlight(was.chain, 0) + in');
        was.delivered + (out' + InFlight(s.chain, 0));
        s.delivered + InFlight(s.chain, 0);
      }
    } else {
      assert InFlight(c, 0) + [] == [] + InFlight(c, 0);
    }
    InFlightBound(s.chain, 0);
  }

  /** From empty slices the delivered words are a prefix of the accepted ones. */
  lemma DeliveredIsPrefix(c: Chain, e: Env, n: nat)
    requires ValidChain(c) && InFlight(c, 0) == []
    ensures Trace(c, e, n).delivered <= Trace(c, e, n).accepted
    ensures |Trace(c, e, n).accepted| - |Trace(c, e, n).delivered| <= 2 * |c|
  {
    hide Trace, InFlight;
    ChainConserves(c, e, n);
    var s := Trace(c, e, n);
    assert [] + s.accepted == s.accepted;
  }

  /** A word offered to the sink and not taken is still offered, unchanged, in the next cycle. */
  lemma StalledDataIsStable(c: Chain, e: Env, n: nat)
    requires ValidChain(c) && MValid(Trace(c, e, n).chain[|c| - 1]) && !e.ready(n)
    ensures MValid(Trace(c, e, n + 1).chain[|c| - 1])
    ensures Trace(c, e, n + 1).chain[|c| - 1].r0 == Trace(c, e, n).chain[|c| - 1].r0
  {
    ChainConserves(c, e, n);
    var was, k := Trace(c, e, n).chain, |c| - 1;
    SliceIsFifo(was[k], Offered(was, k, e.valid(n)), OfferedData(was, k, e.data(n)), e.ready(n));
  }

  /** A slice that is offered a word in a cycle holds one after it. */
  lemma OfferedStays(s: Slice, sData: Byte, mReady: bool)
    requires Valid(s)
    ensures MValid(Next(s, true, sData, mReady))
  {
  }

  /** A slice whose input offers a word holds one in the next cycle. */
  lemma OfferedFills(c: Chain, i: nat, sValid: bool, sData: Byte, mReady: bool)
    requires ValidChain(c) && i < |c| && if i == 0 then sValid else MValid(c[i - 1])
    ensures MValid(NextChain(c, sValid, sData, mReady)[i])
  {
    hide Next, MValid;
    OfferedStays(c[i], OfferedData(c, i, sData), Drained(c, i, mReady));
  }

  /** With a source that always has data, slice `i` holds a word from cycle i+1 on. */
  lemma {:induction false} FillsUp(c: Chain, e: Env, i: nat, n: nat)
    requires ValidChain(c) && (forall t :: e.valid(t)) && i < |c| && n > i
    ensures MValid(Trace(c, e, n).chain[i])
    decreases i
  {
    hide NextChain, Passed, MValid;
    ChainConserves(c, e, n - 1);
    var was, t := Trace(c, e, n - 1).chain, n - 1;
    if i > 0 {
      FillsUp(c, e, i - 1, n - 1);
    }
    OfferedFills(was, i, e.valid(t), e.data(t), e.ready(t));
  }

  /** Full throughput: from any state, a source that always has data and a sink that is always ready
      see one transfer in every cycle once the chain has filled. */
  lemma FullThroughput(c: Chain, e: Env, n: nat)
    requires ValidChain(c) && (forall t :: e.valid(t)) && (forall t :: e.ready(t)) && n >= |c|
    ensures |Trace(c, e, n + 1).delivered| == |Trace(c, e, n).delivered| + 1
  {
    FillsUp(c, e, |c| - 1, n);
  }

  /** One cycle of a chain whose first `n` slices hold one word each. */
  lemma LatencyStep(c: Chain, n: nat, data: Byte)
    requires c != [] && forall i | 0 <= i < |c| :: c[i].cnt == if i < n then 1 else 0
    ensures forall i | 0 <= i < |c| :: NextSlice(c, i, true, data, true).cnt == if i < n + 1 then 1 else 0
    ensures |Passed(c, 0, true, data, true)| == 1 && |Passed(c, |c|, true, data, true)| == if n >= |c| then 1 else 0
  {
  }

  /** From empty slices the first word appears after one cycle a slice, and from then on one a cycle. */
  lemma {:induction false} Latency(c: Chain, e: Env, n: nat)
    requires ValidChain(c) && (forall t :: e.valid(t)) && (forall t :: e.ready(t))
    requires forall i | 0 <= i < |c| :: c[i].cnt == 0
    ensures forall i | 0 <= i < |c| :: Trace(c, e, n).chain[i].cnt == if i < n then 1 else 0
    ensures |Trace(c, e, n).delivered| == (if n <= |c| then 0 else n - |c|) && |Trace(c, e, n).accepted| == n
  {
    hide NextSlice, Passed;
    if n > 0 {
      Latency(c, e, n - 1);
      LatencyStep(Trace(c, e, n - 1).chain, n - 1, e.data(n - 1));
    }
  }
}

/** The single-port USB serial demo: every received byte is queued to be sent back. */
module CdcAcm {
  import opened Bytes
  import opened Ring
  import opened Lane

  const TX_CHUNK: nat := 16

  /** One turn of the handler's outer loop, as the hardware decides it. */
  datatype Pass = Pass(rx: seq<byte>, txReady: bool)

  function Echoes(rx: seq<byte>): (r: seq<Event>)
    ensures |r| == |rx| && forall i :: 0 <= i < |r| ==> r[i] == Put([rx[i]])
  {
    seq(|rx|, i requires 0 <= i < |rx| => Put([rx[i]]))
  }

  function PassEvents(p: Pass): seq<Event> {
    Echoes(p.rx) + if p.txReady then [Take] else []
  }

  function HandlerEvents(passes: seq<Pass>): seq<Event> {
    if passes == [] then [] else
    var n := |passes| - 1;
    HandlerEvents(passes[..n]) + PassEvents(passes[n])
  }

  /** The bytes the handler reads. */
  function RxOf(passes: seq<Pass>): seq<byte> {
    if passes == [] then [] else RxOf(passes[..|passes| - 1]) + passes[|passes| - 1].rx
  }

  /** What RxOf is: the bytes of one pass, and of several those of each in turn. */
  lemma {:induction false} RxOfAdds(a: seq<Pass>, b: seq<Pass>, p: Pass)
    ensures RxOf(a + b) == RxOf(a) + RxOf(b)
    ensures RxOf([p]) == p.rx
    decreases |b|
  {
    assert [p][..0] == [];
    if b == [] {
      assert a + b == a;
    } else {
      var n := |b| - 1;
      RxOfAdds(a, b[..n], p);
      assert (a + b)[..|a + b| - 1] == a + b[..n];
      assert RxOf(a + b) == (RxOf(a) + RxOf(b[..n])) + b[n].rx;
    }
  }

  /** The number of steps of some passes. */
  function StepsOf(passes: seq<Pass>): nat {
    if passes == [] then 0 else
    var n := |passes| - 1;
    StepsOf(passes[..n]) + |passes[n].rx| + if passes[n].txReady then 1 else 0
  }

  /** From step number at on, some steps are those of one pass: each byte read is put, in order, and then
      the ring is drained if the FIFO is ready. */
  ghost predicate PassAt(evs: seq<Event>, at: nat, p: Pass) {
    && at + |p.rx| + (if p.txReady then 1 else 0) <= |evs|
    && (forall j :: 0 <= j < |p.rx| ==> evs[at + j] == Put([p.rx[j]]))
    && (p.txReady ==> evs[at + |p.rx|] == Take)
  }

  lemma PassStays(evs: seq<Event>, more: seq<Event>, at: nat, p: Pass)
    requires PassAt(evs, at, p)
    ensures PassAt(evs + more, at, p)
  {
  }

  lemma PassAdded(evs: seq<Event>, p: Pass)
    ensures PassAt(evs + PassEvents(p), |evs|, p)
    ensures |PassEvents(p)| == |p.rx| + if p.txReady then 1 else 0
  {
    assert forall j :: 0 <= j < |p.rx| ==> (evs + PassEvents(p))[|evs| + j] == PassEvents(p)[j] == Echoes(p.rx)[j];
  }

  lemma {:induction false} StepCount(passes: seq<Pass>)
    ensures |HandlerEvents(passes)| == StepsOf(passes)
    decreases |passes|
  {
    if passes != [] {
      var n := |passes| - 1;
      StepCount(passes[..n]);
      PassAdded(HandlerEvents(passes[..n]), passes[n]);
    }
  }

  lemma {:induction false} PassInCall(passes: seq<Pass>, k: nat)
    requires k < |passes|
    ensures PassAt(HandlerEvents(passes), StepsOf(passes[..k]), passes[k])
    decreases |passes|
  {
    var n := |passes| - 1;
    var init := passes[..n];
    if k == n {
      StepCount(init);
      PassAdded(HandlerEvents(init), passes[n]);
    } else {
      PassInCall(init, k);
      assert init[..k] == passes[..k];
      PassStays(HandlerEvents(init), PassEvents(passes[n]), StepsOf(init[..k]), init[k]);
    }
  }

  /** The steps of a handler call are those of its passes, one after the other, and no others. */
  lemma HandlerEventsAre(passes: seq<Pass>)
    ensures |HandlerEvents(passes)| == StepsOf(passes)
    ensures forall k :: 0 <= k < |passes| ==> PassAt(HandlerEvents(passes), StepsOf(passes[..k]), passes[k])
  {
    StepCount(passes);
    forall k | 0 <= k < |passes|
      ensures PassAt(HandlerEvents(passes), StepsOf(passes[..k]), passes[k])
    {
      PassInCall(passes, k);
    }
  }

  lemma {:induction false} EchoesPut(rx: seq<byte>)
    ensures PutBytes(Echoes(rx)) == rx
    decreases |rx|
  {
    if rx != [] {
      EchoesPut(rx[1..]);
      assert Echoes(rx)[1..] == Echoes(rx[1..]);
      assert PutBytes(Echoes(rx)) == [rx[0]] + PutBytes(Echoes(rx[1..]));
    }
  }

  lemma {:induction false} HandlerPuts(passes: seq<Pass>)
    ensures PutBytes(HandlerEvents(passes)) == RxOf(passes)
    decreases |passes|
  {
    if passes != [] {
      var n := |passes| - 1;
      var tx: seq<Event> := if passes[n].txReady then [Take] else [];
      HandlerPuts(passes[..n]);
      EchoesPut(passes[n].rx);
      assert PutBytes(tx) == [];
      PutBytesAppend(Echoes(passes[n].rx), tx);
      PutBytesAppend(HandlerEvents(passes[..n]), PassEvents(passes[n]));
    }
  }

  /** The echo in every run: of the bytes received, those the ring had room for at their arrival are
      offered back in order, with the rest of them still in the ring; the others are dropped; and the TX
      interrupt is on while the ring holds anything. */
  lemma EchoesWhatFits(cap: nat, passes: seq<Pass>)
    ensures var l := Run(cap, TX_CHUNK, FRESH, HandlerEvents(passes));
      Conserved(cap, l) && Arrivals(l.log) == RxOf(passes) && |l.queue| <= cap
  {
    var evs := HandlerEvents(passes);
    RunConserved(cap, TX_CHUNK, FRESH, evs);
    RunArrivals(cap, TX_CHUNK, FRESH, evs);
    HandlerPuts(passes);
    assert [] + PutBytes(evs) == PutBytes(evs);
  }

  class Port {
    const rb: RingBuf<byte>
    var txIrq: bool
    ghost var log: seq<Entry>

    ghost predicate Valid()
      reads this, rb, rb.buffer
    {
      rb.Valid()
    }

    ghost function Abs(): Lane
      reads this, rb
    {
      Lane(rb.contents, txIrq, log)
    }

    constructor (size: nat)
      requires size > 0
      ensures Valid() && Abs() == FRESH && rb.buffer.Length == size && fresh(rb) && fresh(rb.buffer)
    {
      rb := new RingBuf(size);
      txIrq, log := false, [];
    }

    /** send_cdc_acm */
    method SendCdcAcm(data: seq<byte>)
      requires Valid()
      modifies this`txIrq, this`log, rb, rb.buffer
      ensures Valid() && Abs() == PutStep(rb.buffer.Length, old(Abs()), data)
      ensures txIrq == (old(txIrq) || (data != [] && old(rb.used) < rb.buffer.Length))
    {
      var wrote := rb.Put(data);
      if wrote > 0 {
        txIrq := true;
      }
      log := Append(log, Arrived(data, wrote));
    }

    /** The handler's transmit part. */
    method TransmitReady()
      requires Valid()
      modifies this`txIrq, this`log, rb
      ensures Valid() && Abs() == TakeStep(TX_CHUNK, old(Abs()))
      ensures if old(rb.contents) == [] then !txIrq && rb.contents == []
              else txIrq == old(txIrq) && rb.contents == old(rb.contents)[Min(16, |old(rb.contents)|)..]
    {
      ghost var queue := rb.contents;
      var out := rb.Get(TX_CHUNK);
      assert out == queue[..|out|] && rb.contents == queue[|out|..];
      if |out| == 0 {
        txIrq := false;
        log := Append(log, FoundEmpty);
      } else {
        log := Append(log, Offered(out));
      }
    }

    /** One turn of the handler's outer loop. */
    method HandlePass(p: Pass)
      requires Valid()
      modifies this`txIrq, this`log, rb, rb.buffer
      ensures Valid() && Abs() == Run(rb.buffer.Length, TX_CHUNK, old(Abs()), PassEvents(p))
    {
      ghost var cap, start := rb.buffer.Length, Abs();
      for i := 0 to |p.rx|
        invariant Valid() && Abs() == Run(cap, TX_CHUNK, start, Echoes(p.rx[..i]))
      {
        SendCdcAcm([p.rx[i]]);
        assert Echoes(p.rx[..i + 1]) == Echoes(p.rx[..i]) + [Put([p.rx[i]])];
        RunSnoc(cap, TX_CHUNK, start, Echoes(p.rx[..i]), Put([p.rx[i]]));
      }
      assert p.rx[..|p.rx|] == p.rx;
      if p.txReady {
        TransmitReady();
        RunSnoc(cap, TX_CHUNK, start, Echoes(p.rx), Take);
      } else {
        assert Echoes(p.rx) + [] == Echoes(p.rx);
      }
    }

    /** interrupt_handler */
    method InterruptHandler(passes: seq<Pass>)
      requires Valid()
      modifies this`txIrq, this`log, rb, rb.buffer
      ensures Valid() && Abs() == Run(rb.buffer.Length, TX_CHUNK, old(Abs()), HandlerEvents(passes))
      ensures Arrivals(log) == Arrivals(old(log)) + RxOf(passes) && |log| == |old(log)| + StepsOf(passes)
      ensures old(rb.contents != [] ==> txIrq) ==> (rb.contents != [] ==> txIrq)
    {
      ghost var cap, start := rb.buffer.Length, Abs();
      for i := 0 to |passes|
        invariant Valid() && Abs() == Run(cap, TX_CHUNK, start, HandlerEvents(passes[..i]))
      {
        HandlePass(passes[i]);
        assert passes[..i + 1][..i] == passes[..i];
        RunAppend(cap, TX_CHUNK, start, HandlerEvents(passes[..i]), PassEvents(passes[i]));
      }
      assert passes[..|passes|] == passes;
      HandlerEventsAre(passes);
      HandlerPuts(passes);
      RunArrivals(cap, TX_CHUNK, start, HandlerEvents(passes));
      RunLogs(cap, TX_CHUNK, start, HandlerEvents(passes));
      if start.queue != [] ==> start.irq {
        RunWakes(cap, TX_CHUNK, start, HandlerEvents(passes));
      }
    }
  }
}

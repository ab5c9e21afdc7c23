/** The two-port USB serial demo: bytes received on one port are sent on the other. Ring i holds what
    arrived on port i; the TX interrupt of port 1 - i drains it. */
module CdcAcmComposite {
  import opened Bytes
  import opened Ring
  import L = Lane

  const CHUNK: nat := 64
  const RING_SIZE: nat := 128

  /** What uart_fifo_read yields: an error counts as no bytes. */
  datatype Read = Failed | Data(bytes: seq<byte>)

  datatype Pass = Pass(rx: Option<Read>, txReady: bool)

  function ReadBytes(r: Read): seq<byte> {
    if r.Data? then r.bytes else []
  }

  /** The steps a handler call takes on the ring it fills, and on the ring it drains. */
  function Fills(passes: seq<Pass>): seq<L.Event> {
    if passes == [] then [] else
    var n := |passes| - 1;
    if passes[n].rx.Some? then Fills(passes[..n]) + [L.Put(ReadBytes(passes[n].rx.value))] else Fills(passes[..n])
  }

  function Drains(passes: seq<Pass>): seq<L.Event> {
    if passes == [] then [] else
    var n := |passes| - 1;
    if passes[n].txReady then Drains(passes[..n]) + [L.Take] else Drains(passes[..n])
  }

  /** The bytes a handler call reads: those of every successful read, in order. */
  function RxBytes(passes: seq<Pass>): seq<byte> {
    if passes == [] then [] else
    (match passes[0].rx case Some(Data(bytes)) => bytes case _ => []) + RxBytes(passes[1..])
  }

  /** How often the TX FIFO is found ready. */
  function TxReadyN(passes: seq<Pass>): nat {
    if passes == [] then 0 else (if passes[0].txReady then 1 else 0) + TxReadyN(passes[1..])
  }

  /** What these two are: one pass reads its data, if there is any, and counts if the FIFO is ready; several
      passes do so in turn. */
  lemma {:induction false} PassesAdd(a: seq<Pass>, b: seq<Pass>, bytes: seq<byte>, ready: bool)
    ensures RxBytes(a + b) == RxBytes(a) + RxBytes(b) && TxReadyN(a + b) == TxReadyN(a) + TxReadyN(b)
    ensures RxBytes([Pass(Some(Data(bytes)), ready)]) == bytes
    ensures RxBytes([Pass(Some(Failed), ready)]) == [] == RxBytes([Pass(None, ready)])
    ensures TxReadyN([Pass(Some(Data(bytes)), ready)]) == (if ready then 1 else 0) == TxReadyN([Pass(Some(Failed), ready)])
    ensures TxReadyN([Pass(None, ready)]) == if ready then 1 else 0
    decreases |a|
  {
    assert forall p: Pass :: [p][1..] == [];
    if a == [] {
      assert a + b == b;
    } else {
      assert (a + b)[1..] == a[1..] + b;
      PassesAdd(a[1..], b, bytes, ready);
    }
  }

  lemma LastPass(passes: seq<Pass>)
    requires passes != []
    ensures var n := |passes| - 1; var p := passes[n];
      && RxBytes(passes) == RxBytes(passes[..n]) + (match p.rx case Some(Data(bytes)) => bytes case _ => [])
      && TxReadyN(passes) == TxReadyN(passes[..n]) + if p.txReady then 1 else 0
  {
    var n := |passes| - 1;
    assert passes == passes[..n] + [passes[n]];
    match passes[n].rx {
      case Some(Data(bytes)) => PassesAdd(passes[..n], [passes[n]], bytes, passes[n].txReady);
      case _ => PassesAdd(passes[..n], [passes[n]], [], passes[n].txReady);
    }
  }

  /** A handler call puts the bytes it reads, and nothing else, in the ring it fills. */
  lemma {:induction false} FillsPut(passes: seq<Pass>)
    ensures L.PutBytes(Fills(passes)) == RxBytes(passes)
    decreases |passes|
  {
    if passes != [] {
      var n := |passes| - 1;
      FillsPut(passes[..n]);
      LastPass(passes);
      if passes[n].rx.Some? {
        var put := L.Put(ReadBytes(passes[n].rx.value));
        L.PutBytesAppend(Fills(passes[..n]), [put]);
        assert L.PutBytes([put]) == put.bytes + L.PutBytes([]);
      }
    }
  }

  /** And it drains the other ring once for every ready FIFO, and does nothing else to it. */
  lemma {:induction false} DrainsTake(passes: seq<Pass>)
    ensures |Drains(passes)| == TxReadyN(passes)
    ensures forall i :: 0 <= i < |Drains(passes)| ==> Drains(passes)[i] == L.Take
    decreases |passes|
  {
    if passes != [] {
      DrainsTake(passes[..|passes| - 1]);
      LastPass(passes);
    }
  }

  /** A UART device, as far as the demo sees it. */
  class Device {
    var txIrq: bool

    constructor ()
      ensures !txIrq
    {
      txIrq := false;
    }
  }

  /** struct serial_peer. The log is that of its ring. */
  class SerialPeer {
    const dev: Device
    var data: SerialPeer?
    const rb: RingBuf<byte>
    ghost var log: seq<L.Entry>

    constructor (dev: Device)
      ensures this.dev == dev && data == null && log == []
      ensures rb.Valid() && rb.contents == [] && rb.buffer.Length == RING_SIZE && fresh(rb) && fresh(rb.buffer)
    {
      this.dev, data, log := dev, null, [];
      rb := new RingBuf(RING_SIZE);
    }

    /** The ring of this peer with the interrupt that drains it, the one of the other port. */
    ghost function Lane(): L.Lane
      requires data != null
      reads this, rb, data, data.dev
    {
      L.Lane(rb.contents, data.dev.txIrq, log)
    }
  }

  /** Two peers wired as threadA wires them. */
  ghost predicate Wired(a: SerialPeer, b: SerialPeer)
    reads a, b, a.rb, b.rb, a.rb.buffer, b.rb.buffer
  {
    && a != b && a.data == b && b.data == a
    && a.dev != b.dev && a.rb != b.rb && a.rb.buffer != b.rb.buffer
    && a.rb.Valid() && b.rb.Valid()
  }

  /** threadA's setup, from the peers' creation to the enabling of RX. */
  method Wire() returns (p0: SerialPeer, p1: SerialPeer)
    ensures fresh(p0) && fresh(p1) && Wired(p0, p1)
    ensures fresh(p0.dev) && fresh(p1.dev)
    ensures fresh(p0.rb) && fresh(p1.rb) && fresh(p0.rb.buffer) && fresh(p1.rb.buffer)
    ensures p0.Lane() == L.FRESH && p1.Lane() == L.FRESH
    ensures p0.rb.buffer.Length == RING_SIZE && p1.rb.buffer.Length == RING_SIZE
  {
    var dev0 := new Device();
    var dev1 := new Device();
    p0 := new SerialPeer(dev0);
    p1 := new SerialPeer(dev1);
    p0.data := p1;
    p1.data := p0;
  }

  /** The handler's receive part, on port dev with the peer of the other port as user data. */
  method Receive(peer: SerialPeer, read: Read)
    requires peer.data != null && Wired(peer, peer.data)
    modifies peer.dev, peer.data`log, peer.data.rb, peer.data.rb.buffer
    ensures Wired(peer, peer.data) && peer.data == old(peer.data)
    ensures peer.data.Lane() == L.PutStep(peer.data.rb.buffer.Length, old(peer.data.Lane()), ReadBytes(read))
    ensures read.Data? ==> L.Arrivals(peer.data.log) == L.Arrivals(old(peer.data.log)) + read.bytes
    ensures peer.dev.txIrq == (old(peer.dev.txIrq) ||
                               (read.Data? && read.bytes != [] && old(peer.data.rb.used) < peer.data.rb.buffer.Length))
    ensures peer.Lane() == old(peer.Lane())
  {
    var rb := peer.data.rb;
    var bytes := ReadBytes(read);
    var wrote := rb.Put(bytes);
    peer.data.log := Append(peer.data.log, L.Arrived(bytes, wrote));
    if wrote > 0 {
      peer.dev.txIrq := true;
    }
  }

  /** The handler's transmit part. */
  method Transmit(dev: Device, peer: SerialPeer)
    requires peer.data != null && Wired(peer, peer.data) && dev == peer.data.dev
    modifies dev, peer`log, peer.rb
    ensures Wired(peer, peer.data) && peer.data == old(peer.data)
    ensures peer.Lane() == L.TakeStep(CHUNK, old(peer.Lane()))
    ensures if old(peer.rb.contents) == [] then !dev.txIrq && peer.rb.contents == []
            else dev.txIrq == old(dev.txIrq) && peer.rb.contents == old(peer.rb.contents)[Min(64, |old(peer.rb.contents)|)..]
    ensures peer.data.Lane() == old(peer.data.Lane())
  {
    ghost var queue := peer.rb.contents;
    var out := peer.rb.Get(CHUNK);
    assert out == queue[..|out|] && peer.rb.contents == queue[|out|..];
    if |out| == 0 {
      dev.txIrq := false;
      peer.log := Append(peer.log, L.FoundEmpty);
    } else {
      peer.log := Append(peer.log, L.Offered(out));
    }
  }

  /** interrupt_handler for port dev; its user data is the peer of the other port. It fills the ring of
      its own port and drains the ring of the other, and does nothing else to either. */
  method InterruptHandler(dev: Device, peer: SerialPeer, passes: seq<Pass>)
    requires peer.data != null && Wired(peer, peer.data) && dev == peer.data.dev
    modifies peer.dev, dev, peer`log, peer.data`log, peer.rb, peer.data.rb, peer.rb.buffer, peer.data.rb.buffer
    ensures Wired(peer, peer.data) && peer.data == old(peer.data)
    ensures peer.data.Lane() == L.Run(peer.data.rb.buffer.Length, CHUNK, old(peer.data.Lane()), Fills(passes))
    ensures peer.Lane() == L.Run(peer.rb.buffer.Length, CHUNK, old(peer.Lane()), Drains(passes))
    ensures L.Arrivals(peer.data.log) == L.Arrivals(old(peer.data.log)) + RxBytes(passes)
    ensures |peer.log| == |old(peer.log)| + TxReadyN(passes)
    ensures old(peer.data.rb.contents != [] ==> peer.dev.txIrq) ==> (peer.data.rb.contents != [] ==> peer.dev.txIrq)
    ensures old(peer.rb.contents != [] ==> dev.txIrq) ==> (peer.rb.contents != [] ==> dev.txIrq)
  {
    ghost var capIn, capOut := peer.data.rb.buffer.Length, peer.rb.buffer.Length;
    ghost var in0, out0 := peer.data.Lane(), peer.Lane();
    for i := 0 to |passes|
      invariant peer.data == old(peer.data) && Wired(peer, peer.data)
      invariant peer.data.Lane() == L.Run(capIn, CHUNK, in0, Fills(passes[..i]))
      invariant peer.Lane() == L.Run(capOut, CHUNK, out0, Drains(passes[..i]))
    {
      assert passes[..i + 1][..i] == passes[..i];
      if passes[i].rx.Some? {
        Receive(peer, passes[i].rx.value);
        L.RunSnoc(capIn, CHUNK, in0, Fills(passes[..i]), L.Put(ReadBytes(passes[i].rx.value)));
      }
      if passes[i].txReady {
        Transmit(dev, peer);
        L.RunSnoc(capOut, CHUNK, out0, Drains(passes[..i]), L.Take);
      }
    }
    assert passes[..|passes|] == passes;
    HandlerCall(capIn, in0, capOut, out0, passes);
  }

  lemma HandlerCall(capIn: nat, l: L.Lane, capOut: nat, m: L.Lane, passes: seq<Pass>)
    requires |l.queue| <= capIn && |m.queue| <= capOut
    ensures var r := L.Run(capIn, CHUNK, l, Fills(passes));
      && L.Arrivals(r.log) == L.Arrivals(l.log) + RxBytes(passes)
      && ((l.queue != [] ==> l.irq) ==> (r.queue != [] ==> r.irq))
    ensures var r := L.Run(capOut, CHUNK, m, Drains(passes));
      && |r.log| == |m.log| + TxReadyN(passes)
      && ((m.queue != [] ==> m.irq) ==> (r.queue != [] ==> r.irq))
  {
    FillsPut(passes);
    DrainsTake(passes);
    L.RunArrivals(capIn, CHUNK, l, Fills(passes));
    L.RunLogs(capOut, CHUNK, m, Drains(passes));
    if l.queue != [] ==> l.irq {
      L.RunWakes(capIn, CHUNK, l, Fills(passes));
    }
    if m.queue != [] ==> m.irq {
      L.RunWakes(capOut, CHUNK, m, Drains(passes));
    }
  }

  // ---- Runs of the whole demo ----

  /** A handler call on port 0 or port 1. */
  datatype Event = Irq(port1: bool, passes: seq<Pass>)

  /** Both rings: what arrived on port 0, and what arrived on port 1. */
  datatype Both = Both(from0: L.Lane, from1: L.Lane)

  ghost predicate Within(cap: nat, b: Both) {
    |b.from0.queue| <= cap && |b.from1.queue| <= cap
  }

  /** A handler call as InterruptHandler's contract has it. */
  function Step(cap: nat, b: Both, ev: Event): (r: Both)
    requires Within(cap, b)
    ensures Within(cap, r)
  {
    if ev.port1 then
      Both(L.Run(cap, CHUNK, b.from0, Drains(ev.passes)), L.Run(cap, CHUNK, b.from1, Fills(ev.passes)))
    else
      Both(L.Run(cap, CHUNK, b.from0, Fills(ev.passes)), L.Run(cap, CHUNK, b.from1, Drains(ev.passes)))
  }

  function Run(cap: nat, b: Both, evs: seq<Event>): (r: Both)
    requires Within(cap, b)
    ensures Within(cap, r)
    decreases |evs|
  {
    if evs == [] then b else Run(cap, Step(cap, b, evs[0]), evs[1..])
  }

  /** The bytes port 0, or port 1, receives in a run. */
  function Received(port1: bool, evs: seq<Event>): seq<byte> {
    if evs == [] then [] else
    (if evs[0].port1 == port1 then RxBytes(evs[0].passes) else []) + Received(port1, evs[1..])
  }

  lemma {:induction false} DrainsPutNothing(passes: seq<Pass>)
    ensures L.PutBytes(Drains(passes)) == []
    decreases |passes|
  {
    if passes != [] {
      DrainsPutNothing(passes[..|passes| - 1]);
      L.PutBytesAppend(Drains(passes[..|passes| - 1]), [L.Take]);
      assert L.PutBytes([L.Take]) == [] + L.PutBytes([]);
    }
  }

  /** One direction of a run: port i to port 1 - i. */
  ghost predicate Forwards(cap: nat, l: L.Lane, received: seq<byte>) {
    && L.Arrivals(l.log) == received
    && L.Conserved(cap, l)
  }

  lemma LaneForwards(cap: nat, l: L.Lane, got: seq<byte>, ops: seq<L.Event>)
    requires |l.queue| <= cap && Forwards(cap, l, got)
    ensures Forwards(cap, L.Run(cap, CHUNK, l, ops), got + L.PutBytes(ops))
  {
    L.RunConserved(cap, CHUNK, l, ops);
    L.RunArrivals(cap, CHUNK, l, ops);
  }

  /** The steps of a handler call on ring 0 or ring 1. */
  function Ops(ring1: bool, ev: Event): seq<L.Event> {
    if ev.port1 == ring1 then Fills(ev.passes) else Drains(ev.passes)
  }

  function From(ring1: bool, b: Both): L.Lane {
    if ring1 then b.from1 else b.from0
  }

  lemma StepForwards(cap: nat, b: Both, ev: Event, ring1: bool, got: seq<byte>)
    requires Within(cap, b) && Forwards(cap, From(ring1, b), got)
    ensures Forwards(cap, From(ring1, Step(cap, b, ev)), got + L.PutBytes(Ops(ring1, ev)))
  {
    LaneForwards(cap, From(ring1, b), got, Ops(ring1, ev));
  }

  lemma ReceivedFirst(evs: seq<Event>, ring1: bool, got: seq<byte>)
    requires evs != []
    ensures got + Received(ring1, evs) == (got + L.PutBytes(Ops(ring1, evs[0]))) + Received(ring1, evs[1..])
  {
    DrainsPutNothing(evs[0].passes);
    FillsPut(evs[0].passes);
    L.SeqAssoc(got, L.PutBytes(Ops(ring1, evs[0])), Received(ring1, evs[1..]));
  }

  lemma {:induction false} RunForwards(cap: nat, b: Both, evs: seq<Event>, ring1: bool, got: seq<byte>)
    requires Within(cap, b) && Forwards(cap, From(ring1, b), got)
    ensures Forwards(cap, From(ring1, Run(cap, b, evs)), got + Received(ring1, evs))
    decreases |evs|
  {
    if evs == [] {
      assert got + [] == got;
    } else {
      StepForwards(cap, b, evs[0], ring1, got);
      ReceivedFirst(evs, ring1, got);
      RunForwards(cap, Step(cap, b, evs[0]), evs[1..], ring1, got + L.PutBytes(Ops(ring1, evs[0])));
    }
  }

  /** Crossed forwarding in every run: what is offered on a port, then what waits for it, are the bytes
      kept of those the other port received, in order; bytes are lost only while a ring is full; and a
      ring that holds bytes has the TX interrupt of the port that drains it on. */
  lemma CrossedForwarding(cap: nat, evs: seq<Event>)
    ensures var r := Run(cap, Both(L.FRESH, L.FRESH), evs);
      Forwards(cap, r.from0, Received(false, evs)) && Forwards(cap, r.from1, Received(true, evs))
  {
    assert [] + Received(false, evs) == Received(false, evs);
    assert [] + Received(true, evs) == Received(true, evs);
    RunForwards(cap, Both(L.FRESH, L.FRESH), evs, false, []);
    RunForwards(cap, Both(L.FRESH, L.FRESH), evs, true, []);
  }

  /** The demo in place: the interrupts of either port, in any order. */
  method Serve(p0: SerialPeer, p1: SerialPeer, evs: seq<Event>)
    requires Wired(p0, p1) && p0.rb.buffer.Length == p1.rb.buffer.Length
    modifies p0.dev, p1.dev, p0`log, p1`log, p0.rb, p1.rb, p0.rb.buffer, p1.rb.buffer
    ensures Wired(p0, p1)
    ensures Both(p0.Lane(), p1.Lane()) == Run(p0.rb.buffer.Length, old(Both(p0.Lane(), p1.Lane())), evs)
  {
    ghost var cap, start := p0.rb.buffer.Length, Both(p0.Lane(), p1.Lane());
    var i := 0;
    while i < |evs|
      invariant i <= |evs| && Wired(p0, p1)
      invariant Run(cap, Both(p0.Lane(), p1.Lane()), evs[i..]) == Run(cap, start, evs)
    {
      assert evs[i..][1..] == evs[i + 1..];
      if evs[i].port1 {
        InterruptHandler(p1.dev, p0, evs[i].passes);
      } else {
        InterruptHandler(p0.dev, p1, evs[i].passes);
      }
      i := i + 1;
    }
  }

  /** From the setup on, what one port sends, then what waits for it, are the bytes kept of those the other
      port received. */
  method Demo(evs: seq<Event>) returns (p0: SerialPeer, p1: SerialPeer)
    ensures Wired(p0, p1)
    ensures Forwards(RING_SIZE, p0.Lane(), Received(false, evs)) && Forwards(RING_SIZE, p1.Lane(), Received(true, evs))
  {
    p0, p1 := Wire();
    Serve(p0, p1, evs);
    CrossedForwarding(RING_SIZE, evs);
  }
}

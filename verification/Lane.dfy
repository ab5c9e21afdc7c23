/** One direction of the USB serial demos as a state machine over values: bytes that arrive are put in a
    byte ring as far as they fit, and a TX interrupt takes them out again, at most max at a time. */
module Lane {
  import opened Bytes

  datatype Entry =
    | Arrived(bytes: seq<byte>, kept: nat)   // bytes received, and how many the ring took
    | Offered(out: seq<byte>)                // bytes taken from the ring for the other side's FIFO
    | FoundEmpty                             // the interrupt found nothing to send

  /** The ring, the TX interrupt that drains it, and what happened so far. */
  datatype Lane = Lane(queue: seq<byte>, irq: bool, log: seq<Entry>)

  const FRESH := Lane([], false, [])

  datatype Event = Put(bytes: seq<byte>) | Take

  function PutStep(cap: nat, l: Lane, bytes: seq<byte>): Lane
    requires |l.queue| <= cap
  {
    var kept := Min(|bytes|, cap - |l.queue|);
    Lane(l.queue + bytes[..kept], l.irq || kept > 0, Append(l.log, Arrived(bytes, kept)))
  }

  function TakeStep(max: nat, l: Lane): Lane {
    var n := Min(max, |l.queue|);
    if n == 0 then
      l.(irq := false, log := Append(l.log, FoundEmpty))
    else
      l.(queue := l.queue[n..], log := Append(l.log, Offered(l.queue[..n])))
  }

  function Step(cap: nat, max: nat, l: Lane, ev: Event): (r: Lane)
    requires |l.queue| <= cap
    ensures |r.queue| <= cap
  {
    match ev
    case Put(bytes) => PutStep(cap, l, bytes)
    case Take => TakeStep(max, l)
  }

  function Run(cap: nat, max: nat, l: Lane, evs: seq<Event>): (r: Lane)
    requires |l.queue| <= cap
    ensures |r.queue| <= cap
    decreases |evs|
  {
    if evs == [] then l else Run(cap, max, Step(cap, max, l, evs[0]), evs[1..])
  }

  lemma {:induction false} RunAppend(cap: nat, max: nat, l: Lane, a: seq<Event>, b: seq<Event>)
    requires |l.queue| <= cap
    ensures Run(cap, max, l, a + b) == Run(cap, max, Run(cap, max, l, a), b)
    decreases |a|
  {
    if a == [] {
      assert a + b == b;
    } else {
      assert (a + b)[1..] == a[1..] + b;
      RunAppend(cap, max, Step(cap, max, l, a[0]), a[1..], b);
    }
  }

  lemma RunSnoc(cap: nat, max: nat, l: Lane, a: seq<Event>, ev: Event)
    requires |l.queue| <= cap
    ensures Run(cap, max, l, a + [ev]) == Step(cap, max, Run(cap, max, l, a), ev)
  {
    RunAppend(cap, max, l, a, [ev]);
    var m := Run(cap, max, l, a);
    assert [ev][1..] == [];
    assert Run(cap, max, m, [ev]) == Run(cap, max, Step(cap, max, m, ev), []);
  }

  // ---- Reading the log ----

  /** All bytes that arrived; those the ring took; those offered to the other side. */
  function Arrivals(log: seq<Entry>): seq<byte> {
    if log == [] then [] else
    var n := |log| - 1;
    Arrivals(log[..n]) + if log[n].Arrived? then log[n].bytes else []
  }

  function Kept(log: seq<Entry>): seq<byte> {
    if log == [] then [] else
    var n := |log| - 1;
    Kept(log[..n]) + if log[n].Arrived? then log[n].bytes[..Min(log[n].kept, |log[n].bytes|)] else []
  }

  function OfferedBytes(log: seq<Entry>): seq<byte> {
    if log == [] then [] else
    var n := |log| - 1;
    OfferedBytes(log[..n]) + if log[n].Offered? then log[n].out else []
  }

  /** Whether the interrupt should be on: bytes were kept and it has not found the ring empty since. */
  function IrqOf(log: seq<Entry>): bool {
    if log == [] then false else
    var n := |log| - 1;
    if log[n].FoundEmpty? then false
    else (log[n].Arrived? && log[n].kept > 0) || IrqOf(log[..n])
  }

  /** The ring as an observer reconstructs it. */
  function QueueOf(log: seq<Entry>): seq<byte> {
    if |OfferedBytes(log)| <= |Kept(log)| then Kept(log)[|OfferedBytes(log)|..] else []
  }

  /** Bytes are dropped only off the end of what does not fit: each arrival keeps as many bytes as the
      ring had room for at that moment. */
  ghost predicate DropsOnlyWhenFull(cap: nat, log: seq<Entry>) {
    forall i :: 0 <= i < |log| && log[i].Arrived? ==>
      |QueueOf(log[..i])| <= cap && log[i].kept == Min(|log[i].bytes|, cap - |QueueOf(log[..i])|)
  }

  ghost predicate Conserved(cap: nat, l: Lane) {
    && OfferedBytes(l.log) + l.queue == Kept(l.log)
    && DropsOnlyWhenFull(cap, l.log)
    && l.irq == IrqOf(l.log)
    && (l.queue != [] ==> l.irq)
  }

  lemma QueueOfConserved(l: Lane)
    requires OfferedBytes(l.log) + l.queue == Kept(l.log)
    ensures QueueOf(l.log) == l.queue
  {
    assert l.queue == (OfferedBytes(l.log) + l.queue)[|OfferedBytes(l.log)|..];
  }

  lemma DropsAppend(cap: nat, log: seq<Entry>, e: Entry)
    requires DropsOnlyWhenFull(cap, log)
    requires e.Arrived? ==> |QueueOf(log)| <= cap && e.kept == Min(|e.bytes|, cap - |QueueOf(log)|)
    ensures DropsOnlyWhenFull(cap, Append(log, e))
  {
    var r := Append(log, e);
    forall i | 0 <= i < |log|
      ensures r[..i] == log[..i]
    {
      assert r[..|log|][..i] == r[..i];
    }
  }

  lemma ArrivalRead(log: seq<Entry>, bytes: seq<byte>, kept: nat)
    requires kept <= |bytes|
    ensures var r := Append(log, Arrived(bytes, kept));
      Kept(r) == Kept(log) + bytes[..kept] && OfferedBytes(r) == OfferedBytes(log) && IrqOf(r) == (kept > 0 || IrqOf(log))
  {
  }

  lemma SeqAssoc(a: seq<byte>, b: seq<byte>, c: seq<byte>)
    ensures a + (b + c) == (a + b) + c
  {
  }

  lemma PutConserved(cap: nat, l: Lane, bytes: seq<byte>)
    requires |l.queue| <= cap && Conserved(cap, l)
    ensures Conserved(cap, PutStep(cap, l, bytes))
  {
    QueueOfConserved(l);
    var kept := Min(|bytes|, cap - |l.queue|);
    ArrivalRead(l.log, bytes, kept);
    DropsAppend(cap, l.log, Arrived(bytes, kept));
    SeqAssoc(OfferedBytes(l.log), l.queue, bytes[..kept]);
    assert kept == 0 ==> l.queue + bytes[..kept] == l.queue;
  }

  lemma TakeConserved(cap: nat, max: nat, l: Lane)
    requires max > 0 && Conserved(cap, l)
    ensures Conserved(cap, TakeStep(max, l))
  {
    var n := Min(max, |l.queue|);
    if n == 0 {
      DropsAppend(cap, l.log, FoundEmpty);
      assert OfferedBytes(Append(l.log, FoundEmpty)) == OfferedBytes(l.log);
    } else {
      DropsAppend(cap, l.log, Offered(l.queue[..n]));
      assert (OfferedBytes(l.log) + l.queue[..n]) + l.queue[n..] == OfferedBytes(l.log) + l.queue;
    }
  }

  /** In every run: offered bytes, then the ring, are the kept bytes in order; bytes are lost only when
      the ring is full; and a ring that holds bytes has its TX interrupt on. */
  lemma {:induction false} RunConserved(cap: nat, max: nat, l: Lane, evs: seq<Event>)
    requires max > 0 && |l.queue| <= cap && Conserved(cap, l)
    ensures Conserved(cap, Run(cap, max, l, evs))
    decreases |evs|
  {
    if evs != [] {
      match evs[0] {
        case Put(bytes) => PutConserved(cap, l, bytes);
        case Take => TakeConserved(cap, max, l);
      }
      RunConserved(cap, max, Step(cap, max, l, evs[0]), evs[1..]);
    }
  }

  function PutBytes(evs: seq<Event>): seq<byte> {
    if evs == [] then [] else (if evs[0].Put? then evs[0].bytes else []) + PutBytes(evs[1..])
  }

  lemma {:induction false} PutBytesAppend(a: seq<Event>, b: seq<Event>)
    ensures PutBytes(a + b) == PutBytes(a) + PutBytes(b)
    decreases |a|
  {
    if a == [] {
      assert a + b == b;
    } else {
      assert (a + b)[1..] == a[1..] + b;
      PutBytesAppend(a[1..], b);
    }
  }

  lemma {:induction false} RunArrivals(cap: nat, max: nat, l: Lane, evs: seq<Event>)
    requires |l.queue| <= cap
    ensures Arrivals(Run(cap, max, l, evs).log) == Arrivals(l.log) + PutBytes(evs)
    decreases |evs|
  {
    if evs != [] {
      var l1 := Step(cap, max, l, evs[0]);
      RunArrivals(cap, max, l1, evs[1..]);
      assert Arrivals(l1.log) == Arrivals(l.log) + if evs[0].Put? then evs[0].bytes else [];
    }
  }

  /** Every step leaves one entry. */
  lemma {:induction false} RunLogs(cap: nat, max: nat, l: Lane, evs: seq<Event>)
    requires |l.queue| <= cap
    ensures |Run(cap, max, l, evs).log| == |l.log| + |evs|
    decreases |evs|
  {
    if evs != [] {
      RunLogs(cap, max, Step(cap, max, l, evs[0]), evs[1..]);
    }
  }

  /** A ring that holds bytes keeps the interrupt that drains it on. */
  lemma {:induction false} RunWakes(cap: nat, max: nat, l: Lane, evs: seq<Event>)
    requires max > 0 && |l.queue| <= cap && (l.queue != [] ==> l.irq)
    ensures var r := Run(cap, max, l, evs); r.queue != [] ==> r.irq
    decreases |evs|
  {
    if evs != [] {
      RunWakes(cap, max, Step(cap, max, l, evs[0]), evs[1..]);
    }
  }

  function Takes(n: nat): seq<Event> {
    if n == 0 then [] else [Take] + Takes(n - 1)
  }

  lemma TakeOffers(max: nat, l: Lane)
    ensures var t := TakeStep(max, l);
      && OfferedBytes(t.log) + t.queue == OfferedBytes(l.log) + l.queue
      && |t.queue| == |l.queue| - Min(max, |l.queue|)
  {
    var k := Min(max, |l.queue|);
    if k > 0 {
      assert OfferedBytes(l.log) + l.queue == (OfferedBytes(l.log) + l.queue[..k]) + l.queue[k..];
    }
  }

  lemma OneChunkLess(n: nat, max: nat, used: nat)
    requires n > 0 && used <= n * max
    ensures used - Min(max, used) <= (n - 1) * max
  {
    assert n * max == (n - 1) * max + max;
    assert 0 <= (n - 1) * max;
  }

  /** While nothing arrives, n interrupts empty a ring of up to n * max bytes, oldest first, and one more
      switches the interrupt off. */
  lemma {:induction false} Drains(cap: nat, max: nat, l: Lane, n: nat)
    requires max > 0 && |l.queue| <= cap && |l.queue| <= n * max
    ensures var t := Run(cap, max, l, Takes(n));
      && t.queue == [] && OfferedBytes(t.log) == OfferedBytes(l.log) + l.queue
      && !Step(cap, max, t, Take).irq
    decreases n
  {
    if n == 0 {
      assert OfferedBytes(l.log) + l.queue == OfferedBytes(l.log);
    } else {
      var l1 := TakeStep(max, l);
      TakeOffers(max, l);
      OneChunkLess(n, max, |l.queue|);
      assert Takes(n)[1..] == Takes(n - 1);
      Drains(cap, max, l1, n - 1);
    }
  }
}

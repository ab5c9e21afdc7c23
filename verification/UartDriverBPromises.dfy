/** What the state machine guarantees, for driver objects. */
module UartDriverBPromises {
  import opened Bytes
  import opened Chunking
  import opened GuardedSender
  import opened GuardedSenderSafety
  import opened GuardedSenderRuns
  import opened GuardedSenderEcho
  import opened UartDriverB

  /** Whatever was called on a driver since it was made: its transmissions kept the stop-and-wait rule and
      its rate; guard, timer and TX interrupt are what the log of its inputs and outputs says; and what it
      transmitted and still holds in its ring are the accepted sends, in order. */
  lemma DriverKeepsPromises(d: Driver)
    requires d.Valid()
    ensures StopAndWait(d.log) && RateKept(d.Abs())
    ensures d.sendingGuard == GuardOf(d.log) && d.timer == TimerOf(d.log)
    ensures d.txWords <= 255 ==>
      && Wire(d.log) + d.queue == FramedAll(AcceptedData(d.log))
      && AllPrefixed(Wire(d.log) + d.queue, AcceptedData(d.log))
      && RefusedWhenFull(d.Cfg(), d.log)
      && (d.txRb.items != [] && !d.sendingGuard ==> d.txIrq)
  {
    StopAndWaitInEveryRun(d.Cfg(), d.history);
    RateBound(d.Cfg(), d.history);
    RunGuardExact(d.Cfg(), INIT, d.history);
    if d.txWords <= 255 {
      ExactlyOnceInOrder(d.Cfg(), d.history);
      NoLostWakeupNoStuckGuard(d.Cfg(), d.history);
    }
  }

  /** And it has cut the bytes its handler read as the framing rule says, and been offered for sending what
      the application sent and the lines of those bytes. */
  lemma DriverReceives(d: Driver)
    requires d.Valid()
    ensures IsChunking(LINE_END, d.rxBuf.Length, Framer(Chunks(d.log), d.rxBuf[..d.rxDataLen]), RxBytes(d.history))
    ensures Offers(d.log) == AskedToSend(d.Cfg(), d.history)
  {
    ReceiverCutsStream(d.Cfg(), d.history);
    OffersOfEveryRun(d.Cfg(), d.history);
  }

  /** The bytes of some passes, pass by pass. */
  function ReadsOf(passes: seq<Pass>): (r: seq<seq<byte>>)
    ensures |r| == |passes| && forall i :: 0 <= i < |r| ==> r[i] == passes[i].rx
  {
    seq(|passes|, i requires 0 <= i < |passes| => passes[i].rx)
  }

  lemma {:induction false} RxEventsRead(rx: seq<byte>)
    ensures RxBytes(RxEvents(rx)) == rx
    decreases |rx|
  {
    if rx != [] {
      RxEventsRead(rx[1..]);
      RxBytesAdd([Rx(rx[0])], RxEvents(rx[1..]), rx[0]);
    }
  }

  lemma PassReads(p: Pass, after: seq<Event>)
    ensures RxBytes(PassEvents(p, after)) == p.rx + RxBytes(after)
  {
    RxEventsRead(p.rx);
    RxBytesAdd(RxEvents(p.rx), TxEvents(p.txReady) + after, NUL);
    RxBytesAdd(TxEvents(p.txReady), after, NUL);
  }

  /** A call of the handler adds to the history the bytes of its passes, in order. */
  lemma {:induction false} HandlerReads(passes: seq<Pass>)
    ensures RxBytes(HandlerEvents(passes)) == Concat(ReadsOf(passes))
    decreases |passes|
  {
    if passes != [] {
      HandlerReads(passes[1..]);
      PassReads(passes[0], HandlerEvents(passes[1..]));
      assert ReadsOf(passes)[1..] == ReadsOf(passes[1..]);
    }
  }
}

/** Driver B's receiver, and the loop the echo application closes around the driver: every received
    line is offered for sending again. */
module GuardedSenderEcho {
  import opened Bytes
  import opened Chunking
  import opened GuardedSender
  import opened GuardedSenderSafety
  import opened GuardedSenderRuns
  import opened GuardedSenderProgress

  function Cut(s: State): Framer {
    Framer(Chunks(s.log), s.pending)
  }

  lemma SendOffers(cfg: Config, s: State, data: seq<byte>)
    ensures var t := SendStep(cfg, s, data);
      Offers(t.log) == Offers(s.log) + [data] && Chunks(t.log) == Chunks(s.log)
  {
  }

  lemma ChunkLogged(log: seq<Entry>, chunk: seq<byte>)
    ensures Chunks(Append(log, Chunk(chunk))) == Chunks(log) + [chunk]
    ensures Offers(Append(log, Chunk(chunk))) == Offers(log)
  {
  }

  lemma OtherLogged(log: seq<Entry>, e: Entry)
    requires e.Sent? || e.Expired?
    ensures Chunks(Append(log, e)) == Chunks(log) && Offers(Append(log, e)) == Offers(log)
  {
  }

  lemma LineCuts(cfg: Config, s: State, c: byte)
    requires c in LINE_END
    ensures Cut(RxStep(cfg, s, c)) == Framer(Chunks(s.log) + [s.pending + [c]], [])
  {
    var chunk := s.pending + [c];
    ChunkLogged(s.log, chunk);
    SendOffers(cfg, TakeLine(s, chunk), chunk);
  }

  lemma RxCuts(cfg: Config, s: State, c: byte)
    requires cfg.rx > |s.pending|
    ensures var t := RxStep(cfg, s, c);
      && Cut(t) == FeedByte(LINE_END, cfg.rx, Cut(s), c)
      && |t.pending| < cfg.rx
  {
    if c in LINE_END {
      LineCuts(cfg, s, c);
    } else {
      ChunkLogged(s.log, s.pending + [c]);
    }
  }

  lemma StepCuts(cfg: Config, s: State, ev: Event)
    requires cfg.rx > |s.pending|
    ensures Cut(Step(cfg, s, ev)) == if ev.Rx? then FeedByte(LINE_END, cfg.rx, Cut(s), ev.c) else Cut(s)
    ensures |Step(cfg, s, ev).pending| < cfg.rx
  {
    match ev
    case Send(data) => SendOffers(cfg, s, data);
    case SetCallback(on) =>
    case Rx(c) => RxCuts(cfg, s, c);
    case TxReady =>
      if s.queue != [] {
        OtherLogged(s.log, Sent(Transmitted(s.queue[0]), s.now));
      }
    case Expire => OtherLogged(s.log, Expired(s.now));
    case Tick(ms) =>
  }

  lemma {:induction false} RunCuts(cfg: Config, s: State, evs: seq<Event>)
    requires cfg.rx > |s.pending|
    ensures Cut(Run(cfg, s, evs)) == Feed(LINE_END, cfg.rx, Cut(s), RxBytes(evs))
    decreases |evs|
  {
    if evs != [] {
      StepCuts(cfg, s, evs[0]);
      RunCuts(cfg, Step(cfg, s, evs[0]), evs[1..]);
      if evs[0].Rx? {
        assert RxBytes(evs)[1..] == RxBytes(evs[1..]);
      } else {
        assert RxBytes(evs) == RxBytes(evs[1..]);
      }
    }
  }

  /** The chunks taken from the RX buffer and what is left in it are the one and only way to cut the
      received stream into terminated or full chunks; nothing is lost or reordered, whatever the
      driver does besides. */
  lemma ReceiverCutsStream(cfg: Config, evs: seq<Event>)
    requires cfg.Allowed() && Legal(cfg, INIT, evs)
    ensures var s := Run(cfg, INIT, evs);
      && Cut(s) == Feed(LINE_END, cfg.rx, EMPTY, RxBytes(evs))
      && IsChunking(LINE_END, cfg.rx, Cut(s), RxBytes(evs))
  {
    RunCuts(cfg, INIT, evs);
    FeedIsChunking(LINE_END, cfg.rx, RxBytes(evs));
  }

  // ---- The closed loop ----

  /** The lines among some chunks: full buffers without a terminator are skipped. */
  function Lines(chunks: seq<seq<byte>>): seq<seq<byte>> {
    if chunks == [] then [] else
    var n := |chunks| - 1;
    Lines(chunks[..n]) + if Terminated(chunks[n]) then [chunks[n]] else []
  }

  /** The application does nothing but its callback. */
  predicate OnlyEcho(evs: seq<Event>) {
    forall i :: 0 <= i < |evs| ==> !evs[i].Send? && !evs[i].SetCallback?
  }

  lemma LinesSnoc(chunks: seq<seq<byte>>, c: seq<byte>)
    ensures Lines(chunks + [c]) == Lines(chunks) + if Terminated(c) then [c] else []
  {
    assert (chunks + [c])[..|chunks|] == chunks;
  }

  /** A finished line is offered; a skipped full buffer is not. */
  lemma LineIsOffered(cfg: Config, s: State, c: byte)
    requires s.echo && c in LINE_END
    ensures var t := RxStep(cfg, s, c); var chunk := s.pending + [c];
      t.echo && Offers(t.log) == Offers(s.log) + [chunk] && Chunks(t.log) == Chunks(s.log) + [chunk]
  {
    var chunk := s.pending + [c];
    ChunkLogged(s.log, chunk);
    SendOffers(cfg, TakeLine(s, chunk), chunk);
  }

  lemma RxOffersLines(cfg: Config, s: State, c: byte)
    requires s.echo && Offers(s.log) == Lines(Chunks(s.log))
    ensures var t := RxStep(cfg, s, c); t.echo && Offers(t.log) == Lines(Chunks(t.log))
  {
    var chunk := s.pending + [c];
    assert Terminated(chunk) <==> c in LINE_END;
    LinesSnoc(Chunks(s.log), chunk);
    if c in LINE_END {
      LineIsOffered(cfg, s, c);
    } else {
      ChunkLogged(s.log, chunk);
      assert Lines(Chunks(s.log)) + [] == Lines(Chunks(s.log));
    }
  }

  lemma StepOffersLines(cfg: Config, s: State, ev: Event)
    requires s.echo && !ev.Send? && !ev.SetCallback?
    requires Offers(s.log) == Lines(Chunks(s.log))
    ensures var t := Step(cfg, s, ev); t.echo && Offers(t.log) == Lines(Chunks(t.log))
  {
    match ev
    case Rx(c) => RxOffersLines(cfg, s, c);
    case TxReady =>
      if s.queue != [] {
        OtherLogged(s.log, Sent(Transmitted(s.queue[0]), s.now));
      }
    case Expire => OtherLogged(s.log, Expired(s.now));
    case Tick(ms) =>
  }

  lemma {:induction false} RunOffersLines(cfg: Config, s: State, evs: seq<Event>)
    requires s.echo && OnlyEcho(evs)
    requires Offers(s.log) == Lines(Chunks(s.log))
    ensures var t := Run(cfg, s, evs); t.echo && Offers(t.log) == Lines(Chunks(t.log))
    decreases |evs|
  {
    if evs != [] {
      StepOffersLines(cfg, s, evs[0]);
      RunOffersLines(cfg, Step(cfg, s, evs[0]), evs[1..]);
    }
  }

  /** Whether the callback is installed: as the last SetCallback says. */
  function CallbackOn(evs: seq<Event>): bool {
    if evs == [] then false else
    var n := |evs| - 1;
    if evs[n].SetCallback? then evs[n].on else CallbackOn(evs[..n])
  }

  /** What a driver is asked to send, from its events alone: the data of each send, and, while the callback
      is installed, each line at the byte that ends it. */
  function AskedToSend(cfg: Config, evs: seq<Event>): seq<seq<byte>> {
    if evs == [] then [] else
    var n := |evs| - 1;
    AskedToSend(cfg, evs[..n]) +
    match evs[n]
    case Send(data) => [data]
    case Rx(c) =>
      if c in LINE_END && CallbackOn(evs[..n]) then
        [Feed(LINE_END, cfg.rx, EMPTY, RxBytes(evs[..n])).pending + [c]]
      else []
    case _ => []
  }

  /** What one event adds to that in state s. */
  function Asked(s: State, ev: Event): seq<seq<byte>> {
    match ev
    case Send(data) => [data]
    case Rx(c) => if c in LINE_END && s.echo then [s.pending + [c]] else []
    case _ => []
  }

  lemma StepOffers(cfg: Config, s: State, ev: Event)
    ensures Offers(Step(cfg, s, ev).log) == Offers(s.log) + Asked(s, ev)
    ensures Step(cfg, s, ev).echo == if ev.SetCallback? then ev.on else s.echo
  {
    match ev
    case Send(data) => SendOffers(cfg, s, data);
    case Rx(c) => RxOffers(cfg, s, c);
    case _ => OtherOffers(cfg, s, ev);
  }

  lemma OtherOffers(cfg: Config, s: State, ev: Event)
    requires !ev.Send? && !ev.Rx?
    ensures Offers(Step(cfg, s, ev).log) == Offers(s.log) + []
    ensures Step(cfg, s, ev).echo == if ev.SetCallback? then ev.on else s.echo
  {
    match ev
    case TxReady =>
      if s.queue != [] {
        OtherLogged(s.log, Sent(Transmitted(s.queue[0]), s.now));
      }
    case Expire => OtherLogged(s.log, Expired(s.now));
    case _ =>
  }

  lemma NothingMore(x: seq<seq<byte>>)
    ensures x + [] == x
  {
  }

  lemma RxOffers(cfg: Config, s: State, c: byte)
    ensures var t := RxStep(cfg, s, c);
      && Offers(t.log) == Offers(s.log) + (if c in LINE_END && s.echo then [s.pending + [c]] else [])
      && t.echo == s.echo
  {
    var chunk := s.pending + [c];
    NothingMore(Offers(s.log));
    ChunkLogged(s.log, chunk);
    if c in LINE_END {
      SendOffers(cfg, TakeLine(s, chunk), chunk);
    }
  }

  /** In every run the driver is offered, in order, exactly what the application sent and, while its
      callback is installed, every line received; nothing else is ever queued or refused. */
  lemma {:induction false} OffersOfEveryRun(cfg: Config, evs: seq<Event>)
    requires cfg.Allowed() && Legal(cfg, INIT, evs)
    ensures var s := Run(cfg, INIT, evs);
      Offers(s.log) == AskedToSend(cfg, evs) && s.echo == CallbackOn(evs)
    decreases |evs|
  {
    if evs != [] {
      var n := |evs| - 1;
      var s := Run(cfg, INIT, evs[..n]);
      assert evs == evs[..n] + [evs[n]];
      RunSnoc(cfg, INIT, evs[..n], evs[n]);
      OffersOfEveryRun(cfg, evs[..n]);
      RunCuts(cfg, INIT, evs[..n]);
      StepOffers(cfg, s, evs[n]);
    }
  }

  // ---- The bytes of a run ----

  /** What RxBytes is: of one event its byte, if it is one received, and of several those of each in turn. */
  lemma {:induction false} RxBytesAdd(a: seq<Event>, b: seq<Event>, c: byte)
    ensures RxBytes(a + b) == RxBytes(a) + RxBytes(b)
    ensures RxBytes([Rx(c)]) == [c] && RxBytes([TxReady]) == RxBytes([Expire]) == []
    decreases |a|
  {
    assert forall ev: Event :: [ev][1..] == [];
    if a == [] {
      assert a + b == b;
    } else {
      assert (a + b)[1..] == a[1..] + b;
      RxBytesAdd(a[1..], b, c);
    }
  }

  /** The lines of a stream are at most as long as the receive buffer. */
  lemma {:induction false} LinesAreChunks(cap: nat, chunks: seq<seq<byte>>)
    requires forall i :: 0 <= i < |chunks| ==> IsChunk(LINE_END, cap, chunks[i])
    ensures forall i :: 0 <= i < |Lines(chunks)| ==> |Lines(chunks)[i]| <= cap
    decreases |chunks|
  {
    if chunks != [] {
      LinesAreChunks(cap, chunks[..|chunks| - 1]);
    }
  }

  /** What the environment still has to respect once the application only echoes: the timer fires no
      earlier than its deadline. */
  predicate TimersDue(cfg: Config, s: State, evs: seq<Event>)
    decreases |evs|
  {
    evs == []
    || ((evs[0].Expire? ==> Enabled(cfg, s, Expire)) && TimersDue(cfg, Step(cfg, s, evs[0]), evs[1..]))
  }

  /** Interrupts are served before time advances. */
  predicate Promptly(cfg: Config, s: State, evs: seq<Event>)
    decreases |evs|
  {
    evs == [] || (Prompt(s, evs[0]) && Promptly(cfg, Step(cfg, s, evs[0]), evs[1..]))
  }

  /** Under RX + 5 < 4 * TXW no received byte makes the callback break the length precondition. */
  lemma {:induction false} EchoRunIsLegal(cfg: Config, s: State, evs: seq<Event>)
    requires cfg.Valid() && cfg.rx + 5 < 4 * cfg.txw && Sound(cfg, s) && OnlyEcho(evs)
    ensures TimersDue(cfg, s, evs) ==> Legal(cfg, s, evs)
    ensures TimersDue(cfg, s, evs) && Promptly(cfg, s, evs) ==> PromptRun(cfg, s, evs)
    decreases |evs|
  {
    if evs != [] && (evs[0].Expire? ==> Enabled(cfg, s, Expire)) {
      StepSound(cfg, s, evs[0]);
      EchoRunIsLegal(cfg, Step(cfg, s, evs[0]), evs[1..]);
    }
  }

  /** The run of the application: it installs its callback, then only the environment acts. */
  function EchoRun(evs: seq<Event>): seq<Event> {
    [SetCallback(true)] + evs
  }

  const ECHO_INIT := INIT.(echo := true)

  lemma EchoRunStarts(cfg: Config, evs: seq<Event>)
    ensures Run(cfg, INIT, EchoRun(evs)) == Run(cfg, ECHO_INIT, evs)
    ensures Legal(cfg, INIT, EchoRun(evs)) <==> Legal(cfg, ECHO_INIT, evs)
    ensures PromptRun(cfg, INIT, EchoRun(evs)) <==> PromptRun(cfg, ECHO_INIT, evs)
    ensures RxBytes(EchoRun(evs)) == RxBytes(evs)
  {
    assert EchoRun(evs)[1..] == evs;
    assert Step(cfg, INIT, SetCallback(true)) == ECHO_INIT;
  }

  /** With the echo callback installed, no other sender, and RX + 5 < 4 * TXW: the driver's length
      precondition is kept throughout, so the run is one the code can perform, and the head item always
      fits; the lines offered for sending are exactly the lines cut from the received stream, in order;
      what is transmitted and then queued is SEND: + line for those accepted; and a line is dropped only
      for lack of ring space. */
  lemma ClosedLoopEcho(cfg: Config, evs: seq<Event>)
    requires cfg.Valid() && cfg.rx + 5 < 4 * cfg.txw
    requires OnlyEcho(evs) && TimersDue(cfg, ECHO_INIT, evs)
    ensures Legal(cfg, INIT, EchoRun(evs))
    ensures var s := Run(cfg, INIT, EchoRun(evs));
      && Offers(s.log) == Lines(Feed(LINE_END, cfg.rx, EMPTY, RxBytes(evs)).done)
      && (forall i :: 0 <= i < |Offers(s.log)| ==> Fits(cfg, Offers(s.log)[i]))
      && (s.queue != [] ==> ItemWords(|s.queue[0]|) <= cfg.txw)
      && Wire(s.log) + s.queue == FramedAll(AcceptedData(s.log))
      && RefusedWhenFull(cfg, s.log)
  {
    EchoRunIsLegal(cfg, ECHO_INIT, evs);
    EchoRunStarts(cfg, evs);
    RunOffersLines(cfg, ECHO_INIT, evs);
    ExactlyOnceInOrder(cfg, EchoRun(evs));
    NoLostWakeupNoStuckGuard(cfg, EchoRun(evs));
    ReceiverCutsStream(cfg, EchoRun(evs));
    LinesAreChunks(cfg.rx, Feed(LINE_END, cfg.rx, EMPTY, RxBytes(evs)).done);
  }

  /** And if interrupts are served promptly, every accepted line leaves in time: within 5000 ms for each
      item up to and including it in the queue, and within ringWords / 3 * 5000 ms in any case. */
  lemma ClosedLoopEchoInTime(cfg: Config, before: seq<Event>, after: seq<Event>)
    requires cfg.Valid() && cfg.rx + 5 < 4 * cfg.txw
    requires OnlyEcho(before + after)
    requires TimersDue(cfg, ECHO_INIT, before + after) && Promptly(cfg, ECHO_INIT, before + after)
    ensures AllLeaveInTime(cfg, Run(cfg, INIT, EchoRun(before)), Run(cfg, INIT, EchoRun(before + after)))
  {
    EchoRunIsLegal(cfg, ECHO_INIT, before + after);
    EchoRunStarts(cfg, before + after);
    assert EchoRun(before + after) == EchoRun(before) + after;
    BoundedProgress(cfg, EchoRun(before), after);
  }

  // ---- When the echo application meets the driver's precondition ----

  /** n ordinary bytes. */
  function Filler(n: nat): seq<Event> {
    if n == 0 then [] else Filler(n - 1) + [Rx(65)]
  }

  lemma {:induction false} FillerFills(cfg: Config, n: nat)
    requires n < cfg.rx
    ensures var evs := [SetCallback(true)] + Filler(n);
      && Legal(cfg, INIT, evs)
      && |Run(cfg, INIT, evs).pending| == n && Run(cfg, INIT, evs).echo
  {
    if n == 0 {
      assert [SetCallback(true)] + Filler(0) == [] + [SetCallback(true)];
      RunSnoc(cfg, INIT, [], SetCallback(true));
    } else {
      FillerFills(cfg, n - 1);
      var shorter := [SetCallback(true)] + Filler(n - 1);
      assert [SetCallback(true)] + Filler(n) == shorter + [Rx(65)];
      RunSnoc(cfg, INIT, shorter, Rx(65));
    }
  }

  /** No received byte makes the echo callback break the driver's length precondition. */
  ghost predicate EchoAlwaysFits(cfg: Config) {
    forall evs, c :: Legal(cfg, INIT, evs) ==> Enabled(cfg, Run(cfg, INIT, evs), Rx(c))
  }

  /** The echo application keeps the length precondition exactly when RX + 5 < 4 * TXW. */
  lemma EchoFitsIff(cfg: Config)
    requires cfg.Valid()
    ensures EchoAlwaysFits(cfg) <==> cfg.rx + 5 < 4 * cfg.txw
  {
    if cfg.rx + 5 < 4 * cfg.txw {
      forall evs, c | Legal(cfg, INIT, evs)
        ensures Enabled(cfg, Run(cfg, INIT, evs), Rx(c))
      {
        RunSound(cfg, INIT, evs);
      }
    } else {
      var evs := [SetCallback(true)] + Filler(cfg.rx - 1);
      FillerFills(cfg, cfg.rx - 1);
      assert !Enabled(cfg, Run(cfg, INIT, evs), Rx(LF));
    }
  }

  /** The default buffer sizes, 64 bytes and 16 words, do not keep it. */
  lemma DefaultsDoNotFit()
    ensures !EchoAlwaysFits(Config(64, 16, 128))
  {
    EchoFitsIff(Config(64, 16, 128));
  }
}

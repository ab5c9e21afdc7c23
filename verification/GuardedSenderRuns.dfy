/** The promises of driver B over every legal run from its initial state. */
module GuardedSenderRuns {
  import opened Bytes
  import opened GuardedSender
  import opened GuardedSenderSafety

  /** Between any two transmissions of a run an OK line came in, or 5000 ms went by: an OK received
      before a transmission, or a timer left running by an OK, never releases a later one. */
  lemma StopAndWaitInEveryRun(cfg: Config, evs: seq<Event>)
    requires Legal(cfg, INIT, evs)
    ensures StopAndWait(Run(cfg, INIT, evs).log)
  {
    RunSpaced(cfg, INIT, evs);
  }

  lemma AllWhole(cfg: Config, s: State)
    requires cfg.Valid() && Balanced(s) && OffersUpTo(s.log, 4 * cfg.txw - 1)
    ensures Wire(s.log) + s.queue == FramedAll(AcceptedData(s.log))
  {
    AcceptedAreOffers(s.log, 4 * cfg.txw - 1);
    LedgerWhole(FramedAll(AcceptedData(s.log)), Wire(s.log), s.queue);
  }

  lemma WholeInEveryRun(cfg: Config, evs: seq<Event>)
    requires cfg.Valid() && Legal(cfg, INIT, evs)
    ensures var s := Run(cfg, INIT, evs); Wire(s.log) + s.queue == FramedAll(AcceptedData(s.log))
  {
    RunBalanced(cfg, INIT, evs);
    LegalSendsUpTo(cfg, INIT, evs);
    RunOffersUpTo(cfg, INIT, evs, 4 * cfg.txw - 1);
    AllWhole(cfg, Run(cfg, INIT, evs));
  }

  lemma AdmittedInEveryRun(cfg: Config, evs: seq<Event>)
    ensures var s := Run(cfg, INIT, evs); s.queue == QueueOf(s.log) && AdmittedByRoom(cfg, s.log)
  {
    var s := Run(cfg, INIT, evs);
    assert s.queue == QueueOf(s.log) by {
      RunBalanced(cfg, INIT, evs);
      QueueOfBalanced(s);
    }
    RunAdmitted(cfg, INIT, evs);
  }

  /** Ring words of some data queued one by one: for each a header word, and for SEND:, the data and its
      padding a word for every four bytes begun, plus one when the last is full. */
  function RingWords(data: seq<seq<byte>>): nat {
    if data == [] then 0 else (|data[0]| + 5) / 4 + 2 + RingWords(data[1..])
  }

  /** Words add up over the items, and one item takes these; nothing else is a count of ring words. */
  lemma {:induction false} RingWordsAdd(a: seq<seq<byte>>, b: seq<seq<byte>>, d: seq<byte>)
    ensures RingWords(a + b) == RingWords(a) + RingWords(b)
    ensures RingWords([d]) == (|d| + 5) / 4 + 2
    decreases |a|
  {
    assert [d][1..] == [];
    if a == [] {
      assert a + b == b;
    } else {
      assert (a + b)[1..] == a[1..] + b;
      RingWordsAdd(a[1..], b, d);
    }
  }

  /** Accepted data not yet transmitted. */
  function Unsent(log: seq<Entry>): seq<seq<byte>> {
    AcceptedData(log)[Min(|Wire(log)|, |AcceptedData(log)|)..]
  }

  /** A send is refused exactly when the words of the unsent data leave too few of the ring for it. */
  ghost predicate RefusedWhenFull(cfg: Config, log: seq<Entry>) {
    forall i :: 0 <= i < |log| && (log[i].Accepted? || log[i].Rejected?) ==>
      (log[i].Accepted? <==> RingWords(Unsent(log[..i])) + (|log[i].data| + 5) / 4 + 2 <= cfg.ringWords)
  }

  lemma {:induction false} UsedIsRingWords(data: seq<seq<byte>>)
    requires forall i :: 0 <= i < |data| ==> ItemWords(|data[i]| + 5) <= 255
    ensures Used(FramedAll(data)) == RingWords(data)
    decreases |data|
  {
    if data != [] {
      assert FramedAll(data)[1..] == FramedAll(data[1..]);
      SizeLaw(|data[0]| + 5);
      UsedIsRingWords(data[1..]);
    }
  }

  lemma RoomIsRingWords(cfg: Config, log: seq<Entry>, data: seq<byte>)
    requires cfg.Valid() && OffersUpTo(log, 4 * cfg.txw - 1) && |data| + 5 < 4 * cfg.txw
    ensures HasRoom(cfg, QueueOf(log), Framed(data)) <==> RingWords(Unsent(log)) + (|data| + 5) / 4 + 2 <= cfg.ringWords
  {
    AcceptedAreOffers(log, 4 * cfg.txw - 1);
    assert QueueOf(log) == FramedAll(Unsent(log));
    UsedIsRingWords(Unsent(log));
    SizeLaw(|data| + 5);
  }

  lemma RefusedInEveryRun(cfg: Config, evs: seq<Event>)
    requires cfg.Valid() && Legal(cfg, INIT, evs)
    ensures RefusedWhenFull(cfg, Run(cfg, INIT, evs).log)
  {
    var log := Run(cfg, INIT, evs).log;
    LegalSendsUpTo(cfg, INIT, evs);
    RunOffersUpTo(cfg, INIT, evs, 4 * cfg.txw - 1);
    AdmittedInEveryRun(cfg, evs);
    forall i | 0 <= i < |log| && (log[i].Accepted? || log[i].Rejected?)
      ensures log[i].Accepted? <==> RingWords(Unsent(log[..i])) + (|log[i].data| + 5) / 4 + 2 <= cfg.ringWords
    {
      RoomIsRingWords(cfg, log[..i], log[i].data);
    }
  }

  /** Each item is the bytes S E N D : and then its data. */
  ghost predicate AllPrefixed(items: seq<seq<byte>>, data: seq<seq<byte>>) {
    && |items| == |data|
    && forall i :: 0 <= i < |items| ==> items[i] == [83, 69, 78, 68, 58] + data[i]
  }

  /** Exactly once and in order: transmitted items, then queued items, are SEND: + data of the accepted
      sends; and a send is refused exactly when the data not yet transmitted leaves the ring too few words
      for it. */
  lemma ExactlyOnceInOrder(cfg: Config, evs: seq<Event>)
    requires cfg.Valid() && Legal(cfg, INIT, evs)
    ensures var s := Run(cfg, INIT, evs);
      && Wire(s.log) + s.queue == FramedAll(AcceptedData(s.log))
      && AllPrefixed(Wire(s.log) + s.queue, AcceptedData(s.log))
      && s.queue == FramedAll(Unsent(s.log))
      && RefusedWhenFull(cfg, s.log)
  {
    WholeInEveryRun(cfg, evs);
    RefusedInEveryRun(cfg, evs);
    QueueIsUnsent(Run(cfg, INIT, evs));
  }

  lemma QueueIsUnsent(s: State)
    requires Wire(s.log) + s.queue == FramedAll(AcceptedData(s.log))
    ensures s.queue == FramedAll(Unsent(s.log))
  {
    assert s.queue == (Wire(s.log) + s.queue)[|Wire(s.log)|..];
  }

  /** No lost wakeup, no stuck guard, no wedged head: a waiting item with the guard down has the TX
      interrupt on; the guard is up exactly when nothing released it since the last transmission, and
      then the timer is due 5000 ms after that transmission; the item at the head always fits. */
  lemma NoLostWakeupNoStuckGuard(cfg: Config, evs: seq<Event>)
    requires cfg.Valid() && Legal(cfg, INIT, evs)
    ensures var s := Run(cfg, INIT, evs);
      && (s.queue != [] && !s.guard ==> s.txIrq)
      && (s.guard <==> GuardOf(s.log))
      && s.deadline == TimerOf(s.log)
      && (s.guard ==> s.deadline.Some? && LastSent(s.log).Some? && s.deadline.value == LastSent(s.log).value + GUARD_MS)
      && (s.queue != [] ==> ItemWords(|s.queue[0]|) <= cfg.txw)
      && |s.pending| < cfg.rx
  {
    RunSound(cfg, INIT, evs);
    RunGuardExact(cfg, INIT, evs);
  }

  /** When the TX FIFO is ready the driver transmits exactly if an accepted item is still unsent and
      nothing is owed an OK or a timeout; it then sends the oldest one. Otherwise it changes nothing
      but switches the TX interrupt off. */
  lemma TransmitsIff(cfg: Config, evs: seq<Event>)
    requires cfg.Valid() && Legal(cfg, INIT, evs)
    ensures var s := Run(cfg, INIT, evs);
      var t := Step(cfg, s, TxReady);
      var n := |Wire(s.log)|;
      if n < |AcceptedData(s.log)| && !GuardOf(s.log) then
        && Wire(t.log) == Wire(s.log) + [Framed(AcceptedData(s.log)[n])]
        && GuardOf(t.log)
      else
        t == s.(txIrq := false)
  {
    var s := Run(cfg, INIT, evs);
    NoLostWakeupNoStuckGuard(cfg, evs);
    RunSound(cfg, INIT, evs);
    RunBalanced(cfg, INIT, evs);
    if s.queue != [] {
      QueuedItemIsWhole(cfg, s, 0);
      assert s.queue[0] == FramedAll(AcceptedData(s.log))[|Wire(s.log)|];
    }
  }

  // ---- Why sends must fit ----

  lemma SendOnlyQueues(cfg: Config, s: State, data: seq<byte>)
    ensures var t := SendStep(cfg, s, data); s.queue <= t.queue && Wire(t.log) == Wire(s.log)
  {
    LedgerAppend(s.log, Accepted(data));
    LedgerAppend(s.log, Rejected(data));
  }

  lemma RxOnlyQueues(cfg: Config, s: State, c: byte)
    ensures var t := RxStep(cfg, s, c); s.queue <= t.queue && Wire(t.log) == Wire(s.log)
  {
    var chunk := s.pending + [c];
    LedgerAppend(s.log, Chunk(chunk));
    if c in LINE_END && s.echo {
      var l := TakeLine(s, chunk);
      assert l.queue == s.queue && l.log == Append(s.log, Chunk(chunk));
      SendOnlyQueues(cfg, l, chunk);
    }
  }

  /** The handler cannot take the item at the head of the queue. */
  predicate Wedged(cfg: Config, s: State) {
    s.queue != [] && Size32(|s.queue[0]|) > MySize(cfg)
  }

  lemma StepStaysWedged(cfg: Config, s: State, ev: Event)
    requires Wedged(cfg, s)
    ensures var t := Step(cfg, s, ev); Wedged(cfg, t) && Wire(t.log) == Wire(s.log)
  {
    match ev
    case Send(data) => SendOnlyQueues(cfg, s, data);
    case Rx(c) => RxOnlyQueues(cfg, s, c);
    case Expire => LedgerAppend(s.log, Expired(s.now));
    case _ =>
  }

  /** An item of more words than the handler asks for, once at the head of the queue, is never removed:
      from then on nothing is transmitted, whatever happens. */
  lemma {:induction false} OverlongItemWedges(cfg: Config, s: State, evs: seq<Event>)
    requires Wedged(cfg, s)
    ensures var t := Run(cfg, s, evs); Wedged(cfg, t) && Wire(t.log) == Wire(s.log)
    decreases |evs|
  {
    if evs != [] {
      StepStaysWedged(cfg, s, evs[0]);
      OverlongItemWedges(cfg, Step(cfg, s, evs[0]), evs[1..]);
    }
  }

  /** Runs in which sends may break the length precondition, but not write past the buffer: at worst the
      framed data fills it to the last byte. With up to 254 buffer words one more is then queued, read from
      behind the buffer, but the handler never takes an item of so many words. */
  predicate NoOverrun(cfg: Config, evs: seq<Event>) {
    SendsUpTo(cfg, INIT, evs, 4 * cfg.txw)
  }

  /** Whatever was accepted, only items of at most as many words as the handler asks for are taken. */
  ghost predicate TakenItemsFit(cfg: Config, log: seq<Entry>) {
    |Wire(log)| <= |AcceptedData(log)|
    && forall i :: 0 <= i < |Wire(log)| ==> Size32(|AcceptedData(log)[i]| + 5) <= MySize(cfg)
  }

  lemma TxTakenItemsFit(cfg: Config, s: State)
    requires Balanced(s) && TakenItemsFit(cfg, s.log)
    ensures TakenItemsFit(cfg, TxStep(cfg, s).log)
  {
    if s.queue != [] {
      LedgerAppend(s.log, Sent(Transmitted(s.queue[0]), s.now));
      assert s.queue[0] == Framed(AcceptedData(s.log)[|Wire(s.log)|]);
    }
  }

  lemma MoreAccepted(cfg: Config, log: seq<Entry>, longer: seq<Entry>)
    requires TakenItemsFit(cfg, log) && log <= longer && Wire(longer) == Wire(log)
    ensures TakenItemsFit(cfg, longer)
  {
    LongerLog(log, longer);
  }

  lemma StepTakenItemsFit(cfg: Config, s: State, ev: Event)
    requires Balanced(s) && TakenItemsFit(cfg, s.log)
    ensures TakenItemsFit(cfg, Step(cfg, s, ev).log)
  {
    var t := Step(cfg, s, ev);
    match ev
    case Send(data) =>
      SendOnlyQueues(cfg, s, data);
      MoreAccepted(cfg, s.log, t.log);
    case Rx(c) =>
      RxOnlyQueues(cfg, s, c);
      RxExtendsLog(cfg, s, c);
      MoreAccepted(cfg, s.log, t.log);
    case TxReady => TxTakenItemsFit(cfg, s);
    case Expire => LedgerAppend(s.log, Expired(s.now));
    case _ =>
  }

  lemma {:induction false} RunTakenItemsFit(cfg: Config, s: State, evs: seq<Event>)
    requires Balanced(s) && TakenItemsFit(cfg, s.log)
    ensures TakenItemsFit(cfg, Run(cfg, s, evs).log)
    decreases |evs|
  {
    if evs != [] {
      StepTakenItemsFit(cfg, s, evs[0]);
      StepBalanced(cfg, s, evs[0]);
      RunTakenItemsFit(cfg, Step(cfg, s, evs[0]), evs[1..]);
    }
  }

  /** What a run puts on the wire, for every buffer size: item i is the i-th accepted send as far as its
      counted words go, so all of it exactly if it needs no more than 255 words. */
  lemma WhatIsTransmitted(cfg: Config, evs: seq<Event>)
    requires cfg.Allowed() && NoOverrun(cfg, evs)
    ensures var s := Run(cfg, INIT, evs); var accepted, wire := AcceptedData(s.log), Wire(s.log);
      && |wire| <= |accepted|
      && forall i :: 0 <= i < |wire| ==>
           && wire[i] == Transmitted(Framed(accepted[i]))
           && (wire[i] == Framed(accepted[i]) <==> ItemWords(|accepted[i]| + 5) <= 255)
  {
    var s := Run(cfg, INIT, evs);
    RunBalanced(cfg, INIT, evs);
    var accepted, wire := AcceptedData(s.log), Wire(s.log);
    forall i | 0 <= i < |wire|
      ensures wire[i] == Transmitted(Framed(accepted[i]))
      ensures wire[i] == Framed(accepted[i]) <==> ItemWords(|accepted[i]| + 5) <= 255
    {
      assert wire[i] == Transmitted(FramedAll(accepted)[i]);
      TransmittedWholeIff(Framed(accepted[i]));
    }
  }

  /** Data that fills the buffer to the last byte is counted at one word too many, unless that is the
      256th. */
  lemma FullBufferOvercounts(cfg: Config, data: seq<byte>)
    requires cfg.txw <= 254 && |data| + 5 <= 4 * cfg.txw && !Fits(cfg, data)
    ensures Size32(|data| + 5) > MySize(cfg)
  {
    assert |data| + 5 == 4 * cfg.txw;
  }

  /** An accepted send counted at more words than the handler asks for is never taken, nor is anything
      accepted after it; up to 254 buffer words that is every send that does not fit. */
  lemma OverlongSendEndsAll(cfg: Config, evs: seq<Event>)
    requires cfg.Allowed() && NoOverrun(cfg, evs)
    ensures var s := Run(cfg, INIT, evs); var accepted := AcceptedData(s.log);
      forall i :: 0 <= i < |accepted| ==>
        && (Size32(|accepted[i]| + 5) > MySize(cfg) ==> |Wire(s.log)| <= i)
        && (!Fits(cfg, accepted[i]) && cfg.txw <= 254 ==> |Wire(s.log)| <= i)
  {
    var s := Run(cfg, INIT, evs);
    var accepted := AcceptedData(s.log);
    RunTakenItemsFit(cfg, INIT, evs);
    RunOffersUpTo(cfg, INIT, evs, 4 * cfg.txw);
    AcceptedAreOffers(s.log, 4 * cfg.txw);
    forall i | 0 <= i < |accepted|
      ensures Size32(|accepted[i]| + 5) > MySize(cfg) ==> |Wire(s.log)| <= i
      ensures !Fits(cfg, accepted[i]) && cfg.txw <= 254 ==> |Wire(s.log)| <= i
    {
      if !Fits(cfg, accepted[i]) && cfg.txw <= 254 {
        FullBufferOvercounts(cfg, accepted[i]);
      }
    }
  }

  /** After the send, a run with these further events hands something to the UART. */
  predicate SomethingSent(cfg: Config, data: seq<byte>, evs: seq<Event>) {
    var all := [Send(data)] + evs;
    NoOverrun(cfg, all) && Wire(Run(cfg, INIT, all).log) != []
  }

  /** And that is SEND: and all the data. */
  predicate DataSent(cfg: Config, data: seq<byte>, evs: seq<Event>) {
    SomethingSent(cfg, data, evs) && Wire(Run(cfg, INIT, [Send(data)] + evs).log)[0] == Framed(data)
  }

  /** The state after a first send the ring has room for, and after it is taken, if it can be. */
  lemma FirstSend(cfg: Config, data: seq<byte>, evs: seq<Event>)
    requires HasRoom(cfg, [], Framed(data))
    ensures var s := SendStep(cfg, INIT, data);
      && s.queue == [Framed(data)] && Wire(s.log) == [] && AcceptedData(s.log) == [data]
      && Run(cfg, INIT, [Send(data)] + evs) == Run(cfg, s, evs)
      && (NoOverrun(cfg, [Send(data)] + evs) <==> |data| + 5 <= 4 * cfg.txw && SendsUpTo(cfg, s, evs, 4 * cfg.txw))
  {
    LedgerAppend([], Accepted(data));
    assert ([Send(data)] + evs)[1..] == evs;
  }

  lemma FirstSendTaken(cfg: Config, data: seq<byte>)
    requires HasRoom(cfg, [], Framed(data)) && |data| + 5 <= 4 * cfg.txw
    requires Size32(|data| + 5) <= MySize(cfg)
    ensures SomethingSent(cfg, data, [TxReady])
    ensures var t := Run(cfg, INIT, [Send(data)] + [TxReady]);
      && t.queue == [] && t.guard && Wire(t.log) == [Transmitted(Framed(data))]
  {
    var s := SendStep(cfg, INIT, data);
    FirstSend(cfg, data, [TxReady]);
    assert [TxReady][1..] == [];
    assert Run(cfg, s, [TxReady]) == Run(cfg, TxStep(cfg, s), []);
    LedgerAppend(s.log, Sent(Transmitted(Framed(data)), s.now));
  }

  /** Whatever follows a first send, the first thing handed to the UART is its item. */
  lemma FirstSentIsFirst(cfg: Config, data: seq<byte>, evs: seq<Event>)
    requires cfg.Allowed() && HasRoom(cfg, [], Framed(data)) && SomethingSent(cfg, data, evs)
    ensures Size32(|data| + 5) <= MySize(cfg)
    ensures Wire(Run(cfg, INIT, [Send(data)] + evs).log)[0] == Transmitted(Framed(data))
  {
    var s := SendStep(cfg, INIT, data);
    FirstSend(cfg, data, evs);
    var t := Run(cfg, s, evs);
    RunExtendsLog(cfg, s, evs);
    LongerLog(s.log, t.log);
    assert AcceptedData(t.log)[0] == data;
    OverlongSendEndsAll(cfg, [Send(data)] + evs);
    WhatIsTransmitted(cfg, [Send(data)] + evs);
  }

  /** Something is sent if the handler takes the item, and all the data if it was counted right. */
  lemma SentIffTaken(cfg: Config, data: seq<byte>)
    requires cfg.Allowed() && HasRoom(cfg, [], Framed(data)) && |data| + 5 <= 4 * cfg.txw
    ensures (exists evs :: SomethingSent(cfg, data, evs)) <==> Size32(|data| + 5) <= MySize(cfg)
    ensures (exists evs :: DataSent(cfg, data, evs)) <==>
      Size32(|data| + 5) <= MySize(cfg) && Transmitted(Framed(data)) == Framed(data)
  {
    if Size32(|data| + 5) <= MySize(cfg) {
      FirstSendTaken(cfg, data);
      assert Transmitted(Framed(data)) == Framed(data) ==> DataSent(cfg, data, [TxReady]);
    }
    forall evs | SomethingSent(cfg, data, evs)
      ensures Size32(|data| + 5) <= MySize(cfg)
      ensures DataSent(cfg, data, evs) ==> Transmitted(Framed(data)) == Framed(data)
    {
      FirstSentIsFirst(cfg, data, evs);
    }
  }

  lemma CountedRightIff(cfg: Config, data: seq<byte>)
    requires cfg.Allowed()
    ensures Size32(|data| + 5) <= MySize(cfg) && ItemWords(|data| + 5) <= 255 <==> ItemWords(|data| + 5) <= MySize(cfg)
    ensures cfg.Valid() ==> (ItemWords(|data| + 5) <= MySize(cfg) <==> Fits(cfg, data))
  {
    SizeLaw(|data| + 5);
  }

  /** What the precondition of send_data is for. Of a first send the ring has room for, something can ever
      be handed to the UART exactly when its counted words are no more than the handler asks for, and all of
      it exactly when it needs no more words than that. With at most 255 buffer words that is the
      precondition; beyond, it is not enough. */
  lemma TransmittedIffFits(cfg: Config, data: seq<byte>)
    requires cfg.Allowed() && HasRoom(cfg, [], Framed(data)) && |data| + 5 <= 4 * cfg.txw
    ensures (exists evs :: SomethingSent(cfg, data, evs)) <==> Size32(|data| + 5) <= MySize(cfg)
    ensures (exists evs :: DataSent(cfg, data, evs)) <==> ItemWords(|data| + 5) <= MySize(cfg)
    ensures cfg.Valid() ==> ((exists evs :: DataSent(cfg, data, evs)) <==> Fits(cfg, data))
  {
    SentIffTaken(cfg, data);
    TransmittedWholeIff(Framed(data));
    CountedRightIff(cfg, data);
  }

  /** The shortest data that cannot be sent whole, for every buffer size. */
  predicate ShortestUnsendable(cfg: Config, data: seq<byte>) {
    |data| + 5 == if MySize(cfg) < 2 then 5 else 4 * MySize(cfg)
  }

  /** Up to 255 buffer words the shortest misfit is 4 * TXW - 5 bytes, which fill the buffer to the last
      byte; beyond, it is shorter. It wedges the driver, which then transmits nothing at all; except that
      where the handler asks for 255 words it is queued as an item of no words, which the handler takes out
      again: the data is gone, nothing of it is sent, and the guard is up. */
  lemma ShortestMisfit(cfg: Config, data: seq<byte>)
    requires cfg.Allowed() && |data| + 5 <= 4 * cfg.txw && HasRoom(cfg, [], Framed(data))
    requires ShortestUnsendable(cfg, data)
    ensures forall evs :: !DataSent(cfg, data, evs)
    ensures forall shorter: seq<byte> :: |shorter| < |data| ==> ItemWords(|shorter| + 5) <= MySize(cfg)
    ensures MySize(cfg) != 255 ==> forall evs :: !SomethingSent(cfg, data, evs)
    ensures MySize(cfg) == 255 ==> var t := Run(cfg, INIT, [Send(data)] + [TxReady]);
      Size32(|data| + 5) == 0 && t.queue == [] && t.guard && Wire(t.log) == [[]]
  {
    TransmittedIffFits(cfg, data);
    SizeLaw(|data| + 5);
    if MySize(cfg) == 255 {
      FirstSendTaken(cfg, data);
    }
  }

  // ---- Rate ----

  /** Transmissions, and OK lines, among the first n log entries. */
  function SentN(log: seq<Entry>, n: nat): nat
    requires n <= |log|
  {
    if n == 0 then 0 else SentN(log, n - 1) + if log[n - 1].Sent? then 1 else 0
  }

  function OkN(log: seq<Entry>, n: nat): nat
    requires n <= |log|
  {
    if n == 0 then 0 else OkN(log, n - 1) + if IsOkLine(log[n - 1]) then 1 else 0
  }

  lemma {:induction false} OkMonotone(log: seq<Entry>, m: nat, n: nat)
    requires m <= n <= |log|
    ensures OkN(log, m) <= OkN(log, n)
    ensures forall r :: m <= r < n && IsOkLine(log[r]) ==> OkN(log, m) + 1 <= OkN(log, n)
    decreases n
  {
    if m < n {
      OkMonotone(log, m, n - 1);
    }
  }

  /** The transmission before j, looking back no further than i. */
  lemma {:induction false} PreviousSent(log: seq<Entry>, i: nat, j: nat) returns (p: nat)
    requires i < j <= |log| && log[i].Sent?
    ensures i <= p < j && log[p].Sent? && SentN(log, j) == SentN(log, p + 1)
    decreases j
  {
    if log[j - 1].Sent? {
      p := j - 1;
    } else {
      p := PreviousSent(log, i, j - 1);
    }
  }

  lemma {:induction false} RateWindow(log: seq<Entry>, i: nat, j: nat)
    requires StopAndWait(log) && Ordered(log)
    requires i <= j < |log| && log[i].Sent? && log[j].Sent?
    ensures GUARD_MS * (SentN(log, j + 1) - SentN(log, i + 1) - (OkN(log, j) - OkN(log, i))) <= log[j].at - log[i].at
    decreases j
  {
    if i < j {
      var p := PreviousSent(log, i, j);
      RateWindow(log, i, p);
      OkMonotone(log, p, j);
    }
  }

  lemma {:induction false} SentNPrefix(log: seq<Entry>, m: nat, n: nat)
    requires n <= m <= |log|
    ensures SentN(log[..m], n) == SentN(log, n) && OkN(log[..m], n) == OkN(log, n)
  {
    if n > 0 {
      SentNPrefix(log, m, n - 1);
    }
  }

  lemma {:induction false} WireCounts(log: seq<Entry>)
    ensures |Wire(log)| == SentN(log, |log|)
    decreases |log|
  {
    if log != [] {
      WireCounts(log[..|log| - 1]);
      SentNPrefix(log, |log| - 1, |log| - 1);
    }
  }

  /** The first transmission, and the last. */
  lemma {:induction false} FirstAndLastSent(log: seq<Entry>) returns (f: nat, l: nat)
    requires Wire(log) != []
    ensures f <= l < |log| && log[f].Sent? && log[l].Sent?
    ensures SentN(log, f) == 0 && SentN(log, l + 1) == SentN(log, |log|)
    decreases |log|
  {
    var n := |log| - 1;
    var init := log[..n];
    WireCounts(init);
    if Wire(init) == [] {
      f, l := n, n;
      SentNPrefix(log, n, n);
    } else {
      f, l := FirstAndLastSent(init);
      SentNPrefix(log, n, f);
      SentNPrefix(log, n, l + 1);
      SentNPrefix(log, n, n);
      if log[n].Sent? {
        l := n;
      }
    }
  }

  /** A state's transmissions against the OK lines and the time since the first of them. */
  ghost predicate RateKept(s: State) {
    Wire(s.log) != [] ==> exists f :: FirstSentAt(s, f) && RateSince(s, f)
  }

  /** Log entry f is the first transmission. */
  ghost predicate FirstSentAt(s: State, f: nat) {
    && f < |s.log| && s.log[f].Sent? && s.log[f].at <= s.now
    && (forall i :: 0 <= i < f ==> !s.log[i].Sent?)
  }

  ghost predicate RateSince(s: State, f: nat)
    requires FirstSentAt(s, f)
  {
    |Wire(s.log)| <= 1 + (OkN(s.log, |s.log|) - OkN(s.log, f)) + (s.now - s.log[f].at) / GUARD_MS
  }

  lemma {:induction false} NoneSent(log: seq<Entry>, n: nat)
    requires n <= |log| && SentN(log, n) == 0
    ensures forall i :: 0 <= i < n ==> !log[i].Sent?
  {
    if n > 0 {
      NoneSent(log, n - 1);
    }
  }

  /** In every run: transmissions <= 1 + OK lines + floor(ms / 5000), both counted from the first
      transmission. */
  lemma RateBound(cfg: Config, evs: seq<Event>)
    requires Legal(cfg, INIT, evs)
    ensures RateKept(Run(cfg, INIT, evs))
  {
    var s := Run(cfg, INIT, evs);
    RunSpaced(cfg, INIT, evs);
    WireCounts(s.log);
    if Wire(s.log) != [] {
      var f, l := FirstAndLastSent(s.log);
      NoneSent(s.log, f);
      RateWindow(s.log, f, l);
      OkMonotone(s.log, l, |s.log|);
      var k := SentN(s.log, |s.log|) - 1 - (OkN(s.log, |s.log|) - OkN(s.log, f));
      assert GUARD_MS * k <= s.now - s.log[f].at;
      assert FirstSentAt(s, f) && RateSince(s, f);
    }
  }
}

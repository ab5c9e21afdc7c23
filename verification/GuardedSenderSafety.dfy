/** What holds in every reachable state of driver B. */
module GuardedSenderSafety {
  import opened Bytes
  import opened GuardedSender

  // ---- Buffers and wakeups ----

  /** The RX buffer is never left full; every queued item fits the handler's TX buffer and the ring; a
      waiting item with the guard down has the TX interrupt enabled. */
  ghost predicate Sound(cfg: Config, s: State) {
    && |s.pending| < cfg.rx
    && Free(LINE_END, s.pending)
    && (forall i :: 0 <= i < |s.queue| ==> 5 <= |s.queue[i]| < 4 * cfg.txw)
    && Used(s.queue) <= cfg.ringWords
    && (s.queue != [] && !s.guard ==> s.txIrq)
  }

  lemma SendSound(cfg: Config, s: State, data: seq<byte>)
    requires Sound(cfg, s) && Fits(cfg, data)
    ensures Sound(cfg, SendStep(cfg, s, data))
  {
    UsedAppend(s.queue, [Framed(data)]);
    assert Used([Framed(data)]) == 1 + Size32(|Framed(data)|) + Used([]);
  }

  lemma RxSound(cfg: Config, s: State, c: byte)
    requires cfg.Valid() && Sound(cfg, s) && Enabled(cfg, s, Rx(c))
    ensures Sound(cfg, RxStep(cfg, s, c))
  {
    var chunk := s.pending + [c];
    if c in LINE_END {
      var l := TakeLine(s, chunk);
      assert Sound(cfg, l);
      if s.echo {
        SendSound(cfg, l, chunk);
      }
    }
  }

  /** With at most 255 buffer words, every queued item has the words it needs, can be taken out, and then
      goes out whole. */
  lemma QueuedItemIsWhole(cfg: Config, s: State, i: nat)
    requires cfg.Valid() && Sound(cfg, s) && i < |s.queue|
    ensures Size32(|s.queue[i]|) == ItemWords(|s.queue[i]|) <= MySize(cfg) == cfg.txw
    ensures Transmitted(s.queue[i]) == s.queue[i]
  {
    SizeLaw(|s.queue[i]|);
    TransmittedWholeIff(s.queue[i]);
  }

  lemma TxSound(cfg: Config, s: State)
    requires cfg.Valid() && Sound(cfg, s)
    ensures Sound(cfg, TxStep(cfg, s))
  {
    if s.queue != [] {
      QueuedItemIsWhole(cfg, s, 0);
    }
  }

  lemma StepSound(cfg: Config, s: State, ev: Event)
    requires cfg.Valid() && Sound(cfg, s) && Enabled(cfg, s, ev)
    ensures Sound(cfg, Step(cfg, s, ev))
  {
    match ev
    case Send(data) => SendSound(cfg, s, data);
    case SetCallback(on) =>
    case Rx(c) => RxSound(cfg, s, c);
    case TxReady => TxSound(cfg, s);
    case Expire =>
    case Tick(ms) =>
  }

  lemma {:induction false} RunSound(cfg: Config, s: State, evs: seq<Event>)
    requires cfg.Valid() && Sound(cfg, s) && Legal(cfg, s, evs)
    ensures Sound(cfg, Run(cfg, s, evs))
    decreases |evs|
  {
    if evs != [] {
      StepSound(cfg, s, evs[0]);
      RunSound(cfg, Step(cfg, s, evs[0]), evs[1..]);
    }
  }

  // ---- Exactly once, in order ----

  /** The items transmitted and those queued are, in order, SEND: + data of the accepted sends; of an item
      transmitted, the bytes its words cover went out. */
  ghost predicate Balanced(s: State) {
    Ledger(FramedAll(AcceptedData(s.log)), Wire(s.log), s.queue)
  }

  ghost predicate Ledger(all: seq<seq<byte>>, wire: seq<seq<byte>>, queue: seq<seq<byte>>) {
    && |wire| <= |all|
    && queue == all[|wire|..]
    && forall i :: 0 <= i < |wire| ==> wire[i] == Transmitted(all[i])
  }

  lemma LedgerAccept(all: seq<seq<byte>>, wire: seq<seq<byte>>, queue: seq<seq<byte>>, item: seq<byte>)
    requires Ledger(all, wire, queue)
    ensures Ledger(all + [item], wire, queue + [item])
  {
    assert (all + [item])[|wire|..] == queue + [item];
  }

  lemma LedgerTransmit(all: seq<seq<byte>>, wire: seq<seq<byte>>, queue: seq<seq<byte>>)
    requires Ledger(all, wire, queue) && queue != []
    ensures Ledger(all, wire + [Transmitted(queue[0])], queue[1..])
  {
    assert queue[0] == all[|wire|] && queue[1..] == all[|wire| + 1..];
  }

  /** Items of at most 255 words are on the wire whole. */
  lemma LedgerWhole(all: seq<seq<byte>>, wire: seq<seq<byte>>, queue: seq<seq<byte>>)
    requires Ledger(all, wire, queue)
    requires forall i :: 0 <= i < |all| ==> all[i] != [] && ItemWords(|all[i]|) <= 255
    ensures wire + queue == all
  {
    forall i | 0 <= i < |wire|
      ensures wire[i] == all[i]
    {
      TransmittedWholeIff(all[i]);
    }
  }

  /** What each kind of entry adds to the ledger. */
  lemma LedgerAppend(log: seq<Entry>, e: Entry)
    ensures Wire(Append(log, e)) == if e.Sent? then Wire(log) + [e.bytes] else Wire(log)
    ensures AcceptedData(Append(log, e)) == if e.Accepted? then AcceptedData(log) + [e.data] else AcceptedData(log)
  {
  }

  lemma SendBalanced(cfg: Config, s: State, data: seq<byte>)
    requires Balanced(s)
    ensures Balanced(SendStep(cfg, s, data))
  {
    LedgerAppend(s.log, Rejected(data));
    LedgerAppend(s.log, Accepted(data));
    var all := FramedAll(AcceptedData(s.log));
    assert FramedAll(AcceptedData(s.log) + [data]) == all + [Framed(data)];
    LedgerAccept(all, Wire(s.log), s.queue, Framed(data));
  }

  lemma LineBalanced(s: State, chunk: seq<byte>)
    requires Balanced(s)
    ensures Balanced(TakeLine(s, chunk))
  {
    LedgerAppend(s.log, Chunk(chunk));
  }

  lemma RxBalanced(cfg: Config, s: State, c: byte)
    requires Balanced(s)
    ensures Balanced(RxStep(cfg, s, c))
  {
    var chunk := s.pending + [c];
    LedgerAppend(s.log, Chunk(chunk));
    if c in LINE_END {
      LineBalanced(s, chunk);
      SendBalanced(cfg, TakeLine(s, chunk), chunk);
    }
  }

  lemma TxBalanced(cfg: Config, s: State)
    requires Balanced(s)
    ensures Balanced(TxStep(cfg, s))
  {
    if s.queue != [] {
      LedgerAppend(s.log, Sent(Transmitted(s.queue[0]), s.now));
      LedgerTransmit(FramedAll(AcceptedData(s.log)), Wire(s.log), s.queue);
    }
  }

  lemma StepBalanced(cfg: Config, s: State, ev: Event)
    requires Balanced(s)
    ensures Balanced(Step(cfg, s, ev))
  {
    match ev
    case Send(data) => SendBalanced(cfg, s, data);
    case SetCallback(on) =>
    case Rx(c) => RxBalanced(cfg, s, c);
    case TxReady => TxBalanced(cfg, s);
    case Expire => LedgerAppend(s.log, Expired(s.now));
    case Tick(ms) =>
  }

  lemma {:induction false} RunBalanced(cfg: Config, s: State, evs: seq<Event>)
    requires Balanced(s)
    ensures Balanced(Run(cfg, s, evs))
    decreases |evs|
  {
    if evs != [] {
      StepBalanced(cfg, s, evs[0]);
      RunBalanced(cfg, Step(cfg, s, evs[0]), evs[1..]);
    }
  }

  // ---- History is never rewritten ----

  lemma RxExtendsLog(cfg: Config, s: State, c: byte)
    ensures s.log <= RxStep(cfg, s, c).log
  {
    var chunk := s.pending + [c];
    var l := TakeLine(s, chunk);
    assert s.log <= l.log;
    assert l.log <= SendStep(cfg, l, chunk).log;
  }

  lemma StepExtendsLog(cfg: Config, s: State, ev: Event)
    ensures s.log <= Step(cfg, s, ev).log
  {
    match ev
    case Rx(c) => RxExtendsLog(cfg, s, c);
    case _ =>
  }

  lemma {:induction false} RunExtendsLog(cfg: Config, s: State, evs: seq<Event>)
    ensures s.log <= Run(cfg, s, evs).log
    decreases |evs|
  {
    if evs != [] {
      StepExtendsLog(cfg, s, evs[0]);
      RunExtendsLog(cfg, Step(cfg, s, evs[0]), evs[1..]);
    }
  }

  lemma {:induction false} LongerLog(log: seq<Entry>, longer: seq<Entry>)
    requires log <= longer
    ensures Wire(log) <= Wire(longer)
    ensures AcceptedData(log) <= AcceptedData(longer)
    decreases |longer|
  {
    if |log| == |longer| {
      assert log == longer;
    } else {
      LongerLog(log, longer[..|longer| - 1]);
    }
  }

  // ---- The length of what is sent ----

  /** Legal runs but for the length of the data sent: framed, it takes at most room bytes. */
  predicate SendsUpTo(cfg: Config, s: State, evs: seq<Event>, room: nat)
    decreases |evs|
  {
    evs == [] || (StepUpTo(s, evs[0], room) && SendsUpTo(cfg, Step(cfg, s, evs[0]), evs[1..], room))
  }

  predicate StepUpTo(s: State, ev: Event, room: nat) {
    match ev
    case Send(data) => |data| + 5 <= room
    case Rx(c) => c in LINE_END && s.echo ==> |s.pending| + 6 <= room
    case Expire => s.deadline.Some? && s.deadline.value <= s.now
    case _ => true
  }

  lemma {:induction false} LegalSendsUpTo(cfg: Config, s: State, evs: seq<Event>)
    requires cfg.Allowed() && Legal(cfg, s, evs)
    ensures SendsUpTo(cfg, s, evs, 4 * cfg.txw - 1)
    decreases |evs|
  {
    if evs != [] {
      LegalSendsUpTo(cfg, Step(cfg, s, evs[0]), evs[1..]);
    }
  }

  /** All data offered for sending, accepted or refused, is so short. */
  ghost predicate OffersUpTo(log: seq<Entry>, room: nat) {
    forall i :: 0 <= i < |log| && (log[i].Accepted? || log[i].Rejected?) ==> |log[i].data| + 5 <= room
  }

  lemma OffersAppend(log: seq<Entry>, e: Entry, room: nat)
    requires OffersUpTo(log, room) && (e.Accepted? || e.Rejected? ==> |e.data| + 5 <= room)
    ensures OffersUpTo(Append(log, e), room)
  {
    var r := Append(log, e);
    assert forall i :: 0 <= i < |log| ==> r[i] == r[..|log|][i];
  }

  lemma {:induction false} AcceptedAreOffers(log: seq<Entry>, room: nat)
    requires OffersUpTo(log, room)
    ensures forall i :: 0 <= i < |AcceptedData(log)| ==> |AcceptedData(log)[i]| + 5 <= room
    decreases |log|
  {
    if log != [] {
      AcceptedAreOffers(log[..|log| - 1], room);
    }
  }

  lemma SendOffersUpTo(cfg: Config, s: State, data: seq<byte>, room: nat)
    requires OffersUpTo(s.log, room) && |data| + 5 <= room
    ensures OffersUpTo(SendStep(cfg, s, data).log, room)
  {
    OffersAppend(s.log, Rejected(data), room);
    OffersAppend(s.log, Accepted(data), room);
  }

  lemma RxOffersUpTo(cfg: Config, s: State, c: byte, room: nat)
    requires OffersUpTo(s.log, room) && StepUpTo(s, Rx(c), room)
    ensures OffersUpTo(RxStep(cfg, s, c).log, room)
  {
    var chunk := s.pending + [c];
    OffersAppend(s.log, Chunk(chunk), room);
    if c in LINE_END && s.echo {
      SendOffersUpTo(cfg, TakeLine(s, chunk), chunk, room);
    }
  }

  lemma StepOffersUpTo(cfg: Config, s: State, ev: Event, room: nat)
    requires OffersUpTo(s.log, room) && StepUpTo(s, ev, room)
    ensures OffersUpTo(Step(cfg, s, ev).log, room)
  {
    match ev
    case Send(data) => SendOffersUpTo(cfg, s, data, room);
    case SetCallback(on) =>
    case Rx(c) => RxOffersUpTo(cfg, s, c, room);
    case TxReady =>
      if s.queue != [] {
        OffersAppend(s.log, Sent(Transmitted(s.queue[0]), s.now), room);
      }
    case Expire => OffersAppend(s.log, Expired(s.now), room);
    case Tick(ms) =>
  }

  lemma {:induction false} RunOffersUpTo(cfg: Config, s: State, evs: seq<Event>, room: nat)
    requires OffersUpTo(s.log, room) && SendsUpTo(cfg, s, evs, room)
    ensures OffersUpTo(Run(cfg, s, evs).log, room)
    decreases |evs|
  {
    if evs != [] {
      StepOffersUpTo(cfg, s, evs[0], room);
      RunOffersUpTo(cfg, Step(cfg, s, evs[0]), evs[1..], room);
    }
  }

  // ---- Admission: an item is refused exactly when the ring has no room for it ----

  /** The queue as an observer reconstructs it from the log: framed accepted data not yet sent. */
  ghost function QueueOf(log: seq<Entry>): seq<seq<byte>> {
    var all := FramedAll(AcceptedData(log));
    if |Wire(log)| <= |all| then all[|Wire(log)|..] else []
  }

  ghost predicate AdmittedByRoom(cfg: Config, log: seq<Entry>) {
    forall i :: 0 <= i < |log| && (log[i].Accepted? || log[i].Rejected?) ==>
      (log[i].Accepted? <==> HasRoom(cfg, QueueOf(log[..i]), Framed(log[i].data)))
  }

  lemma AdmittedAppend(cfg: Config, log: seq<Entry>, e: Entry)
    requires AdmittedByRoom(cfg, log)
    requires e.Accepted? || e.Rejected? ==> (e.Accepted? <==> HasRoom(cfg, QueueOf(log), Framed(e.data)))
    ensures AdmittedByRoom(cfg, Append(log, e))
  {
    var r := Append(log, e);
    forall i | 0 <= i < |log|
      ensures r[..i] == log[..i]
    {
      assert r[..|log|][..i] == r[..i];
    }
  }

  lemma QueueOfBalanced(s: State)
    requires Balanced(s)
    ensures QueueOf(s.log) == s.queue
  {
  }

  lemma SendAdmitted(cfg: Config, s: State, data: seq<byte>)
    requires Balanced(s) && AdmittedByRoom(cfg, s.log)
    ensures AdmittedByRoom(cfg, SendStep(cfg, s, data).log)
  {
    QueueOfBalanced(s);
    AdmittedAppend(cfg, s.log, if HasRoom(cfg, s.queue, Framed(data)) then Accepted(data) else Rejected(data));
  }

  lemma RxAdmitted(cfg: Config, s: State, c: byte)
    requires Balanced(s) && AdmittedByRoom(cfg, s.log)
    ensures AdmittedByRoom(cfg, RxStep(cfg, s, c).log)
  {
    var chunk := s.pending + [c];
    AdmittedAppend(cfg, s.log, Chunk(chunk));
    if c in LINE_END {
      LineBalanced(s, chunk);
      SendAdmitted(cfg, TakeLine(s, chunk), chunk);
    }
  }

  lemma TxAdmitted(cfg: Config, s: State)
    requires AdmittedByRoom(cfg, s.log)
    ensures AdmittedByRoom(cfg, TxStep(cfg, s).log)
  {
    if s.queue != [] {
      AdmittedAppend(cfg, s.log, Sent(Transmitted(s.queue[0]), s.now));
    }
  }

  lemma StepAdmitted(cfg: Config, s: State, ev: Event)
    requires Balanced(s) && AdmittedByRoom(cfg, s.log)
    ensures AdmittedByRoom(cfg, Step(cfg, s, ev).log)
  {
    match ev
    case Send(data) => SendAdmitted(cfg, s, data);
    case SetCallback(on) =>
    case Rx(c) => RxAdmitted(cfg, s, c);
    case TxReady => TxAdmitted(cfg, s);
    case Expire => AdmittedAppend(cfg, s.log, Expired(s.now));
    case Tick(ms) =>
  }

  lemma {:induction false} RunAdmitted(cfg: Config, s: State, evs: seq<Event>)
    requires Balanced(s) && AdmittedByRoom(cfg, s.log)
    ensures AdmittedByRoom(cfg, Run(cfg, s, evs).log)
    decreases |evs|
  {
    if evs != [] {
      StepBalanced(cfg, s, evs[0]);
      StepAdmitted(cfg, s, evs[0]);
      RunAdmitted(cfg, Step(cfg, s, evs[0]), evs[1..]);
    }
  }

  // ---- The guard and its timer ----

  /** The guard as an observer reconstructs it: up since the last transmission unless an OK line or a
      timer expiry came after it. */
  function GuardOf(log: seq<Entry>): bool {
    if log == [] then false else
    var n := |log| - 1;
    if log[n].Sent? then true
    else if log[n].Expired? || IsOkLine(log[n]) then false
    else GuardOf(log[..n])
  }

  function LastSent(log: seq<Entry>): Option<nat> {
    if log == [] then None else
    var n := |log| - 1;
    if log[n].Sent? then Some(log[n].at) else LastSent(log[..n])
  }

  /** The timer as an observer reconstructs it: due 5000 ms after the last transmission, until it fires. */
  function TimerOf(log: seq<Entry>): Option<nat> {
    if log == [] then None else
    var n := |log| - 1;
    if log[n].Sent? then Some(log[n].at + GUARD_MS)
    else if log[n].Expired? then None
    else TimerOf(log[..n])
  }

  /** Guard and timer are what the log says, and while the guard is up the timer runs; a running timer,
      even one left over after an OK, is the one started by the last transmission. */
  ghost predicate GuardExact(s: State) {
    && s.guard == GuardOf(s.log)
    && s.deadline == TimerOf(s.log)
    && (s.guard ==> s.deadline.Some?)
    && (s.deadline.Some? ==> s.deadline.value >= GUARD_MS && LastSent(s.log) == Some(s.deadline.value - GUARD_MS))
  }

  lemma GuardAppend(log: seq<Entry>, e: Entry)
    ensures GuardOf(Append(log, e)) == (e.Sent? || (!e.Expired? && !IsOkLine(e) && GuardOf(log)))
    ensures LastSent(Append(log, e)) == if e.Sent? then Some(e.at) else LastSent(log)
    ensures TimerOf(Append(log, e)) == if e.Sent? then Some(e.at + GUARD_MS) else if e.Expired? then None else TimerOf(log)
  {
  }

  /** Transmission i no longer blocks: an OK line came after it, or 5000 ms have passed. */
  ghost predicate Released(log: seq<Entry>, i: nat, now: nat)
    requires i < |log| && log[i].Sent?
  {
    || (exists r :: i < r < |log| && IsOkLine(log[r]))
    || now >= log[i].at + GUARD_MS
  }

  /** Between any two transmissions an OK line was received, or they are at least 5000 ms apart. */
  ghost predicate StopAndWait(log: seq<Entry>) {
    forall i, j :: 0 <= i < j < |log| && log[i].Sent? && log[j].Sent? ==>
      || (exists r :: i < r < j && IsOkLine(log[r]))
      || log[j].at >= log[i].at + GUARD_MS
  }

  ghost predicate Ordered(log: seq<Entry>) {
    forall i, j :: 0 <= i < j < |log| && log[i].Sent? && log[j].Sent? ==> log[i].at <= log[j].at
  }

  ghost predicate SpacedLog(log: seq<Entry>, guard: bool, deadline: Option<nat>, now: nat) {
    && StopAndWait(log)
    && Ordered(log)
    && (forall i :: 0 <= i < |log| && log[i].Sent? ==> log[i].at <= now)
    && (deadline.Some? ==> forall i :: 0 <= i < |log| && log[i].Sent? ==> log[i].at + GUARD_MS <= deadline.value)
    && (guard ==> deadline.Some?)
    && (!guard ==> forall i :: 0 <= i < |log| && log[i].Sent? ==> Released(log, i, now))
  }

  ghost predicate Spaced(s: State) {
    SpacedLog(s.log, s.guard, s.deadline, s.now)
  }

  lemma ReleasedAppend(log: seq<Entry>, e: Entry, i: nat, now: nat)
    requires i < |log| && log[i].Sent? && Released(log, i, now)
    ensures Append(log, e)[i] == log[i] && Released(Append(log, e), i, now)
  {
    var r := Append(log, e);
    assert forall k :: 0 <= k < |log| ==> r[k] == r[..|log|][k];
  }

  /** Appending an entry of the present keeps the order of transmission times, and their bounds. */
  lemma OrderedAppend(log: seq<Entry>, e: Entry, now: nat)
    requires Ordered(log) && forall i :: 0 <= i < |log| && log[i].Sent? ==> log[i].at <= now
    requires e.Sent? ==> e.at == now
    ensures var r := Append(log, e);
      && Ordered(r)
      && (forall i :: 0 <= i < |r| && r[i].Sent? ==> r[i].at <= now)
      && (forall i :: 0 <= i < |log| ==> r[i] == log[i])
      && r[|log|] == e
  {
    var r := Append(log, e);
    assert forall k :: 0 <= k < |log| ==> r[k] == r[..|log|][k];
  }

  lemma StopAndWaitAppend(log: seq<Entry>, e: Entry)
    requires StopAndWait(log) && !e.Sent?
    ensures StopAndWait(Append(log, e))
  {
    var r := Append(log, e);
    assert forall k :: 0 <= k < |log| ==> r[k] == r[..|log|][k];
    forall i, j | 0 <= i < j < |r| && r[i].Sent? && r[j].Sent?
      ensures (exists q :: i < q < j && IsOkLine(r[q])) || r[j].at >= r[i].at + GUARD_MS
    {
      assert log[i].Sent? && log[j].Sent?;
      if q :| i < q < j && IsOkLine(log[q]) {
        assert IsOkLine(r[q]);
      }
    }
  }

  /** Appending anything but a transmission keeps the spacing. */
  lemma SpacedAppend(s: State, e: Entry)
    requires Spaced(s) && !e.Sent?
    ensures Spaced(s.(log := Append(s.log, e)))
  {
    StopAndWaitAppend(s.log, e);
    OrderedAppend(s.log, e, s.now);
    if !s.guard {
      ReleasedAll(s.log, e, s.now);
    }
  }

  lemma ReleasedAll(log: seq<Entry>, e: Entry, now: nat)
    requires !e.Sent? && forall i :: 0 <= i < |log| && log[i].Sent? ==> Released(log, i, now)
    ensures var r := Append(log, e); forall i :: 0 <= i < |r| && r[i].Sent? ==> Released(r, i, now)
  {
    var r := Append(log, e);
    forall i | 0 <= i < |r| && r[i].Sent?
      ensures Released(r, i, now)
    {
      assert r[i] == r[..|log|][i] == log[i];
      ReleasedAppend(log, e, i, now);
    }
  }

  lemma OkTest(pending: seq<byte>, c: byte)
    requires c in LINE_END
    ensures BeginsWithOk(pending + [c]) <==> IsOkLine(Chunk(pending + [c]))
  {
    var chunk := pending + [c];
    if OK_PREFIX <= chunk {
      assert chunk[..2] == OK_PREFIX;
    }
  }

  lemma LineSpaced(s: State, c: byte)
    requires Spaced(s) && c in LINE_END
    ensures Spaced(TakeLine(s, s.pending + [c]))
  {
    var e := Chunk(s.pending + [c]);
    OkTest(s.pending, c);
    SpacedAppend(s, e);
    assert Append(s.log, e)[|s.log|] == e;
  }

  /** A transmission made when every earlier one is released keeps the rule. */
  lemma StopAndWaitSend(log: seq<Entry>, e: Entry)
    requires StopAndWait(log) && e.Sent?
    requires forall i :: 0 <= i < |log| && log[i].Sent? ==> Released(log, i, e.at)
    ensures StopAndWait(Append(log, e))
  {
    var r := Append(log, e);
    assert forall k :: 0 <= k < |log| ==> r[k] == r[..|log|][k];
    forall i, j | 0 <= i < j < |r| && r[i].Sent? && r[j].Sent?
      ensures (exists q :: i < q < j && IsOkLine(r[q])) || r[j].at >= r[i].at + GUARD_MS
    {
      assert log[i].Sent?;
      if j == |log| {
        assert Released(log, i, e.at);
      }
      if q :| i < q < j && IsOkLine(log[q]) {
        assert IsOkLine(r[q]);
      }
    }
  }

  lemma TxSpaced(cfg: Config, s: State)
    requires Spaced(s)
    ensures Spaced(TxStep(cfg, s))
  {
    var t := TxStep(cfg, s);
    if t.log != s.log {
      StopAndWaitSend(s.log, Sent(Transmitted(s.queue[0]), s.now));
      OrderedAppend(s.log, Sent(Transmitted(s.queue[0]), s.now), s.now);
    }
  }

  lemma SendSpaced(cfg: Config, s: State, data: seq<byte>)
    requires Spaced(s)
    ensures Spaced(SendStep(cfg, s, data))
  {
    SpacedAppend(s, Accepted(data));
    SpacedAppend(s, Rejected(data));
  }

  lemma StepSpaced(cfg: Config, s: State, ev: Event)
    requires Spaced(s) && Enabled(cfg, s, ev)
    ensures Spaced(Step(cfg, s, ev))
  {
    match ev
    case Send(data) => SendSpaced(cfg, s, data);
    case SetCallback(on) =>
    case Rx(c) => RxSpaced(cfg, s, c);
    case TxReady => TxSpaced(cfg, s);
    case Expire => ExpireSpaced(cfg, s);
    case Tick(ms) => TickSpaced(s, ms);
  }

  lemma RxSpaced(cfg: Config, s: State, c: byte)
    requires Spaced(s)
    ensures Spaced(RxStep(cfg, s, c))
  {
    var chunk := s.pending + [c];
    if c in LINE_END {
      LineSpaced(s, c);
      SendSpaced(cfg, TakeLine(s, chunk), chunk);
    } else {
      SpacedAppend(s, Chunk(chunk));
    }
  }

  lemma ExpireSpaced(cfg: Config, s: State)
    requires Spaced(s) && Enabled(cfg, s, Expire)
    ensures Spaced(Step(cfg, s, Expire))
  {
    var s1 := s.(guard := false, txIrq := true, deadline := None);
    assert forall i :: 0 <= i < |s.log| && s.log[i].Sent? ==> Released(s.log, i, s.now);
    assert Spaced(s1);
    SpacedAppend(s1, Expired(s.now));
  }

  lemma TickSpaced(s: State, ms: nat)
    requires Spaced(s)
    ensures Spaced(s.(now := s.now + ms))
  {
    if !s.guard {
      forall i | 0 <= i < |s.log| && s.log[i].Sent?
        ensures Released(s.log, i, s.now + ms)
      {
        assert Released(s.log, i, s.now);
      }
    }
  }

  lemma {:induction false} RunSpaced(cfg: Config, s: State, evs: seq<Event>)
    requires Spaced(s) && Legal(cfg, s, evs)
    ensures Spaced(Run(cfg, s, evs))
    decreases |evs|
  {
    if evs != [] {
      StepSpaced(cfg, s, evs[0]);
      RunSpaced(cfg, Step(cfg, s, evs[0]), evs[1..]);
    }
  }

  lemma SendGuardExact(cfg: Config, s: State, data: seq<byte>)
    requires GuardExact(s)
    ensures GuardExact(SendStep(cfg, s, data))
  {
    GuardAppend(s.log, Accepted(data));
    GuardAppend(s.log, Rejected(data));
  }

  lemma RxGuardExact(cfg: Config, s: State, c: byte)
    requires GuardExact(s)
    ensures GuardExact(RxStep(cfg, s, c))
  {
    var chunk := s.pending + [c];
    GuardAppend(s.log, Chunk(chunk));
    if c in LINE_END {
      OkTest(s.pending, c);
      SendGuardExact(cfg, TakeLine(s, chunk), chunk);
    } else {
      assert chunk[|chunk| - 1] == c;
    }
  }

  lemma StepGuardExact(cfg: Config, s: State, ev: Event)
    requires GuardExact(s) && Enabled(cfg, s, ev)
    ensures GuardExact(Step(cfg, s, ev))
  {
    match ev
    case Send(data) => SendGuardExact(cfg, s, data);
    case SetCallback(on) =>
    case Rx(c) => RxGuardExact(cfg, s, c);
    case TxReady =>
      if s.queue != [] {
        GuardAppend(s.log, Sent(Transmitted(s.queue[0]), s.now));
      }
    case Expire => GuardAppend(s.log, Expired(s.now));
    case Tick(ms) =>
  }

  lemma {:induction false} RunGuardExact(cfg: Config, s: State, evs: seq<Event>)
    requires GuardExact(s) && Legal(cfg, s, evs)
    ensures GuardExact(Run(cfg, s, evs))
    decreases |evs|
  {
    if evs != [] {
      StepGuardExact(cfg, s, evs[0]);
      RunGuardExact(cfg, Step(cfg, s, evs[0]), evs[1..]);
    }
  }
}

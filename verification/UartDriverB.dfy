/** Driver B itself: the stop-and-wait sender and CR/LF receiver, with its buffers, its item ring and
    its timer updated in place. Every method is proved to take the steps of GuardedSender. */
module UartDriverB {
  import opened Bytes
  import opened ItemRing
  import opened GuardedSender

  /** One turn of the handler's outer loop: the bytes its inner loop reads, and whether the TX FIFO is
      then ready. Both are up to the hardware. */
  datatype Pass = Pass(rx: seq<byte>, txReady: bool)

  function RxEvents(rx: seq<byte>): seq<Event> {
    if rx == [] then [] else [Rx(rx[0])] + RxEvents(rx[1..])
  }

  function TxEvents(ready: bool): seq<Event> {
    if ready then [TxReady] else []
  }

  /** The steps of one pass, and what is left to do after it. */
  function PassEvents(p: Pass, after: seq<Event>): seq<Event> {
    RxEvents(p.rx) + (TxEvents(p.txReady) + after)
  }

  /** The steps one call of the handler amounts to. */
  function HandlerEvents(passes: seq<Pass>): seq<Event> {
    if passes == [] then []
    else PassEvents(passes[0], HandlerEvents(passes[1..]))
  }

  /** The number of steps of the first k passes. */
  function StepsOf(passes: seq<Pass>, k: nat): nat
    requires k <= |passes|
  {
    if k == 0 then 0
    else StepsOf(passes, k - 1) + |passes[k - 1].rx| + if passes[k - 1].txReady then 1 else 0
  }

  /** From step number at on, some steps are those of one pass: one receive step for each byte read, with
      that byte and in that order, then the transmit step if the FIFO is ready. */
  ghost predicate PassAt(evs: seq<Event>, at: nat, p: Pass) {
    && at + |p.rx| + (if p.txReady then 1 else 0) <= |evs|
    && (forall j :: 0 <= j < |p.rx| ==> evs[at + j] == Rx(p.rx[j]))
    && (p.txReady ==> evs[at + |p.rx|] == TxReady)
  }

  lemma {:induction false} RxEventsAre(rx: seq<byte>)
    ensures |RxEvents(rx)| == |rx| && forall j :: 0 <= j < |rx| ==> RxEvents(rx)[j] == Rx(rx[j])
    decreases |rx|
  {
    if rx != [] {
      RxEventsAre(rx[1..]);
    }
  }

  lemma PassEventsAre(p: Pass, after: seq<Event>)
    ensures var evs, n := PassEvents(p, after), |p.rx| + if p.txReady then 1 else 0;
      PassAt(evs, 0, p) && |evs| == n + |after| && evs[n..] == after
  {
    RxEventsAre(p.rx);
  }

  lemma {:induction false} StepsOfTail(passes: seq<Pass>, k: nat)
    requires 0 < k <= |passes|
    ensures StepsOf(passes, k) == StepsOf(passes, 1) + StepsOf(passes[1..], k - 1)
    decreases k
  {
    if k > 1 {
      StepsOfTail(passes, k - 1);
    }
  }

  /** The steps of a handler call are those of its passes, one after the other, and no others. */
  lemma {:induction false} HandlerEventsAre(passes: seq<Pass>)
    ensures |HandlerEvents(passes)| == StepsOf(passes, |passes|)
    ensures forall k :: 0 <= k < |passes| ==> PassAt(HandlerEvents(passes), StepsOf(passes, k), passes[k])
    decreases |passes|
  {
    if passes != [] {
      HandlerEventsAre(passes[1..]);
      FirstPass(passes);
      StepsOfTail(passes, |passes|);
      forall k | 0 < k < |passes|
        ensures PassAt(HandlerEvents(passes), StepsOf(passes, k), passes[k])
      {
        LaterPass(passes, k);
      }
    }
  }

  lemma FirstPass(passes: seq<Pass>)
    requires passes != []
    ensures PassAt(HandlerEvents(passes), 0, passes[0])
    ensures |HandlerEvents(passes)| == StepsOf(passes, 1) + |HandlerEvents(passes[1..])|
    ensures HandlerEvents(passes)[StepsOf(passes, 1)..] == HandlerEvents(passes[1..])
  {
    PassEventsAre(passes[0], HandlerEvents(passes[1..]));
    assert StepsOf(passes, 1) == StepsOf(passes, 0) + |passes[0].rx| + if passes[0].txReady then 1 else 0;
  }

  lemma LaterPass(passes: seq<Pass>, k: nat)
    requires 0 < k < |passes| && PassAt(HandlerEvents(passes[1..]), StepsOf(passes[1..], k - 1), passes[k])
    ensures PassAt(HandlerEvents(passes), StepsOf(passes, k), passes[k])
  {
    var n, at := StepsOf(passes, 1), StepsOf(passes[1..], k - 1);
    assert StepsOf(passes, k) == n + at by {
      StepsOfTail(passes, k);
    }
    assert PassAt(HandlerEvents(passes), n + at, passes[k]) by {
      FirstPass(passes);
      PassMoves(HandlerEvents(passes[1..]), HandlerEvents(passes), n, at, passes[k]);
    }
  }

  lemma PassMoves(rest: seq<Event>, evs: seq<Event>, n: nat, at: nat, p: Pass)
    requires n <= |evs| && evs[n..] == rest && PassAt(rest, at, p)
    ensures PassAt(evs, n + at, p)
  {
    forall j | 0 <= j < |p.rx|
      ensures evs[n + at + j] == Rx(p.rx[j])
    {
      assert evs[n + at + j] == rest[at + j];
    }
    if p.txReady {
      assert evs[n + at + |p.rx|] == rest[at + |p.rx|];
    }
  }

  // ---- What one call of the handler does ----

  /** The handler is willing to take the item at the head of the queue. */
  predicate HeadFits(txw: nat, queue: seq<seq<byte>>) {
    queue != [] && Size32(|queue[0]|) <= txw % 256
  }

  /** The bytes read in one pass complete a line, in a buffer of rx bytes that holds pending; the line
      begins with O, K. */
  predicate CompletesOk(rx: nat, pending: seq<byte>, input: seq<byte>) {
    var line := pending + input;
    input != [] && Free(LINE_END, input[..|input| - 1]) && IsOk(line) && |line| <= rx
  }

  /** A terminated line that begins with O, K. */
  predicate IsOk(line: seq<byte>) {
    |line| >= 2 && line[0] == 79 && line[1] == 75 && line[|line| - 1] in {10, 13}
  }

  lemma GuardAfterByte(cfg: Config, s: State, c: byte)
    ensures RxStep(cfg, s, c).guard == (s.guard && !IsOk(s.pending + [c]))
  {
    var line := s.pending + [c];
    if |line| >= 2 {
      assert line[..2] == [line[0], line[1]];
    }
  }

  /** Bytes that neither end a line nor fill the buffer pile up. */
  lemma {:induction false} BytesPileUp(cfg: Config, s: State, input: seq<byte>, after: seq<Event>)
    requires Free(LINE_END, input) && |s.pending| + |input| < cfg.rx
    ensures Run(cfg, s, RxEvents(input) + after) == Run(cfg, s.(pending := s.pending + input), after)
    decreases |input|
  {
    if input == [] {
      assert RxEvents(input) + after == after && s.pending + [] == s.pending;
    } else {
      var t := s.(pending := s.pending + [input[0]]);
      FirstRx(input, 0, after);
      assert input[0..] == input;
      BytesPileUp(cfg, t, input[1..], after);
      assert t.pending + input[1..] == s.pending + input;
    }
  }

  lemma RxEventsSnoc(body: seq<byte>, c: byte, after: seq<Event>)
    ensures RxEvents(body + [c]) + after == RxEvents(body) + ([Rx(c)] + after)
  {
    RxEventsAre(body);
    RxEventsAre(body + [c]);
  }

  /** The handler is called once round its loop, with the FIFO ready for an item that can go. */
  predicate MaySend(cfg: Config, s: State, passes: seq<Pass>) {
    && |passes| == 1 && passes[0].txReady && HeadFits(cfg.txw, s.queue)
    && ((passes[0].rx == [] && !s.guard) || CompletesOk(cfg.rx, s.pending, passes[0].rx))
  }

  /** From s to t the oldest item went out, and nothing else; the guard is up and its timer started. */
  ghost predicate HeadSent(s: State, t: State) {
    && s.queue != []
    && Wire(t.log) == Wire(s.log) + [Transmitted(s.queue[0])]
    && t.guard && t.deadline == Some(s.now + 5000)
  }

  lemma HandlerSends(cfg: Config, s: State, passes: seq<Pass>)
    ensures MaySend(cfg, s, passes) ==> HeadSent(s, Run(cfg, s, HandlerEvents(passes)))
  {
    if MaySend(cfg, s, passes) {
      assert passes == [passes[0]];
      OnePassSends(cfg, s, passes[0]);
    }
  }

  /** A ready FIFO lets the oldest item go if nothing holds it back: in any case when the guard is down,
      and when it is up if the same pass has read the OK line. */
  lemma OnePassSends(cfg: Config, s: State, p: Pass)
    requires p.txReady && HeadFits(cfg.txw, s.queue)
    requires (p.rx == [] && !s.guard) || CompletesOk(cfg.rx, s.pending, p.rx)
    ensures var t := Run(cfg, s, HandlerEvents([p]));
      && Wire(t.log) == Wire(s.log) + [Transmitted(s.queue[0])]
      && t.guard && t.deadline == Some(s.now + 5000) && s.queue[1..] <= t.queue
  {
    assert [p][1..] == [] && HandlerEvents([]) == [] && [TxReady] + [] == [TxReady];
    assert HandlerEvents([p]) == RxEvents(p.rx) + [TxReady];
    if p.rx == [] {
      assert RxEvents([]) + [TxReady] == [TxReady];
      SentByTx(cfg, s);
    } else {
      LineThenSent(cfg, s, p.rx);
    }
  }

  lemma LineThenSent(cfg: Config, s: State, input: seq<byte>)
    requires HeadFits(cfg.txw, s.queue) && CompletesOk(cfg.rx, s.pending, input)
    ensures var t := Run(cfg, s, RxEvents(input) + [TxReady]);
      && Wire(t.log) == Wire(s.log) + [Transmitted(s.queue[0])]
      && t.guard && t.deadline == Some(s.now + 5000) && s.queue[1..] <= t.queue
  {
    var n := |input| - 1;
    var body, c := input[..n], input[n];
    var s1 := s.(pending := s.pending + body);
    assert input == body + [c];
    assert s1.pending + [c] == s.pending + input;
    assert Run(cfg, s, RxEvents(input) + [TxReady]) == Run(cfg, RxStep(cfg, s1, c), [TxReady]) by {
      LineRead(cfg, s, body, c, [TxReady]);
    }
    OkThenSent(cfg, s1, c, s.pending + input);
  }

  lemma OkThenSent(cfg: Config, s: State, c: byte, line: seq<byte>)
    requires HeadFits(cfg.txw, s.queue)
    requires c in LINE_END && line == s.pending + [c] && |line| >= 2 && line[0] == 79 && line[1] == 75
    ensures var t := Run(cfg, RxStep(cfg, s, c), [TxReady]);
      && Wire(t.log) == Wire(s.log) + [Transmitted(s.queue[0])]
      && t.guard && t.deadline == Some(s.now + 5000) && s.queue[1..] <= t.queue
  {
    OkReleases(cfg, s, c);
    SentByTx(cfg, RxStep(cfg, s, c));
  }

  lemma LineRead(cfg: Config, s: State, body: seq<byte>, c: byte, after: seq<Event>)
    requires Free(LINE_END, body) && |s.pending| + |body| < cfg.rx
    ensures Run(cfg, s, RxEvents(body + [c]) + after) == Run(cfg, RxStep(cfg, s.(pending := s.pending + body), c), after)
  {
    RxEventsSnoc(body, c, after);
    BytesPileUp(cfg, s, body, [Rx(c)] + after);
    assert ([Rx(c)] + after)[1..] == after;
  }

  lemma SentByTx(cfg: Config, s: State)
    requires HeadFits(cfg.txw, s.queue) && !s.guard
    ensures var t := Run(cfg, s, [TxReady]);
      && Wire(t.log) == Wire(s.log) + [Transmitted(s.queue[0])]
      && t.guard && t.deadline == Some(s.now + 5000) && t.queue == s.queue[1..]
  {
    assert [TxReady][1..] == [];
    assert Run(cfg, s, [TxReady]) == Run(cfg, TxStep(cfg, s), []);
  }

  lemma OkReleases(cfg: Config, s: State, c: byte)
    requires c in LINE_END && var line := s.pending + [c]; |line| >= 2 && line[0] == 79 && line[1] == 75
    ensures var t := RxStep(cfg, s, c);
      !t.guard && s.queue <= t.queue && t.now == s.now && Wire(t.log) == Wire(s.log)
  {
    var chunk := s.pending + [c];
    assert chunk[..2] == [79, 75];
  }

  lemma FirstRx(rx: seq<byte>, j: nat, rest: seq<Event>)
    requires j < |rx|
    ensures var evs := RxEvents(rx[j..]) + rest;
      evs[0] == Rx(rx[j]) && evs[1..] == RxEvents(rx[j + 1..]) + rest
  {
    assert rx[j..][1..] == rx[j + 1..];
  }

  // ---- Sizes kept in uint8_t ----

  /** The sizes are right for n bytes of data when nothing was truncated and the item fits the buffer. */
  predicate SizesRight(txw: nat, size: nat) {
    && Size32(size) == ItemWords(size)
    && 1 <= PadTag(size) <= 4
    && Size32(size) * 4 - PadTag(size) == size
    && Size32(size) <= txw % 256
  }

  /** Three eight-bit variables hold word counts. They are right for a legal send exactly when it needs no
      more words than are left of TXW in eight bits. */
  lemma SizeRightIff(txw: nat, size: nat)
    requires 1 <= txw <= 511 && 5 <= size < 4 * txw
    ensures SizesRight(txw, size) <==> ItemWords(size) <= txw % 256
  {
    SizeLaw(size);
  }

  /** So, for every buffer that can hold an item at all, every legal send is sized right exactly when the
      buffer has at most 255 words. */
  lemma SizesRightIff(txw: nat)
    requires 2 <= txw <= 511
    ensures (forall size {:trigger SizesRight(txw, size)} :: 5 <= size < 4 * txw ==> SizesRight(txw, size)) <==> txw <= 255
  {
    forall size | 5 <= size < 4 * txw
      ensures SizesRight(txw, size) <==> ItemWords(size) <= txw % 256
    {
      SizeRightIff(txw, size);
    }
    assert ItemWords(4 * txw - 1) == txw;
    assert txw > 255 ==> !SizesRight(txw, 4 * txw - 1);
  }

  // ---- Stored items ----

  /** An item in the ring carries a payload: its words hold as much of it as they were counted for, and its
      tag counts the padding. */
  ghost predicate Carries(item: Item, payload: seq<byte>) {
    && |item.words| == Size32(|payload|)
    && item.value as nat == PadTag(|payload|)
    && |ToBytes(item.words)| == 4 * |item.words|
    && Transmitted(payload) <= ToBytes(item.words)
  }

  /** Payloads of at most 255 words are in the words whole. */
  lemma CarriesWhole(item: Item, payload: seq<byte>)
    requires Carries(item, payload) && payload != [] && ItemWords(|payload|) <= 255
    ensures |item.words| == ItemWords(|payload|) && item.value as nat == 4 * |item.words| - |payload|
    ensures payload <= ToBytes(item.words)
  {
    SizeLaw(|payload|);
    TransmittedWholeIff(payload);
  }

  ghost predicate AllCarry(items: seq<Item>, queue: seq<seq<byte>>) {
    && |items| == |queue|
    && forall i :: 0 <= i < |items| ==> Carries(items[i], queue[i])
  }

  lemma {:induction false} RingUse(items: seq<Item>, queue: seq<seq<byte>>)
    requires Encodable(items) && AllCarry(items, queue)
    ensures |EncodeAll(items)| == Used(queue)
    decreases |items|
  {
    if items != [] {
      RingUse(items[1..], queue[1..]);
    }
  }

  /** check_sending_guard */
  method CheckSendingGuard(data: array<byte>, length: nat) returns (ok: bool)
    requires length <= data.Length
    ensures ok <==> length >= 2 && data[0] == 79 && data[1] == 75
    ensures ok == BeginsWithOk(data[..length])
  {
    if length < 2 {
      return false;
    }
    assert data[..length][..2] == [data[0], data[1]];
    return data[0] == 79 && data[1] == 75;
  }

  /** build_user_send_data: the bytes behind the copied data keep whatever they held. */
  method BuildUserSendData(buf: array<byte>, data: seq<byte>) returns (size: nat)
    requires |data| + 5 <= buf.Length
    modifies buf
    ensures size == |data| + 5 && buf[..size] == Framed(data)
    ensures buf[..5] == [83, 69, 78, 68, 58] && buf[5..size] == data
    ensures buf[size..] == old(buf[|data| + 5..])
  {
    forall i | 0 <= i < 5 {
      buf[i] := SEND_PREFIX[i];
    }
    forall i | 0 <= i < |data| {
      buf[5 + i] := data[i];
    }
    size := |data| + 5;
  }

  /** The first half of user_send_data: the words to queue and their padding tag. The word buffer lives
      on the stack and is not cleared, so the new array here starts with arbitrary contents. */
  method BuildItem(txWords: nat, data: seq<byte>) returns (value: byte, words: seq<Word>)
    requires |data| + 5 <= 4 * txWords && Size32(|data| + 5) <= txWords
    ensures |words| < 256 && Carries(Item(0, value, words), Framed(data))
    ensures ItemWords(|data| + 5) <= 255 ==>
      && |words| == ItemWords(|data| + 5) && value as nat == 4 * |words| - (|data| + 5)
      && Framed(data) <= ToBytes(words)
  {
    var buf := new byte[4 * txWords];
    var size := BuildUserSendData(buf, data);
    SizeLaw(size);
    var size32 := Size32(size);
    value := PadTag(size) as byte;
    words := ToWords(buf[..], size32);
    UnpackPack(buf[..], size32);
    assert buf[..][..4 * size32][..SentLength(size)] == buf[..size][..SentLength(size)];
    if ItemWords(size) <= 255 {
      CarriesWhole(Item(0, value, words), Framed(data));
    }
  }

  /** The bytes of an item without its padding: what the handler gives to uart_fifo_fill. An item of no
      words makes the length negative; nothing of it is taken as sent. */
  method Payload(item: Item, ghost payload: seq<byte>) returns (bytes: seq<byte>)
    requires Carries(item, payload)
    ensures bytes == Transmitted(payload)
  {
    SizeLaw(|payload|);
    var size := |item.words| * 4 - item.value as int;
    bytes := if size < 0 then [] else ToBytes(item.words)[..size];
  }

  lemma OneStep(cfg: Config, s: State, ev: Event)
    ensures Run(cfg, s, [ev]) == Step(cfg, s, ev)
    ensures Legal(cfg, s, [ev]) == Enabled(cfg, s, ev)
  {
    RunSnoc(cfg, s, [], ev);
    assert [] + [ev] == [ev];
  }

  lemma SendIgnoresPending(cfg: Config, s: State, data: seq<byte>)
    ensures SendStep(cfg, s, data).(pending := []) == SendStep(cfg, s.(pending := []), data)
  {
  }

  /** The three outcomes of the handler's ring_buf_item_get: -EAGAIN, -EMSGSIZE, an item. */
  datatype Taken = NothingThere | TooLong | Took(bytes: seq<byte>)

  class Driver {
    const txWords: nat
    const rxBuf: array<byte>
    var rxDataLen: nat
    var echo: bool                  // the callback: NULL or app_callback
    const txRb: ItemRingBuf
    var sendingGuard: bool
    var timer: Option<nat>          // sending_guard_timer: when it will fire
    var txIrq: bool                 // the UART's TX interrupt enable
    var now: nat                    // the kernel's clock
    ghost var queue: seq<seq<byte>>
    ghost var log: seq<Entry>
    ghost var history: seq<Event>   // all that has happened to the driver

    ghost function Cfg(): Config {
      Config(rxBuf.Length, txWords, txRb.ring.buffer.Length)
    }

    /** All but the receive buffer is in order: what user_send_data relies on when the handler calls it
        through the callback. */
    ghost predicate SenderValid()
      reads this, txRb, txRb.ring, txRb.ring.buffer
    {
      && Cfg().Allowed()
      && txRb.Valid()
      && AllCarry(txRb.items, queue)
    }

    /** And the receive buffer: what holds between any two steps of the handler. */
    ghost predicate Ready()
      reads this, rxBuf, txRb, txRb.ring, txRb.ring.buffer
    {
      && SenderValid()
      && rxDataLen < rxBuf.Length
      && (forall i :: rxDataLen <= i < rxBuf.Length ==> rxBuf[i] == 0)
    }

    /** What holds between calls: the driver is where its history, a legal one, has brought it. */
    ghost predicate Valid()
      reads this, rxBuf, txRb, txRb.ring, txRb.ring.buffer
    {
      && Ready()
      && Legal(Cfg(), INIT, history)
      && Abs() == Run(Cfg(), INIT, history)
    }

    /** The state of the driver as a value. */
    ghost function Abs(): State
      requires rxDataLen <= rxBuf.Length
      reads this, rxBuf
    {
      State(rxBuf[..rxDataLen], echo, queue, sendingGuard, timer, txIrq, now, log)
    }

    /** The driver as its static initialisers and init_my_uart_peripheral_b leave it. */
    constructor (rx: nat, txw: nat, ringWords: nat)
      requires Config(rx, txw, ringWords).Allowed()
      ensures Valid() && Cfg() == Config(rx, txw, ringWords) && Abs() == INIT && history == []
      ensures rxDataLen == 0 && !echo && !sendingGuard && timer == None && !txIrq && txRb.items == []
      ensures fresh(rxBuf) && fresh(txRb) && fresh(txRb.ring) && fresh(txRb.ring.buffer)
    {
      txWords := txw;
      rxBuf := new byte[rx](i => 0);
      rxDataLen, echo := 0, false;
      txRb := new ItemRingBuf(ringWords);
      sendingGuard, timer, txIrq, now := false, None, false, 0;
      queue, log, history := [], [], [];
    }

    /** The steps just taken become history. */
    ghost method Record(evs: seq<Event>)
      requires Ready() && Legal(Cfg(), INIT, history)
      requires Legal(Cfg(), Run(Cfg(), INIT, history), evs)
      requires Abs() == Run(Cfg(), Run(Cfg(), INIT, history), evs)
      modifies this`history
      ensures Valid() && history == old(history) + evs && Abs() == old(Abs())
    {
      RunAppend(Cfg(), INIT, history, evs);
      history := history + evs;
    }

    /** user_set_callback */
    method UserSetCallback(on: bool)
      requires Valid()
      modifies this`echo, this`history
      ensures Valid() && history == old(history) + [SetCallback(on)]
      ensures Abs() == Step(Cfg(), old(Abs()), SetCallback(on)) && echo == on
    {
      echo := on;
      OneStep(Cfg(), old(Abs()), SetCallback(on));
      Record([SetCallback(on)]);
    }

    /** Queue one item, when the ring has room for it. */
    method PutItem(data: seq<byte>) returns (ok: bool)
      requires SenderValid() && InBuffer(Cfg(), data)
      modifies this`queue, txRb, txRb.ring, txRb.ring.buffer
      ensures SenderValid()
      ensures ok == HasRoom(Cfg(), old(queue), Framed(data))
      ensures ok <==> old(txRb.ring.used) + 1 + ((|data| + 5) / 4 + 1) % 256 <= txRb.ring.buffer.Length
      ensures queue == if ok then old(queue) + [Framed(data)] else old(queue)
    {
      var value, words := BuildItem(txWords, data);
      RingUse(txRb.items, queue);
      ok := txRb.Put(0, value, words);
      if ok {
        queue := queue + [Framed(data)];
      }
    }

    /** user_send_data */
    method UserSendData(data: seq<byte>)
      requires SenderValid() && InBuffer(Cfg(), data) && rxDataLen <= rxBuf.Length
      modifies this`queue, this`txIrq, this`log, txRb, txRb.ring, txRb.ring.buffer
      ensures SenderValid() && Abs() == SendStep(Cfg(), old(Abs()), data)
      ensures var fits := old(txRb.ring.used) + 1 + ((|data| + 5) / 4 + 1) % 256 <= txRb.ring.buffer.Length;
        && log == old(log) + [if fits then Accepted(data) else Rejected(data)]
        && |queue| == |old(queue)| + (if fits then 1 else 0) && txIrq == (old(txIrq) || fits)
    {
      var ok := PutItem(data);
      if !ok {
        log := Append(log, Rejected(data));
        return;
      }
      log := Append(log, Accepted(data));
      txIrq := true;
    }

    /** The application calls send_data. */
    method SendData(data: seq<byte>)
      requires Valid() && Fits(Cfg(), data)
      modifies this`queue, this`txIrq, this`log, this`history, txRb, txRb.ring, txRb.ring.buffer
      ensures Valid() && history == old(history) + [Send(data)]
      ensures Abs() == Step(Cfg(), old(Abs()), Send(data))
    {
      UserSendData(data);
      OneStep(Cfg(), old(Abs()), Send(data));
      Record([Send(data)]);
    }

    /** sending_guard_timer_expired_function */
    method SendingGuardTimerExpired()
      requires Valid() && Enabled(Cfg(), Abs(), Expire)
      modifies this`sendingGuard, this`txIrq, this`timer, this`log, this`history
      ensures Valid() && history == old(history) + [Expire]
      ensures Abs() == Step(Cfg(), old(Abs()), Expire)
      ensures !sendingGuard && txIrq && timer == None
    {
      sendingGuard := false;
      txIrq := true;
      timer := None;
      log := Append(log, Expired(now));
      OneStep(Cfg(), old(Abs()), Expire);
      Record([Expire]);
    }

    method TimePasses(ms: nat)
      requires Valid()
      modifies this`now, this`history
      ensures Valid() && history == old(history) + [Tick(ms)]
      ensures Abs() == Step(Cfg(), old(Abs()), Tick(ms)) && now == old(now) + ms
    {
      now := now + ms;
      OneStep(Cfg(), old(Abs()), Tick(ms));
      Record([Tick(ms)]);
    }

    method ClearRxBuf()
      requires Cfg().Allowed()
      modifies this`rxDataLen, rxBuf
      ensures rxDataLen == 0 && forall i :: 0 <= i < rxBuf.Length ==> rxBuf[i] == 0
    {
      rxDataLen := 0;
      forall i | 0 <= i < rxBuf.Length {
        rxBuf[i] := 0;
      }
    }

    /** A terminator was found: release the guard on OK. */
    method ReleaseOnOk()
      requires rxDataLen <= rxBuf.Length
      modifies this`sendingGuard, this`txIrq, this`log
      ensures Abs().(pending := []) == TakeLine(old(Abs()), Abs().pending)
    {
      log := Append(log, Chunk(rxBuf[..rxDataLen]));
      var ok := CheckSendingGuard(rxBuf, rxDataLen);
      if ok {
        sendingGuard := false;
        txIrq := true;
      }
    }

    /** The callback, if there is one, offers the line for sending. */
    method CallBack()
      requires SenderValid() && rxDataLen <= rxBuf.Length
      requires echo ==> Fits(Cfg(), Abs().pending)
      modifies this`queue, this`txIrq, this`log, txRb, txRb.ring, txRb.ring.buffer
      ensures SenderValid()
      ensures Abs() == if echo then SendStep(Cfg(), old(Abs()), old(Abs()).pending) else old(Abs())
    {
      if echo {
        UserSendData(rxBuf[..rxDataLen]);
      }
    }

    /** Then call back and clear the buffer. */
    method LineComplete()
      requires SenderValid() && 0 < rxDataLen <= rxBuf.Length
      requires echo ==> Fits(Cfg(), Abs().pending)
      modifies this`rxDataLen, this`sendingGuard, this`txIrq, this`queue, this`log, rxBuf, txRb, txRb.ring, txRb.ring.buffer
      ensures Ready()
      ensures var line := old(Abs()).pending; var s1 := TakeLine(old(Abs()), line);
        Abs() == if echo then SendStep(Cfg(), s1, line) else s1
    {
      ReleaseOnOk();
      ghost var released := Abs();
      CallBack();
      SendIgnoresPending(Cfg(), released, released.pending);
      ClearRxBuf();
    }

    /** The body of the handler's inner loop, for one byte c read from the FIFO. */
    method ReceiveByte(c: byte)
      requires Ready() && Enabled(Cfg(), Abs(), Rx(c))
      modifies this`rxDataLen, this`sendingGuard, this`txIrq, this`queue, this`log, rxBuf, txRb, txRb.ring, txRb.ring.buffer
      ensures Ready() && Abs() == RxStep(Cfg(), old(Abs()), c)
      ensures sendingGuard == (old(sendingGuard) && !IsOk(old(Abs()).pending + [c]))
    {
      ghost var before := Abs();
      ghost var chunk := before.pending + [c];
      rxBuf[rxDataLen] := c;
      rxDataLen := rxDataLen + 1;
      assert Abs() == before.(pending := chunk);
      var capacity := rxBuf.Length - rxDataLen;
      if c == LF || c == CR {
        assert TakeLine(before.(pending := chunk), chunk) == TakeLine(before, chunk);
        LineComplete();
      } else if capacity == 0 {
        log := Append(log, Chunk(rxBuf[..rxDataLen]));
        ClearRxBuf();
      }
      GuardAfterByte(Cfg(), before, c);
    }

    /** ring_buf_item_get and the removal of the padding. */
    method TakeItem(max: byte) returns (r: Taken)
      requires SenderValid() && max as nat == MySize(Cfg())
      modifies this`queue, txRb, txRb.ring, txRb.ring.buffer
      ensures SenderValid()
      ensures r == if old(queue) == [] then NothingThere
                   else if Size32(|old(queue)[0]|) > max as nat then TooLong
                   else Took(Transmitted(old(queue)[0]))
      ensures queue == if r.Took? then old(queue)[1..] else old(queue)
    {
      var ret := txRb.Get(max as nat);
      match ret
      case TooBig(_) => r := TooLong;
      case Empty => r := NothingThere;
      case Got(item) =>
        var bytes := Payload(item, queue[0]);
        queue := queue[1..];
        r := Took(bytes);
    }

    /** uart_fifo_fill, the guard and its timer. */
    method Transmit(bytes: seq<byte>)
      requires SenderValid() && rxDataLen <= rxBuf.Length
      modifies this`sendingGuard, this`timer, this`log
      ensures SenderValid()
      ensures Abs() == old(Abs()).(guard := true, deadline := Some(now + GUARD_MS),
                                   log := Append(old(log), Sent(bytes, now)))
    {
      log := Append(log, Sent(bytes, now));
      sendingGuard := true;
      timer := Some(now + GUARD_MS);
    }

    /** The handler's transmit part. */
    method TransmitReady()
      requires SenderValid() && rxDataLen <= rxBuf.Length
      modifies this`sendingGuard, this`timer, this`txIrq, this`queue, this`log, txRb, txRb.ring, txRb.ring.buffer
      ensures SenderValid() && Abs() == TxStep(Cfg(), old(Abs()))
      ensures if !old(sendingGuard) && HeadFits(txWords, old(queue)) then
                && log == old(log) + [Sent(Transmitted(old(queue)[0]), now)] && queue == old(queue)[1..]
                && sendingGuard && timer == Some(now + 5000)
              else
                log == old(log) && queue == old(queue) && sendingGuard == old(sendingGuard) && !txIrq
    {
      if sendingGuard {
        txIrq := false;
      } else {
        var mySize := (txWords % 256) as byte;
        ghost var before := Abs();
        var ret := TakeItem(mySize);
        assert Abs() == before.(queue := queue);
        assert ret.Took? <==> before.queue != [] && Size32(|before.queue[0]|) <= MySize(Cfg());
        match ret
        case TooLong => txIrq := false;
        case NothingThere => txIrq := false;
        case Took(bytes) => Transmit(bytes);
      }
    }

    /** The handler's inner loop, with the steps that remain after it. */
    method ReceiveAll(rx: seq<byte>, ghost rest: seq<Event>)
      requires Ready() && Legal(Cfg(), Abs(), RxEvents(rx) + rest)
      modifies this`rxDataLen, this`sendingGuard, this`txIrq, this`queue, this`log, rxBuf, txRb, txRb.ring, txRb.ring.buffer
      ensures Ready() && Legal(Cfg(), Abs(), rest)
      ensures Run(Cfg(), Abs(), rest) == Run(Cfg(), old(Abs()), RxEvents(rx) + rest)
    {
      var j := 0;
      while j < |rx|
        invariant j <= |rx| && Ready()
        invariant Legal(Cfg(), Abs(), RxEvents(rx[j..]) + rest)
        invariant Run(Cfg(), Abs(), RxEvents(rx[j..]) + rest) == Run(Cfg(), old(Abs()), RxEvents(rx) + rest)
      {
        FirstRx(rx, j, rest);
        ReceiveByte(rx[j]);
        j := j + 1;
      }
      assert RxEvents(rx[j..]) + rest == rest;
    }

    /** One turn of the handler's outer loop. */
    method HandlePass(p: Pass, ghost after: seq<Event>)
      requires Ready() && Legal(Cfg(), Abs(), PassEvents(p, after))
      modifies this`rxDataLen, this`sendingGuard, this`timer, this`txIrq, this`queue, this`log,
               rxBuf, txRb, txRb.ring, txRb.ring.buffer
      ensures Ready() && Legal(Cfg(), Abs(), after)
      ensures Run(Cfg(), Abs(), after) == Run(Cfg(), old(Abs()), PassEvents(p, after))
    {
      ReceiveAll(p.rx, TxEvents(p.txReady) + after);
      if p.txReady {
        assert ([TxReady] + after)[1..] == after;
        TransmitReady();
      } else {
        assert [] + after == after;
      }
    }

    /** The handler's outer loop. */
    method HandlePasses(passes: seq<Pass>)
      requires Ready() && Legal(Cfg(), Abs(), HandlerEvents(passes))
      modifies this`rxDataLen, this`sendingGuard, this`timer, this`txIrq, this`queue, this`log,
               rxBuf, txRb, txRb.ring, txRb.ring.buffer
      ensures Ready() && Abs() == Run(Cfg(), old(Abs()), HandlerEvents(passes))
    {
      var i := 0;
      while i < |passes|
        invariant i <= |passes| && Ready()
        invariant Legal(Cfg(), Abs(), HandlerEvents(passes[i..]))
        invariant Run(Cfg(), Abs(), HandlerEvents(passes[i..])) == Run(Cfg(), old(Abs()), HandlerEvents(passes))
      {
        assert passes[i..][1..] == passes[i + 1..];
        HandlePass(passes[i], HandlerEvents(passes[i + 1..]));
        i := i + 1;
      }
    }

    /** uart_int_handler: the hardware decides how often the loops run. */
    method UartIntHandler(passes: seq<Pass>)
      requires Valid() && Legal(Cfg(), Abs(), HandlerEvents(passes))
      modifies this, rxBuf, txRb, txRb.ring, txRb.ring.buffer
      ensures Valid() && history == old(history) + HandlerEvents(passes)
      ensures Abs() == Run(Cfg(), old(Abs()), HandlerEvents(passes))
      ensures MaySend(Cfg(), old(Abs()), passes) ==> HeadSent(old(Abs()), Abs())
    {
      ghost var cfg, before, evs := Cfg(), Abs(), HandlerEvents(passes);
      HandlePasses(passes);
      Record(evs);
      assert Abs() == Run(cfg, before, evs);
      HandlerSends(cfg, before, passes);
    }
  }
}

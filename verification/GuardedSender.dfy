/** Driver B as a state machine over values: one step per atomic handler action. The class in
    UartDriverB.dfy is proved to take exactly these steps; what they guarantee over whole runs is
    proved in the modules that follow. */
module GuardedSender {
  import opened Bytes

  /** RX buffer bytes, TX buffer words, and words of the item ring. */
  datatype Config = Config(rx: nat, txw: nat, ringWords: nat) {
    /** The sizes Kconfig allows, zero left out. */
    predicate Allowed() {
      rx >= 1 && 1 <= txw <= 511 && ringWords >= 1
    }

    /** Those with which the driver's eight-bit word counts are right. */
    predicate Valid() {
      Allowed() && txw <= 255
    }
  }

  const GUARD_MS: nat := 5000
  const SEND_PREFIX: seq<byte> := [83, 69, 78, 68, 58]  // "SEND:"
  const OK_PREFIX: seq<byte> := [79, 75]                // "OK"

  /** What can be observed of the driver, in order. */
  datatype Entry =
    | Accepted(data: seq<byte>)          // user data queued
    | Rejected(data: seq<byte>)          // user data refused, no room in the ring
    | Sent(bytes: seq<byte>, at: nat)    // an item handed to the UART FIFO, and those bytes of its data
    | Chunk(chunk: seq<byte>)            // received bytes removed from the RX buffer
    | Expired(when: nat)                 // the guard timer fired

  datatype State = State(
    pending: seq<byte>,                  // rx_buf[..rx_data_len]
    echo: bool,                          // app_callback installed
    queue: seq<seq<byte>>,               // the framed data of the items in tx_rb
    guard: bool,                         // sending_guard
    deadline: Option<nat>,               // sending_guard_timer, when running
    txIrq: bool,                         // TX interrupt enabled
    now: nat,                            // kernel time in ms
    log: seq<Entry>)

  const INIT := State([], false, [], false, None, false, 0, [])

  datatype Event =
    | Send(data: seq<byte>)              // the application calls send_data
    | SetCallback(on: bool)
    | Rx(c: byte)                        // one byte read by the interrupt handler
    | TxReady                            // the handler finds the TX FIFO ready
    | Expire                             // the timer handler runs
    | Tick(ms: nat)                      // time passes

  function Framed(data: seq<byte>): seq<byte> {
    SEND_PREFIX + data
  }

  /** Words that n bytes of an item need: there is always at least one byte of padding. */
  function ItemWords(n: nat): nat {
    n / 4 + 1
  }

  /** The driver's uint8_t size32 and value: the words it queues for n bytes, and their padding. */
  function Size32(n: nat): (r: nat)
    ensures r <= 255
  {
    ItemWords(n) % 256
  }

  function PadTag(n: nat): (r: nat)
    ensures r <= 255
  {
    (Size32(n) * 4 - n) % 256
  }

  /** Truncation loses whole multiples of 256 words; the padding is right in any case. */
  lemma SizeLaw(n: nat)
    ensures PadTag(n) == 4 - n % 4
    ensures Size32(n) == ItemWords(n) - 256 * (ItemWords(n) / 256)
    ensures 4 * Size32(n) - PadTag(n) == n - 1024 * (ItemWords(n) / 256)
    ensures Size32(n) == ItemWords(n) <==> ItemWords(n) <= 255
  {
  }

  /** The length the handler computes for an item of n bytes: below zero, here cut to zero, when it was
      queued without any words. */
  function SentLength(n: nat): (r: nat)
    ensures r <= n
  {
    SizeLaw(n);
    if Size32(n) == 0 then 0 else 4 * Size32(n) - PadTag(n)
  }

  /** The bytes of an item that the handler hands to the UART. */
  function Transmitted(item: seq<byte>): (r: seq<byte>)
    ensures r <= item
  {
    item[..SentLength(|item|)]
  }

  /** An item goes out whole exactly if its word count fits eight bits. */
  lemma TransmittedWholeIff(item: seq<byte>)
    requires item != []
    ensures Transmitted(item) == item <==> ItemWords(|item|) <= 255
  {
    SizeLaw(|item|);
  }

  /** Ring words taken by the queued items, each with its one-word header. */
  function Used(queue: seq<seq<byte>>): nat {
    if queue == [] then 0 else 1 + Size32(|queue[0]|) + Used(queue[1..])
  }

  predicate HasRoom(cfg: Config, queue: seq<seq<byte>>, item: seq<byte>) {
    Used(queue) + 1 + Size32(|item|) <= cfg.ringWords
  }

  predicate BeginsWithOk(chunk: seq<byte>) {
    |chunk| >= 2 && chunk[..2] == OK_PREFIX
  }

  // ---- The steps ----

  function SendStep(cfg: Config, s: State, data: seq<byte>): State {
    var item := Framed(data);
    if !HasRoom(cfg, s.queue, item) then
      s.(log := Append(s.log, Rejected(data)))
    else
      s.(queue := s.queue + [item], txIrq := true, log := Append(s.log, Accepted(data)))
  }

  /** A terminated chunk leaves the buffer; one that begins with OK releases the guard. */
  function TakeLine(s: State, chunk: seq<byte>): State {
    var s1 := s.(pending := [], log := Append(s.log, Chunk(chunk)));
    if BeginsWithOk(chunk) then s1.(guard := false, txIrq := true) else s1
  }

  function RxStep(cfg: Config, s: State, c: byte): State {
    var chunk := s.pending + [c];
    if c in LINE_END then
      var s1 := TakeLine(s, chunk);
      if s1.echo then SendStep(cfg, s1, chunk) else s1
    else if |chunk| == cfg.rx then
      s.(pending := [], log := Append(s.log, Chunk(chunk)))
    else
      s.(pending := chunk)
  }

  /** The handler's uint8_t my_size: the words it is ready to take. */
  function MySize(cfg: Config): nat {
    cfg.txw % 256
  }

  function TxStep(cfg: Config, s: State): State {
    if s.guard || s.queue == [] || Size32(|s.queue[0]|) > MySize(cfg) then
      s.(txIrq := false)
    else
      s.(queue := s.queue[1..], guard := true, deadline := Some(s.now + GUARD_MS),
         log := Append(s.log, Sent(Transmitted(s.queue[0]), s.now)))
  }

  function Step(cfg: Config, s: State, ev: Event): State {
    match ev
    case Send(data) => SendStep(cfg, s, data)
    case SetCallback(on) => s.(echo := on)
    case Rx(c) => RxStep(cfg, s, c)
    case TxReady => TxStep(cfg, s)
    case Expire => s.(guard := false, txIrq := true, deadline := None, log := Append(s.log, Expired(s.now)))
    case Tick(ms) => s.(now := s.now + ms)
  }

  /** The length send_data asks of its caller. user_send_data copies into, and queues from, a buffer of
      txw words; the framed data and a byte of padding have to fit. */
  predicate Fits(cfg: Config, data: seq<byte>) {
    |data| + 5 < 4 * cfg.txw
  }

  /** What user_send_data can do without leaving that buffer: copy the framed data into it, and queue from
      it as many words as it counts. */
  predicate InBuffer(cfg: Config, data: seq<byte>) {
    |data| + 5 <= 4 * cfg.txw && Size32(|data| + 5) <= cfg.txw
  }

  /** When an event can happen: sends fit the buffer, also those of the echo callback, and the timer
      fires no earlier than its deadline. */
  predicate Enabled(cfg: Config, s: State, ev: Event) {
    match ev
    case Send(data) => Fits(cfg, data)
    case Rx(c) => c in LINE_END && s.echo ==> Fits(cfg, s.pending + [c])
    case Expire => s.deadline.Some? && s.deadline.value <= s.now
    case _ => true
  }

  predicate Legal(cfg: Config, s: State, evs: seq<Event>)
    decreases |evs|
  {
    evs == [] || (Enabled(cfg, s, evs[0]) && Legal(cfg, Step(cfg, s, evs[0]), evs[1..]))
  }

  function Run(cfg: Config, s: State, evs: seq<Event>): State
    decreases |evs|
  {
    if evs == [] then s else Run(cfg, Step(cfg, s, evs[0]), evs[1..])
  }

  lemma {:induction false} RunAppend(cfg: Config, s: State, a: seq<Event>, b: seq<Event>)
    ensures Run(cfg, s, a + b) == Run(cfg, Run(cfg, s, a), b)
    ensures Legal(cfg, s, a + b) <==> Legal(cfg, s, a) && Legal(cfg, Run(cfg, s, a), b)
    decreases |a|
  {
    if a == [] {
      assert a + b == b;
    } else {
      assert (a + b)[1..] == a[1..] + b;
      RunAppend(cfg, Step(cfg, s, a[0]), a[1..], b);
    }
  }

  lemma RunSnoc(cfg: Config, s: State, a: seq<Event>, ev: Event)
    ensures Run(cfg, s, a + [ev]) == Step(cfg, Run(cfg, s, a), ev)
    ensures Legal(cfg, s, a + [ev]) <==> Legal(cfg, s, a) && Enabled(cfg, Run(cfg, s, a), ev)
  {
    RunAppend(cfg, s, a, [ev]);
    assert [ev][1..] == [];
    var t := Run(cfg, s, a);
    assert Run(cfg, t, [ev]) == Run(cfg, Step(cfg, t, ev), []);
    assert Legal(cfg, t, [ev]) == (Enabled(cfg, t, ev) && Legal(cfg, Step(cfg, t, ev), []));
  }

  lemma {:induction false} UsedAppend(a: seq<seq<byte>>, b: seq<seq<byte>>)
    ensures Used(a + b) == Used(a) + Used(b)
    decreases |a|
  {
    if a == [] {
      assert a + b == b;
    } else {
      assert (a + b)[1..] == a[1..] + b;
      UsedAppend(a[1..], b);
    }
  }

  // ---- Reading the log ----

  function Wire(log: seq<Entry>): seq<seq<byte>> {
    if log == [] then [] else
    var n := |log| - 1;
    if log[n].Sent? then Wire(log[..n]) + [log[n].bytes] else Wire(log[..n])
  }

  function SentTimes(log: seq<Entry>): seq<nat> {
    if log == [] then [] else
    var n := |log| - 1;
    if log[n].Sent? then SentTimes(log[..n]) + [log[n].at] else SentTimes(log[..n])
  }

  lemma {:induction false} TimesMatchWire(log: seq<Entry>)
    ensures |Wire(log)| == |SentTimes(log)|
    decreases |log|
  {
    if log != [] {
      TimesMatchWire(log[..|log| - 1]);
    }
  }

  function AcceptedData(log: seq<Entry>): seq<seq<byte>> {
    if log == [] then [] else
    var n := |log| - 1;
    if log[n].Accepted? then AcceptedData(log[..n]) + [log[n].data] else AcceptedData(log[..n])
  }

  /** Everything the application asked to send, whether accepted or not. */
  function Offers(log: seq<Entry>): seq<seq<byte>> {
    if log == [] then [] else
    var n := |log| - 1;
    if log[n].Accepted? || log[n].Rejected? then Offers(log[..n]) + [log[n].data] else Offers(log[..n])
  }

  function Chunks(log: seq<Entry>): seq<seq<byte>> {
    if log == [] then [] else
    var n := |log| - 1;
    if log[n].Chunk? then Chunks(log[..n]) + [log[n].chunk] else Chunks(log[..n])
  }

  /** A chunk that ends in a line terminator, as opposed to a skipped full buffer. */
  predicate Terminated(chunk: seq<byte>) {
    chunk != [] && chunk[|chunk| - 1] in LINE_END
  }

  /** The log entry of a received line that begins with OK. */
  predicate IsOkLine(e: Entry) {
    e.Chunk? && Terminated(e.chunk) && OK_PREFIX <= e.chunk
  }

  function FramedAll(data: seq<seq<byte>>): (r: seq<seq<byte>>)
    ensures |r| == |data| && forall i :: 0 <= i < |r| ==> r[i] == Framed(data[i])
  {
    seq(|data|, i requires 0 <= i < |data| => Framed(data[i]))
  }

  function RxBytes(evs: seq<Event>): seq<byte> {
    if evs == [] then [] else
    (if evs[0].Rx? then [evs[0].c] else []) + RxBytes(evs[1..])
  }
}

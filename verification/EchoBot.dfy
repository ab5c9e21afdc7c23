/** The echo bot: an interrupt handler that reads lines into a fixed buffer and queues them, and a thread
    that prints each queued line back. */
module EchoBot {
  import opened Bytes
  import opened Chunking
  import opened EchoSegments
  import opened Ring

  /** MSG_SIZE and the depth of the message queue. */
  datatype Config = Config(msgSize: nat, depth: nat) {
    predicate Valid() {
      msgSize >= 2 && depth >= 1
    }
  }

  const ECHO_PREFIX: seq<byte> := [69, 99, 104, 111, 95, 120, 120, 120, 58, 32]  // "Echo_xxx: "

  /** The text the thread prints for one message. */
  function Reply(text: seq<byte>): seq<byte> {
    ECHO_PREFIX + text + [CR, LF]
  }

  datatype Entry = Queued(line: seq<byte>) | Dropped(line: seq<byte>) | Printed(text: seq<byte>)

  /** The bytes of the message being read, the texts queued, everything printed, and the history. */
  datatype State = State(segment: seq<byte>, queue: seq<seq<byte>>, out: seq<byte>, log: seq<Entry>)

  const INIT := State([], [], [], [])

  datatype Event = Rx(c: byte) | Print

  /** What fits the buffer beside the terminating NUL. */
  function Fit(cfg: Config, segment: seq<byte>): seq<byte>
    requires cfg.Valid()
  {
    segment[..Min(|segment|, cfg.msgSize - 1)]
  }

  function CompleteStep(cfg: Config, s: State): State
    requires cfg.Valid()
  {
    var line := Fit(cfg, s.segment);
    if |s.queue| < cfg.depth then
      s.(segment := [], queue := s.queue + [UpToNul(line)], log := Append(s.log, Queued(line)))
    else
      s.(segment := [], log := Append(s.log, Dropped(line)))
  }

  function RxStep(cfg: Config, s: State, c: byte): State
    requires cfg.Valid()
  {
    if c in LINE_END && s.segment != [] then
      CompleteStep(cfg, s)
    else
      s.(segment := s.segment + [c])
  }

  /** The thread waits while the queue is empty. */
  function PrintStep(s: State): State
    requires s.queue != []
  {
    s.(queue := s.queue[1..], out := s.out + Reply(s.queue[0]), log := Append(s.log, Printed(s.queue[0])))
  }

  function Step(cfg: Config, s: State, ev: Event): State
    requires cfg.Valid()
  {
    match ev
    case Rx(c) => RxStep(cfg, s, c)
    case Print => if s.queue == [] then s else PrintStep(s)
  }

  function Run(cfg: Config, s: State, evs: seq<Event>): State
    requires cfg.Valid()
    decreases |evs|
  {
    if evs == [] then s else Step(cfg, Run(cfg, s, evs[..|evs| - 1]), evs[|evs| - 1])
  }

  lemma RunSnoc(cfg: Config, s: State, evs: seq<Event>, ev: Event)
    requires cfg.Valid()
    ensures Run(cfg, s, evs + [ev]) == Step(cfg, Run(cfg, s, evs), ev)
  {
    assert (evs + [ev])[..|evs|] == evs;
  }

  // ---- Reading the history ----

  /** All lines completed, queued or dropped; those queued; the texts printed. */
  function Completed(log: seq<Entry>): seq<seq<byte>> {
    if log == [] then [] else
    var n := |log| - 1;
    if log[n].Printed? then Completed(log[..n]) else Completed(log[..n]) + [log[n].line]
  }

  function QueuedLines(log: seq<Entry>): seq<seq<byte>> {
    if log == [] then [] else
    var n := |log| - 1;
    if log[n].Queued? then QueuedLines(log[..n]) + [log[n].line] else QueuedLines(log[..n])
  }

  function PrintedTexts(log: seq<Entry>): seq<seq<byte>> {
    if log == [] then [] else
    var n := |log| - 1;
    if log[n].Printed? then PrintedTexts(log[..n]) + [log[n].text] else PrintedTexts(log[..n])
  }

  function Replies(texts: seq<seq<byte>>): (r: seq<seq<byte>>)
    ensures |r| == |texts|
    ensures forall i :: 0 <= i < |r| ==> r[i] == [69, 99, 104, 111, 95, 120, 120, 120, 58, 32] + texts[i] + [13, 10]
  {
    seq(|texts|, i requires 0 <= i < |texts| => Reply(texts[i]))
  }

  /** The message of each finished segment: without its terminator, cut to the buffer. */
  function Messages(cfg: Config, segments: seq<seq<byte>>): (r: seq<seq<byte>>)
    requires cfg.Valid()
    ensures |r| == |segments|
    ensures forall i :: 0 <= i < |r| && segments[i] != [] ==> r[i] == segments[i][..Min(|segments[i]| - 1, cfg.msgSize - 1)]
  {
    seq(|segments|, i requires 0 <= i < |segments| =>
      if segments[i] == [] then [] else segments[i][..Min(|segments[i]| - 1, cfg.msgSize - 1)])
  }

  function RxBytes(evs: seq<Event>): seq<byte> {
    if evs == [] then [] else
    var n := |evs| - 1;
    if evs[n].Rx? then RxBytes(evs[..n]) + [evs[n].c] else RxBytes(evs[..n])
  }

  /** What RxBytes is: a print step adds nothing to it, and the steps of some bytes read add just those. */
  lemma {:induction false} RxBytesAre(evs: seq<Event>, rx: seq<byte>)
    ensures RxBytes(evs + [Print]) == RxBytes(evs)
    ensures RxBytes(evs + RxEvents(rx)) == RxBytes(evs) + rx
    decreases |rx|
  {
    assert (evs + [Print])[..|evs|] == evs;
    if rx == [] {
      assert evs + RxEvents([]) == evs;
    } else {
      var n := |rx| - 1;
      RxBytesAre(evs, rx[..n]);
      var all := evs + RxEvents(rx);
      assert all[..|all| - 1] == evs + RxEvents(rx[..n]);
      assert RxBytes(all) == (RxBytes(evs) + rx[..n]) + [rx[n]];
    }
  }

  /** Lines queued and not yet printed. */
  function Backlog(log: seq<Entry>): int {
    |QueuedLines(log)| - |PrintedTexts(log)|
  }

  ghost predicate DropsOnlyWhenFull(cfg: Config, log: seq<Entry>) {
    forall i :: 0 <= i < |log| && !log[i].Printed? ==> (log[i].Queued? <==> Backlog(log[..i]) < cfg.depth)
  }

  // ---- Every run ----

  ghost predicate Faithful(cfg: Config, s: State, input: seq<byte>)
    requires cfg.Valid()
  {
    && Framer(Completed(s.log), s.segment) == Framer(Messages(cfg, Segments(input).done), Segments(input).pending)
    && PrintedTexts(s.log) + s.queue == CStrings(QueuedLines(s.log))
    && s.out == Concat(Replies(PrintedTexts(s.log)))
    && |s.queue| <= cfg.depth
    && DropsOnlyWhenFull(cfg, s.log)
  }

  lemma DropsAppend(cfg: Config, log: seq<Entry>, e: Entry)
    requires DropsOnlyWhenFull(cfg, log)
    requires !e.Printed? ==> (e.Queued? <==> Backlog(log) < cfg.depth)
    ensures DropsOnlyWhenFull(cfg, Append(log, e))
  {
    var r := Append(log, e);
    forall i | 0 <= i < |log|
      ensures r[..i] == log[..i]
    {
      assert r[..|log|][..i] == r[..i];
    }
  }

  lemma RxFaithful(cfg: Config, s: State, input: seq<byte>, c: byte)
    requires cfg.Valid() && Faithful(cfg, s, input)
    ensures Faithful(cfg, RxStep(cfg, s, c), input + [c])
  {
    SegmentsSnoc(input, c);
    if c in LINE_END && s.segment != [] {
      var line := Fit(cfg, s.segment);
      var f := Segments(input);
      var x := f.pending + [c];
      assert x[..|x| - 1] == s.segment;
      assert x[..Min(|x| - 1, cfg.msgSize - 1)] == line;
      assert Messages(cfg, f.done + [x]) == Messages(cfg, f.done) + [line];
      assert |PrintedTexts(s.log) + s.queue| == |QueuedLines(s.log)|;
      if |s.queue| < cfg.depth {
        DropsAppend(cfg, s.log, Queued(line));
        assert CStrings(QueuedLines(s.log) + [line]) == CStrings(QueuedLines(s.log)) + [UpToNul(line)];
        assert PrintedTexts(s.log) + (s.queue + [UpToNul(line)]) == (PrintedTexts(s.log) + s.queue) + [UpToNul(line)];
      } else {
        DropsAppend(cfg, s.log, Dropped(line));
      }
    }
  }

  lemma PrintFaithful(cfg: Config, s: State, input: seq<byte>)
    requires cfg.Valid() && Faithful(cfg, s, input) && s.queue != []
    ensures Faithful(cfg, PrintStep(s), input)
  {
    var text := s.queue[0];
    var texts := PrintedTexts(s.log);
    DropsAppend(cfg, s.log, Printed(text));
    assert (texts + [text]) + s.queue[1..] == texts + s.queue;
    assert Replies(texts + [text]) == Replies(texts) + [Reply(text)];
    ConcatSnoc(Replies(texts), Reply(text));
  }

  /** End to end, in every run: the lines completed are the messages of the input's segments, in order;
      one is dropped exactly when the queue is full; and the output is the replies, first come first
      served, to the queued lines, each up to its first NUL. */
  lemma {:induction false} EchoesInOrder(cfg: Config, evs: seq<Event>)
    requires cfg.Valid()
    ensures Faithful(cfg, Run(cfg, INIT, evs), RxBytes(evs))
    decreases |evs|
  {
    if evs != [] {
      var n := |evs| - 1;
      EchoesInOrder(cfg, evs[..n]);
      var s := Run(cfg, INIT, evs[..n]);
      match evs[n] {
        case Rx(c) => RxFaithful(cfg, s, RxBytes(evs[..n]), c);
        case Print =>
          if s.queue != [] {
            PrintFaithful(cfg, s, RxBytes(evs[..n]));
          }
      }
    }
  }

  // ---- The program ----

  /** A queued message is a whole buffer: the text counts up to the first NUL, whatever stale bytes of
      earlier lines follow it. */
  ghost predicate Holds(buffer: seq<byte>, text: seq<byte>) {
    UpToNul(buffer) == text && |text| < |buffer|
  }

  ghost predicate AllHold(buffers: seq<seq<byte>>, texts: seq<seq<byte>>) {
    |buffers| == |texts| && forall i :: 0 <= i < |buffers| ==> Holds(buffers[i], texts[i])
  }

  /** print_uart: the bytes polled out. */
  method PrintUart(buf: seq<byte>) returns (out: seq<byte>)
    requires |UpToNul(buf)| < |buf|
    ensures out == UpToNul(buf)
  {
    var msgLen := 0;
    while buf[msgLen] != NUL
      invariant msgLen <= |UpToNul(buf)|
      invariant forall k :: 0 <= k < msgLen ==> buf[k] != NUL
      decreases |buf| - msgLen
    {
      msgLen := msgLen + 1;
    }
    UpToNulUnique(buf, buf[..msgLen]);
    out := [];
    for i := 0 to msgLen
      invariant out == buf[..i]
    {
      out := out + [buf[i]];
    }
  }

  class Bot {
    const rxBuf: array<byte>
    var rxBufPos: nat
    const uartMsgq: RingBuf<seq<byte>>
    var out: seq<byte>              // everything polled out after the greeting
    ghost var segment: seq<byte>
    ghost var queue: seq<seq<byte>>
    ghost var log: seq<Entry>

    ghost function Cfg(): Config {
      Config(rxBuf.Length, uartMsgq.buffer.Length)
    }

    ghost predicate Valid()
      reads this, rxBuf, uartMsgq, uartMsgq.buffer
    {
      && Cfg().Valid()
      && uartMsgq.Valid()
      && rxBufPos == |Fit(Cfg(), segment)|
      && rxBuf[..rxBufPos] == Fit(Cfg(), segment)
      && AllHold(uartMsgq.contents, queue)
    }

    ghost function Abs(): State
      reads this
    {
      State(segment, queue, out, log)
    }

    constructor (msgSize: nat, depth: nat)
      requires Config(msgSize, depth).Valid()
      ensures Valid() && Cfg() == Config(msgSize, depth) && Abs() == INIT
      ensures fresh(rxBuf) && fresh(uartMsgq) && fresh(uartMsgq.buffer)
    {
      rxBuf := new byte[msgSize](i => 0);
      uartMsgq := new RingBuf(depth);
      rxBufPos, out, segment, queue, log := 0, [], [], [], [];
    }

    /** A line is complete: terminate it and queue the whole buffer, if the queue has room. */
    method LineComplete()
      requires Valid() && rxBufPos > 0
      modifies this`rxBufPos, this`segment, this`queue, this`log, rxBuf, uartMsgq, uartMsgq.buffer
      ensures Valid() && Abs() == CompleteStep(Cfg(), old(Abs()))
    {
      ghost var line := Fit(Cfg(), segment);
      rxBuf[rxBufPos] := NUL;
      assert rxBuf[..rxBufPos] == line;
      TextOfBuffer(rxBuf[..], line);
      var put := uartMsgq.Put([rxBuf[..]]);
      if put == 1 {
        assert uartMsgq.contents == old(uartMsgq.contents) + [rxBuf[..]];
        queue, log := queue + [UpToNul(line)], Append(log, Queued(line));
      } else {
        log := Append(log, Dropped(line));
      }
      rxBufPos, segment := 0, [];
    }

    /** The body of serial_cb's loop, for one byte c read from the FIFO. */
    method ReceiveByte(c: byte)
      requires Valid()
      modifies this`rxBufPos, this`segment, this`queue, this`log, rxBuf, uartMsgq, uartMsgq.buffer
      ensures Valid() && Abs() == RxStep(Cfg(), old(Abs()), c)
    {
      if (c == LF || c == CR) && rxBufPos > 0 {
        LineComplete();
      } else {
        if rxBufPos < rxBuf.Length - 1 {
          rxBuf[rxBufPos] := c;
          rxBufPos := rxBufPos + 1;
        }
        segment := segment + [c];
      }
    }

    /** serial_cb */
    method SerialCb(update: bool, rx: seq<byte>)
      requires Valid()
      modifies this`rxBufPos, this`segment, this`queue, this`log, rxBuf, uartMsgq, uartMsgq.buffer
      ensures Valid() && Abs() == Run(Cfg(), old(Abs()), if update then RxEvents(rx) else [])
    {
      if !update {
        return;
      }
      ghost var start := Abs();
      for i := 0 to |rx|
        invariant Valid() && Abs() == Run(Cfg(), start, RxEvents(rx[..i]))
      {
        ReceiveByte(rx[i]);
        RunSnoc(Cfg(), start, RxEvents(rx[..i]), Rx(rx[i]));
        assert RxEvents(rx[..i + 1]) == RxEvents(rx[..i]) + [Rx(rx[i])];
      }
      assert rx[..|rx|] == rx;
    }

    /** One turn of the thread's loop, once a message is there. */
    method EchoOne()
      requires Valid() && queue != []
      modifies this`out, this`queue, this`log, uartMsgq
      ensures Valid() && Abs() == PrintStep(old(Abs()))
      ensures out == old(out) + [69, 99, 104, 111, 95, 120, 120, 120, 58, 32] + old(queue)[0] + [13, 10]
      ensures queue == old(queue)[1..]
    {
      ghost var msgs, text := uartMsgq.contents, queue[0];
      var got := uartMsgq.Get(1);
      assert uartMsgq.contents == (got + uartMsgq.contents)[1..] == msgs[1..];
      var txBuf := got[0];
      assert txBuf == (got + uartMsgq.contents)[0] == msgs[0];
      var body := PrintUart(txBuf);
      out := out + ECHO_PREFIX + body + [CR, LF];
      assert out == old(out) + Reply(text);
      queue, log := queue[1..], Append(log, Printed(text));
    }
  }

  function RxEvents(rx: seq<byte>): (r: seq<Event>)
    ensures |r| == |rx| && forall i :: 0 <= i < |r| ==> r[i] == Rx(rx[i])
  {
    seq(|rx|, i requires 0 <= i < |rx| => Rx(rx[i]))
  }

  /** A NUL right after the line hides whatever the buffer holds behind it. */
  lemma TextOfBuffer(buffer: seq<byte>, line: seq<byte>)
    requires |line| < |buffer| && buffer[..|line|] == line && buffer[|line|] == NUL
    ensures Holds(buffer, UpToNul(line))
  {
    var u := UpToNul(line);
    assert u <= buffer;
    assert buffer[|u|] == NUL;
    UpToNulUnique(buffer, u);
  }
}

/** Bounded progress of driver B. Time is assumed to pass only when nothing is waiting to be served: no
    TX interrupt is enabled (the FIFO of an enabled one counts as ready) and no timer is due. */
module GuardedSenderProgress {
  import opened Bytes
  import opened GuardedSender
  import opened GuardedSenderSafety

  predicate Prompt(s: State, ev: Event) {
    ev.Tick? ==> !s.txIrq && (s.deadline.Some? ==> s.now + ev.ms <= s.deadline.value)
  }

  /** A legal run in which interrupts are served before time advances. */
  predicate PromptRun(cfg: Config, s: State, evs: seq<Event>)
    decreases |evs|
  {
    evs == [] || (Enabled(cfg, s, evs[0]) && Prompt(s, evs[0]) && PromptRun(cfg, Step(cfg, s, evs[0]), evs[1..]))
  }

  lemma {:induction false} PromptRunAppend(cfg: Config, s: State, a: seq<Event>, b: seq<Event>)
    requires PromptRun(cfg, s, a)
    ensures Legal(cfg, s, a)
    ensures PromptRun(cfg, s, a + b) <==> PromptRun(cfg, Run(cfg, s, a), b)
    decreases |a|
  {
    if a == [] {
      assert a + b == b;
    } else {
      assert (a + b)[1..] == a[1..] + b;
      PromptRunAppend(cfg, Step(cfg, s, a[0]), a[1..], b);
    }
  }

  /** What progress needs of a state. */
  ghost predicate Live(cfg: Config, s: State) {
    Sound(cfg, s) && Timely(s)
  }

  /** The guard and its timer: a running timer is at most 5000 ms ahead and never overdue. */
  predicate Timely(s: State) {
    && (s.guard ==> s.deadline.Some?)
    && (s.deadline.Some? ==> s.now <= s.deadline.value <= s.now + GUARD_MS)
  }

  lemma StepTimely(cfg: Config, s: State, ev: Event)
    requires Timely(s) && Prompt(s, ev)
    ensures Timely(Step(cfg, s, ev))
  {
    match ev
    case Rx(c) =>
      var t := RxStep(cfg, s, c);
      assert t.now == s.now && t.deadline == s.deadline && (t.guard ==> s.guard);
    case _ =>
  }

  lemma StepLive(cfg: Config, s: State, ev: Event)
    requires cfg.Valid() && Live(cfg, s) && Enabled(cfg, s, ev) && Prompt(s, ev)
    ensures Live(cfg, Step(cfg, s, ev))
  {
    StepSound(cfg, s, ev);
    StepTimely(cfg, s, ev);
  }

  lemma {:induction false} RunLive(cfg: Config, s: State, evs: seq<Event>)
    requires cfg.Valid() && Live(cfg, s) && PromptRun(cfg, s, evs)
    ensures Live(cfg, Run(cfg, s, evs))
    decreases |evs|
  {
    if evs != [] {
      StepLive(cfg, s, evs[0]);
      RunLive(cfg, Step(cfg, s, evs[0]), evs[1..]);
    }
  }

  // ---- The ranking ----

  /** The latest time at which the item with k items ahead of it can leave. */
  function DueBy(s: State, k: nat): nat {
    (if s.guard && s.deadline.Some? then s.deadline.value else s.now) + GUARD_MS * k
  }

  /** Item m of the accepted items: on the wire no later than t, or still queued and due by t. */
  ghost predicate OnTime(s: State, m: nat, t: nat) {
    && |Wire(s.log)| == |SentTimes(s.log)|
    && (if m < |Wire(s.log)| then SentTimes(s.log)[m] <= t
        else m - |Wire(s.log)| < |s.queue| && DueBy(s, m - |Wire(s.log)|) <= t)
  }

  lemma SendOnTime(cfg: Config, s: State, data: seq<byte>, m: nat, t: nat)
    requires OnTime(s, m, t)
    ensures OnTime(SendStep(cfg, s, data), m, t)
  {
  }

  /** A received byte can only bring an item forward: an OK releases the guard before its deadline. */
  lemma RxOnTime(cfg: Config, s: State, c: byte, m: nat, t: nat)
    requires Live(cfg, s) && OnTime(s, m, t)
    ensures OnTime(RxStep(cfg, s, c), m, t)
  {
    var chunk := s.pending + [c];
    var l := TakeLine(s, chunk);
    assert Wire(l.log) == Wire(s.log) && SentTimes(l.log) == SentTimes(s.log);
    if c in LINE_END {
      SendOnTime(cfg, l, chunk, m, t);
    }
  }

  lemma TxOnTime(cfg: Config, s: State, m: nat, t: nat)
    requires cfg.Valid() && Live(cfg, s) && OnTime(s, m, t)
    ensures OnTime(TxStep(cfg, s), m, t)
  {
  }

  lemma StepOnTime(cfg: Config, s: State, ev: Event, m: nat, t: nat)
    requires cfg.Valid() && Live(cfg, s) && Enabled(cfg, s, ev) && Prompt(s, ev)
    requires OnTime(s, m, t)
    ensures OnTime(Step(cfg, s, ev), m, t)
  {
    match ev
    case Send(data) => SendOnTime(cfg, s, data, m, t);
    case Rx(c) => RxOnTime(cfg, s, c, m, t);
    case TxReady => TxOnTime(cfg, s, m, t);
    case _ =>
  }

  lemma {:induction false} RunOnTime(cfg: Config, s: State, evs: seq<Event>, m: nat, t: nat)
    requires cfg.Valid() && Live(cfg, s) && PromptRun(cfg, s, evs)
    requires OnTime(s, m, t)
    ensures OnTime(Run(cfg, s, evs), m, t)
    decreases |evs|
  {
    if evs != [] {
      StepLive(cfg, s, evs[0]);
      StepOnTime(cfg, s, evs[0], m, t);
      RunOnTime(cfg, Step(cfg, s, evs[0]), evs[1..], m, t);
    }
  }

  /** The item at position k of the queue is item |Wire| + k of all the driver ever sends. */
  lemma QueuedItemIsSent(cfg: Config, s: State, after: seq<Event>, k: nat)
    requires cfg.Valid() && Sound(cfg, s) && Balanced(s) && k < |s.queue|
    ensures var t := Run(cfg, s, after); var m := |Wire(s.log)| + k;
      m < |Wire(t.log)| ==> Wire(t.log)[m] == s.queue[k]
  {
    var t := Run(cfg, s, after);
    var m := |Wire(s.log)| + k;
    RunBalanced(cfg, s, after);
    RunExtendsLog(cfg, s, after);
    LongerLog(s.log, t.log);
    QueuedItemIsWhole(cfg, s, k);
    SameItem(s, t, k);
  }

  lemma SameItem(s: State, t: State, k: nat)
    requires Balanced(s) && Balanced(t) && k < |s.queue| && AcceptedData(s.log) <= AcceptedData(t.log)
    ensures var m := |Wire(s.log)| + k; m < |Wire(t.log)| ==> Wire(t.log)[m] == Transmitted(s.queue[k])
  {
    var m := |Wire(s.log)| + k;
    if m < |Wire(t.log)| {
      var all, later := FramedAll(AcceptedData(s.log)), FramedAll(AcceptedData(t.log));
      assert s.queue[k] == all[m] == later[m];
    }
  }

  /** From s to t, the item with k items ahead of it in s leaves within ms, or that much time has not
      passed yet. */
  ghost predicate LeavesWithin(s: State, t: State, k: nat, ms: nat)
    requires k < |s.queue|
  {
    var m, due := |Wire(s.log)| + k, s.now + ms;
    if m < |Wire(t.log)| then
      |SentTimes(t.log)| == |Wire(t.log)| && Wire(t.log)[m] == s.queue[k] && SentTimes(t.log)[m] <= due
    else
      t.now <= due
  }

  lemma QueuedOnTime(cfg: Config, s: State, k: nat)
    requires Live(cfg, s) && k < |s.queue|
    ensures OnTime(s, |Wire(s.log)| + k, s.now + (k + 1) * GUARD_MS)
  {
    TimesMatchWire(s.log);
    assert DueBy(s, k) <= s.now + GUARD_MS + GUARD_MS * k;
  }

  lemma ProgressFrom(cfg: Config, s: State, after: seq<Event>, k: nat)
    requires cfg.Valid() && Live(cfg, s) && Balanced(s) && PromptRun(cfg, s, after) && k < |s.queue|
    ensures LeavesWithin(s, Run(cfg, s, after), k, (k + 1) * GUARD_MS)
  {
    var m, due := |Wire(s.log)| + k, s.now + (k + 1) * GUARD_MS;
    QueuedOnTime(cfg, s, k);
    RunOnTime(cfg, s, after, m, due);
    RunLive(cfg, s, after);
    QueuedItemIsSent(cfg, s, after, k);
  }

  /** The guard periods after which the item with k items ahead of it has left at the latest: its place
      in the queue, and never more than the number of items the ring can hold, as each takes at least
      three words. */
  ghost predicate LeavesInTime(cfg: Config, s: State, t: State, k: nat)
    requires k < |s.queue|
  {
    && LeavesWithin(s, t, k, (k + 1) * GUARD_MS)
    && LeavesWithin(s, t, k, cfg.ringWords / 3 * GUARD_MS)
  }

  ghost predicate AllLeaveInTime(cfg: Config, s: State, t: State) {
    forall k: nat :: k < |s.queue| ==> LeavesInTime(cfg, s, t, k)
  }

  lemma {:induction false} ThreeWordsEach(queue: seq<seq<byte>>)
    requires forall i :: 0 <= i < |queue| ==> 5 <= |queue[i]| && ItemWords(|queue[i]|) <= 255
    ensures 3 * |queue| <= Used(queue)
    decreases |queue|
  {
    if queue != [] {
      SizeLaw(|queue[0]|);
      ThreeWordsEach(queue[1..]);
    }
  }

  /** Bounded progress, whatever bytes and sends arrive: at every moment of a prompt run each queued item
      with k items ahead of it is at most (k + 1) * 5000 ms, and at most ringWords / 3 * 5000 ms, from
      being transmitted. */
  lemma BoundedProgress(cfg: Config, before: seq<Event>, after: seq<Event>)
    requires cfg.Valid() && PromptRun(cfg, INIT, before + after)
    ensures AllLeaveInTime(cfg, Run(cfg, INIT, before), Run(cfg, INIT, before + after))
  {
    var s := Run(cfg, INIT, before);
    PromptPrefix(cfg, INIT, before, after);
    PromptRunAppend(cfg, INIT, before, after);
    RunAppend(cfg, INIT, before, after);
    RunLive(cfg, INIT, before);
    RunBalanced(cfg, INIT, before);
    AllProgressFrom(cfg, s, after);
  }

  lemma AllProgressFrom(cfg: Config, s: State, after: seq<Event>)
    requires cfg.Valid() && Live(cfg, s) && Balanced(s) && PromptRun(cfg, s, after)
    ensures AllLeaveInTime(cfg, s, Run(cfg, s, after))
  {
    var t := Run(cfg, s, after);
    ThreeWordsEach(s.queue);
    forall k: nat | k < |s.queue|
      ensures LeavesInTime(cfg, s, t, k)
    {
      ProgressFrom(cfg, s, after, k);
      assert k + 1 <= cfg.ringWords / 3;
      LeavesWithinMore(s, t, k, k + 1, cfg.ringWords / 3);
    }
  }

  lemma LeavesWithinMore(s: State, t: State, k: nat, periods: nat, more: nat)
    requires k < |s.queue| && periods <= more && LeavesWithin(s, t, k, periods * GUARD_MS)
    ensures LeavesWithin(s, t, k, more * GUARD_MS)
  {
    assert periods * GUARD_MS <= more * GUARD_MS;
  }

  lemma {:induction false} PromptPrefix(cfg: Config, s: State, a: seq<Event>, b: seq<Event>)
    requires PromptRun(cfg, s, a + b)
    ensures PromptRun(cfg, s, a)
    decreases |a|
  {
    if a != [] {
      assert (a + b)[1..] == a[1..] + b;
      PromptPrefix(cfg, Step(cfg, s, a[0]), a[1..], b);
    }
  }

  // ---- Nothing blocks: the queue can always be drained ----

  /** What happens next when nothing but the driver and its timer acts. */
  function Next(s: State): Event {
    if !s.guard || s.deadline == None then TxReady
    else if s.deadline.value <= s.now then Expire
    else if s.txIrq then TxReady
    else Tick(s.deadline.value - s.now)
  }

  function Phase(s: State): nat {
    if !s.guard || s.deadline == None then 0
    else if s.deadline.value <= s.now then 1
    else if s.txIrq then 3
    else 2
  }

  /** The handler's transmit part runs only while the TX interrupt is on. */
  predicate Served(cfg: Config, s: State, evs: seq<Event>)
    decreases |evs|
  {
    evs == [] || ((evs[0].TxReady? ==> s.txIrq) && Served(cfg, Step(cfg, s, evs[0]), evs[1..]))
  }

  /** The driver and its timer, left alone, take these steps; then every queued item is sent, in order,
      the last one no later than 5000 ms per item from now. Nothing is transmitted but by a TX interrupt
      that is on, and time is never held up by one. */
  ghost predicate Empties(cfg: Config, s: State, evs: seq<Event>) {
    var t := Run(cfg, s, evs);
    && PromptRun(cfg, s, evs)
    && Served(cfg, s, evs)
    && (forall i :: 0 <= i < |evs| ==> evs[i].TxReady? || evs[i].Expire? || evs[i].Tick?)
    && t.queue == [] && Wire(t.log) == Wire(s.log) + s.queue
    && t.now <= s.now + GUARD_MS * |s.queue|
  }

  lemma NextMoves(cfg: Config, s: State)
    requires cfg.Valid() && Live(cfg, s) && s.queue != []
    ensures var t := Step(cfg, s, Next(s)); Wire(t.log) + t.queue == Wire(s.log) + s.queue
  {
    QueuedItemIsWhole(cfg, s, 0);
    LedgerAppend(s.log, Sent(s.queue[0], s.now));
    LedgerAppend(s.log, Expired(s.now));
  }

  lemma Drain(cfg: Config, s: State) returns (evs: seq<Event>)
    requires cfg.Valid() && Live(cfg, s)
    ensures Empties(cfg, s, evs)
    ensures s.queue != [] ==> Run(cfg, s, evs).now <= DueBy(s, |s.queue| - 1)
    decreases |s.queue|, Phase(s)
  {
    if s.queue == [] {
      evs := [];
    } else {
      var ev := Next(s);
      var s1 := Step(cfg, s, ev);
      StepLive(cfg, s, ev);
      NextMoves(cfg, s);
      QueuedItemIsWhole(cfg, s, 0);
      var rest := Drain(cfg, s1);
      evs := [ev] + rest;
      assert evs[1..] == rest;
    }
  }

  /** Nothing blocks: from every promptly reached state the driver alone can empty its queue in time. */
  lemma DrainSendsAll(cfg: Config, before: seq<Event>)
    requires cfg.Valid() && PromptRun(cfg, INIT, before)
    ensures exists evs :: Empties(cfg, Run(cfg, INIT, before), evs)
  {
    RunLive(cfg, INIT, before);
    var evs := Drain(cfg, Run(cfg, INIT, before));
  }
}

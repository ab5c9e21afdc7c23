/** Driver A's protocol as functions: NUL-terminated strings on the wire, fragments of at most cap bytes
    at the receiver, and how strings, fragments and counters relate. */
module NulStrings {
  import opened Bytes
  import opened Chunking

  const NUL_END: set<byte> := {NUL}

  /** One invocation of the string callback. */
  datatype Call = Call(data: seq<byte>, isString: bool)

  function CallOf(chunk: seq<byte>): Call {
    Call(chunk, chunk != [] && chunk[|chunk| - 1] == NUL)
  }

  function CallsOf(chunks: seq<seq<byte>>): (r: seq<Call>)
    ensures |r| == |chunks| && forall i :: 0 <= i < |r| ==> r[i] == CallOf(chunks[i])
  {
    seq(|chunks|, i requires 0 <= i < |chunks| => CallOf(chunks[i]))
  }

  /** What the receiver's application sees when the bytes arrive at a fresh driver. */
  function Received(cap: nat, input: seq<byte>): seq<Call> {
    CallsOf(Feed(NUL_END, cap, EMPTY, input).done)
  }

  function Ended(msgs: seq<seq<byte>>): (r: seq<seq<byte>>)
    ensures |r| == |msgs| && forall i :: 0 <= i < |r| ==> r[i] == msgs[i] + [NUL]
  {
    seq(|msgs|, i requires 0 <= i < |msgs| => msgs[i] + [NUL])
  }

  /** The bytes of some strings on the wire. */
  function OnWire(msgs: seq<seq<byte>>): seq<byte> {
    Concat(Ended(msgs))
  }

  ghost predicate AllFree(msgs: seq<seq<byte>>) {
    forall i :: 0 <= i < |msgs| ==> Free(NUL_END, msgs[i])
  }

  lemma OnWireSnoc(msgs: seq<seq<byte>>, m: seq<byte>)
    ensures OnWire(msgs + [m]) == OnWire(msgs) + m + [NUL]
  {
    assert Ended(msgs + [m]) == Ended(msgs) + [m + [NUL]];
    ConcatSnoc(Ended(msgs), m + [NUL]);
  }

  /** A stream has only one reading as NUL-terminated strings and an unfinished rest. */
  lemma ReadingUnique(a: seq<seq<byte>>, x: seq<byte>, b: seq<seq<byte>>, y: seq<byte>)
    requires AllFree(a) && AllFree(b) && Free(NUL_END, x) && Free(NUL_END, y)
    requires OnWire(a) + x == OnWire(b) + y
    ensures a == b && x == y
  {
    var input := OnWire(a) + x;
    ReadingIsChunking(a, x);
    ReadingIsChunking(b, y);
    ChunkingUnique(NUL_END, |input| + 1, Framer(Ended(a), x), Framer(Ended(b), y), input);
    forall i | 0 <= i < |a|
      ensures a[i] == b[i]
    {
      assert Ended(a)[i][..|a[i]|] == a[i] && Ended(b)[i][..|b[i]|] == b[i];
    }
  }

  lemma ReadingIsChunking(a: seq<seq<byte>>, x: seq<byte>)
    requires AllFree(a) && Free(NUL_END, x)
    ensures IsChunking(NUL_END, |OnWire(a) + x| + 1, Framer(Ended(a), x), OnWire(a) + x)
  {
    var cap := |OnWire(a) + x| + 1;
    forall i | 0 <= i < |a|
      ensures IsChunk(NUL_END, cap, Ended(a)[i])
    {
      var e := Ended(a)[i];
      assert e[..|e| - 1] == a[i];
      PartLength(Ended(a), i);
    }
  }

  lemma {:induction false} PartLength(parts: seq<seq<byte>>, i: nat)
    requires i < |parts|
    ensures |parts[i]| <= |Concat(parts)|
  {
    if i > 0 {
      PartLength(parts[1..], i - 1);
    }
  }

  /** Every stream has such a reading. */
  lemma {:induction false} Reading(input: seq<byte>) returns (msgs: seq<seq<byte>>, rest: seq<byte>)
    ensures AllFree(msgs) && Free(NUL_END, rest) && OnWire(msgs) + rest == input
  {
    if input == [] {
      msgs, rest := [], [];
    } else {
      var n := |input| - 1;
      var m, r := Reading(input[..n]);
      if input[n] == NUL {
        msgs, rest := m + [r], [];
        OnWireSnoc(m, r);
        assert OnWire(msgs) + [] == (OnWire(m) + r) + [NUL] == input;
      } else {
        msgs, rest := m, r + [input[n]];
        assert OnWire(m) + rest == (OnWire(m) + r) + [input[n]] == input;
      }
    }
  }

  // ---- Putting fragments together ----

  datatype Glued = Glued(strings: seq<seq<byte>>, rest: seq<byte>)

  /** Collect fragments up to each string call and drop its NUL. */
  function Glue(calls: seq<Call>): Glued {
    if calls == [] then Glued([], []) else
    var n := |calls| - 1;
    var g := Glue(calls[..n]);
    if calls[n].isString && calls[n].data != [] then
      Glued(g.strings + [g.rest + calls[n].data[..|calls[n].data| - 1]], [])
    else
      Glued(g.strings, g.rest + calls[n].data)
  }

  /** One more chunk, glued to what was put together so far. */
  lemma GlueOneMore(cap: nat, p: Glued, c: seq<byte>, g: Glued)
    requires AllFree(p.strings) && Free(NUL_END, p.rest) && IsChunk(NUL_END, cap, c)
    requires g == if c[|c| - 1] == NUL then Glued(p.strings + [p.rest + c[..|c| - 1]], []) else Glued(p.strings, p.rest + c)
    ensures AllFree(g.strings) && Free(NUL_END, g.rest)
    ensures OnWire(g.strings) + g.rest == OnWire(p.strings) + p.rest + c
  {
    var body := c[..|c| - 1];
    assert c == body + [c[|c| - 1]];
    if c[|c| - 1] == NUL {
      OnWireSnoc(p.strings, p.rest + body);
      assert OnWire(g.strings) + [] == (OnWire(p.strings) + p.rest) + c;
    } else {
      assert OnWire(g.strings) + g.rest == (OnWire(p.strings) + p.rest) + c;
    }
  }

  lemma {:induction false} GlueReads(cap: nat, chunks: seq<seq<byte>>)
    requires forall i :: 0 <= i < |chunks| ==> IsChunk(NUL_END, cap, chunks[i])
    ensures var g := Glue(CallsOf(chunks));
      AllFree(g.strings) && Free(NUL_END, g.rest) && OnWire(g.strings) + g.rest == Concat(chunks)
  {
    if chunks != [] {
      var n := |chunks| - 1;
      GlueReads(cap, chunks[..n]);
      assert CallsOf(chunks)[..n] == CallsOf(chunks[..n]);
      GlueOneMore(cap, Glue(CallsOf(chunks[..n])), chunks[n], Glue(CallsOf(chunks)));
      assert chunks == chunks[..n] + [chunks[n]];
      ConcatSnoc(chunks[..n], chunks[n]);
    }
  }

  /** Transmit and reassemble: whatever the receiver's buffer size, gluing its fragments gives back the
      strings set and transmitted, each up to its first NUL; so it gives back exactly the strings set
      if and only if none of them contains a NUL. */
  lemma RoundTrip(cap: nat, strings: seq<seq<byte>>)
    requires cap > 0
    ensures var g := Glue(Received(cap, OnWire(CStrings(strings))));
      && g == Glued(CStrings(strings), [])
      && (g.strings == strings <==> AllFree(strings))
    ensures Feed(NUL_END, cap, EMPTY, OnWire(CStrings(strings))).pending == []
  {
    var msgs := CStrings(strings);
    var input := OnWire(msgs);
    var f := Feed(NUL_END, cap, EMPTY, input);
    FeedIsChunking(NUL_END, cap, input);
    GlueReads(cap, f.done);
    var g := Glue(CallsOf(f.done));
    assert OnWire(g.strings) + (g.rest + f.pending) == (OnWire(g.strings) + g.rest) + f.pending == input;
    assert OnWire(msgs) + [] == input;
    ReadingUnique(g.strings, g.rest + f.pending, msgs, []);
    assert g.rest == [] && f.pending == [];
    forall i | 0 <= i < |strings|
      ensures msgs[i] == strings[i] <==> Free(NUL_END, strings[i])
    {
      if Free(NUL_END, strings[i]) {
        UpToNulUnique(strings[i], strings[i]);
      }
    }
  }

  // ---- Counters ----

  function StringCalls(calls: seq<Call>): nat {
    if calls == [] then 0 else StringCalls(calls[..|calls| - 1]) + if calls[|calls| - 1].isString then 1 else 0
  }

  function NulCount(s: seq<byte>): nat {
    if s == [] then 0 else NulCount(s[..|s| - 1]) + if s[|s| - 1] == NUL then 1 else 0
  }

  function FullBlocks(cap: nat, msgs: seq<seq<byte>>): nat
    requires cap > 0
  {
    if msgs == [] then 0 else FullBlocks(cap, msgs[..|msgs| - 1]) + |msgs[|msgs| - 1]| / cap
  }

  lemma {:induction false} StringCallsAppend(a: seq<Call>, b: seq<Call>)
    ensures StringCalls(a + b) == StringCalls(a) + StringCalls(b)
    decreases |b|
  {
    if b == [] {
      assert a + b == a;
    } else {
      StringCallsAppend(a, b[..|b| - 1]);
      assert (a + b)[..|a + b| - 1] == a + b[..|b| - 1];
    }
  }

  /** What the application has seen: all its calls and its two counters. */
  datatype View = View(calls: seq<Call>, strings: int, overflows: int)

  /** The view once these chunks, too, were delivered to the callback. */
  function Deliver(v: View, chunks: seq<seq<byte>>): View {
    var calls := CallsOf(chunks);
    View(v.calls + calls, v.strings + StringCalls(calls), v.overflows + |calls| - StringCalls(calls))
  }

  lemma CallsOfAppend(a: seq<seq<byte>>, b: seq<seq<byte>>)
    ensures CallsOf(a + b) == CallsOf(a) + CallsOf(b)
  {
  }

  lemma CallsAssoc(x: seq<Call>, y: seq<Call>, z: seq<Call>)
    ensures x + (y + z) == (x + y) + z
  {
  }

  lemma DeliverAppend(v: View, a: seq<seq<byte>>, b: seq<seq<byte>>)
    ensures Deliver(Deliver(v, a), b) == Deliver(v, a + b)
  {
    CallsOfAppend(a, b);
    StringCallsAppend(CallsOf(a), CallsOf(b));
    CallsAssoc(v.calls, CallsOf(a), CallsOf(b));
  }

  lemma DeliverOneMore(cap: nat, v: View, f: Framer, c: byte)
    ensures var one, next := FeedByte(NUL_END, cap, Framer([], f.pending), c), FeedByte(NUL_END, cap, f, c);
      next.pending == one.pending && Deliver(Deliver(v, f.done), one.done) == Deliver(v, next.done)
  {
    var one, next := FeedByte(NUL_END, cap, Framer([], f.pending), c), FeedByte(NUL_END, cap, f, c);
    assert next.done == f.done + one.done;
    DeliverAppend(v, f.done, one.done);
  }

  lemma {:induction false} NoStringCalls(calls: seq<Call>)
    requires forall i :: 0 <= i < |calls| ==> !calls[i].isString
    ensures StringCalls(calls) == 0
    decreases |calls|
  {
    if calls != [] {
      NoStringCalls(calls[..|calls| - 1]);
    }
  }

  /** The last |m| mod cap bytes of m. */
  function Tail(cap: nat, m: seq<byte>): (r: seq<byte>)
    requires cap > 0
    ensures |r| == |m| % cap
  {
    BlocksShape(cap, m);
    m[|m| - |m| % cap..]
  }

  /** Counters after NUL-free messages, each ended by a NUL, and an unfinished one: the number of NULs,
      and the sum of floor(length / cap) over all messages, the unfinished one included. */
  lemma {:induction false} CountersClosedForm(cap: nat, msgs: seq<seq<byte>>, rest: seq<byte>)
    requires cap > 0 && AllFree(msgs) && Free(NUL_END, rest)
    ensures var f := Feed(NUL_END, cap, EMPTY, OnWire(msgs) + rest);
      && StringCalls(CallsOf(f.done)) == |msgs| == NulCount(OnWire(msgs) + rest)
      && |f.done| - StringCalls(CallsOf(f.done)) == FullBlocks(cap, msgs) + |rest| / cap
      && f.pending == Tail(cap, rest)
    decreases |msgs|
  {
    var stream := OnWire(msgs);
    if msgs == [] {
      assert stream + rest == rest;
      CountUnfinished(cap, rest);
    } else {
      var n := |msgs| - 1;
      var m, shorter := msgs[n], OnWire(msgs[..n]);
      CountersClosedForm(cap, msgs[..n], []);
      assert shorter + [] == shorter;
      DivUnique(0, cap, 0, 0);
      CountMessage(cap, shorter, m);
      assert msgs[..n] + [m] == msgs;
      OnWireSnoc(msgs[..n], m);
      assert stream == shorter + (m + [NUL]);
      CountRest(cap, stream, rest);
    }
  }

  /** The stream is these NUL-terminated messages and this rest, and a fresh receiver with buffer size
      cap counts and keeps accordingly. */
  ghost predicate CountsAs(cap: nat, input: seq<byte>, msgs: seq<seq<byte>>, rest: seq<byte>)
    requires cap > 0
  {
    var f := Feed(NUL_END, cap, EMPTY, input);
    var v := Deliver(View([], 0, 0), f.done);
    && AllFree(msgs) && Free(NUL_END, rest) && OnWire(msgs) + rest == input
    && v.strings == |msgs| == NulCount(input)
    && v.overflows == FullBlocks(cap, msgs) + |rest| / cap
    && f.pending == Tail(cap, rest)
  }

  /** The counters after any received stream; by ReadingUnique its messages and rest are the only ones. */
  lemma CountersOfEveryStream(cap: nat, input: seq<byte>)
    requires cap > 0
    ensures exists msgs, rest :: CountsAs(cap, input, msgs, rest)
  {
    var msgs, rest := Reading(input);
    CountersClosedForm(cap, msgs, rest);
    assert CountsAs(cap, input, msgs, rest);
  }

  lemma WholeStringsCounted(cap: nat, msgs: seq<seq<byte>>)
    requires cap > 0 && AllFree(msgs)
    ensures StringCalls(Received(cap, OnWire(msgs))) == |msgs|
  {
    CountersClosedForm(cap, msgs, []);
    assert OnWire(msgs) + [] == OnWire(msgs);
  }

  /** What a fresh receiver's application has seen once all strings arrived. */
  lemma ReceivedStrings(cap: nat, seen: View, strings: seq<seq<byte>>)
    requires cap > 0 && seen.calls == []
    ensures var f := Feed(NUL_END, cap, EMPTY, OnWire(CStrings(strings))); var v := Deliver(seen, f.done);
      f.pending == [] && Glue(v.calls) == Glued(CStrings(strings), []) && v.strings == seen.strings + |strings|
  {
    RoundTrip(cap, strings);
    WholeStringsCounted(cap, CStrings(strings));
    var calls := Received(cap, OnWire(CStrings(strings)));
    assert [] + calls == calls;
  }

  lemma {:induction false} NulCountAppend(a: seq<byte>, b: seq<byte>)
    ensures NulCount(a + b) == NulCount(a) + NulCount(b)
    decreases |b|
  {
    if b == [] {
      assert a + b == a;
    } else {
      NulCountAppend(a, b[..|b| - 1]);
      assert (a + b)[..|a + b| - 1] == a + b[..|b| - 1];
    }
  }

  lemma {:induction false} NulCountFree(s: seq<byte>)
    requires Free(NUL_END, s)
    ensures NulCount(s) == 0
    decreases |s|
  {
    if s != [] {
      NulCountFree(s[..|s| - 1]);
    }
  }

  lemma CountUnfinished(cap: nat, rest: seq<byte>)
    requires cap > 0 && Free(NUL_END, rest)
    ensures var f := Feed(NUL_END, cap, EMPTY, rest);
      && StringCalls(CallsOf(f.done)) == 0 == NulCount(rest)
      && |f.done| == |rest| / cap
      && f.pending == Tail(cap, rest)
  {
    FeedFreeMessage(NUL_END, cap, rest);
    BlocksShape(cap, rest);
    var b := Blocks(cap, rest);
    assert b.pending == rest[|rest| - |rest| % cap..] == Tail(cap, rest);
    FreeConcat(NUL_END, b.done, b.pending);
    NoStringCalls(CallsOf(b.done));
    NulCountFree(rest);
  }

  lemma MessageCalls(cap: nat, m: seq<byte>)
    requires cap > 0 && Free(NUL_END, m)
    ensures var h := Feed(NUL_END, cap, EMPTY, m + [NUL]);
      h.pending == [] && |h.done| == |m| / cap + 1 && StringCalls(CallsOf(h.done)) == 1
  {
    FeedMessage(NUL_END, cap, m, NUL);
    var h := Feed(NUL_END, cap, EMPTY, m + [NUL]);
    var k := |m| / cap;
    var calls := CallsOf(h.done);
    assert forall i :: 0 <= i < k ==> h.done[i][|h.done[i]| - 1] != NUL;
    NoStringCalls(calls[..k]);
  }

  /** A stream that ends between messages, continued: the framers of the two parts add up. */
  lemma FeedResumes(cap: nat, stream: seq<byte>, more: seq<byte>)
    requires cap > 0 && Feed(NUL_END, cap, EMPTY, stream).pending == []
    ensures var f, h, g := Feed(NUL_END, cap, EMPTY, stream), Feed(NUL_END, cap, EMPTY, more), Feed(NUL_END, cap, EMPTY, stream + more);
      && g == Framer(f.done + h.done, h.pending)
      && StringCalls(CallsOf(g.done)) == StringCalls(CallsOf(f.done)) + StringCalls(CallsOf(h.done))
  {
    var f, h := Feed(NUL_END, cap, EMPTY, stream), Feed(NUL_END, cap, EMPTY, more);
    FeedAppend(NUL_END, cap, EMPTY, stream, more);
    FeedKeepsDone(NUL_END, cap, f, more);
    assert CallsOf(f.done + h.done) == CallsOf(f.done) + CallsOf(h.done);
    StringCallsAppend(CallsOf(f.done), CallsOf(h.done));
  }

  lemma NulCountMessage(m: seq<byte>)
    requires Free(NUL_END, m)
    ensures NulCount(m + [NUL]) == 1
  {
    NulCountFree(m);
    assert (m + [NUL])[..|m|] == m;
  }

  /** After a stream that ends between messages, one more message. */
  lemma CountMessage(cap: nat, stream: seq<byte>, m: seq<byte>)
    requires cap > 0 && Free(NUL_END, m) && Feed(NUL_END, cap, EMPTY, stream).pending == []
    ensures var f, g := Feed(NUL_END, cap, EMPTY, stream), Feed(NUL_END, cap, EMPTY, stream + (m + [NUL]));
      && g.pending == []
      && |g.done| == |f.done| + |m| / cap + 1
      && StringCalls(CallsOf(g.done)) == StringCalls(CallsOf(f.done)) + 1
      && NulCount(stream + (m + [NUL])) == NulCount(stream) + 1
  {
    FeedResumes(cap, stream, m + [NUL]);
    MessageCalls(cap, m);
    NulCountAppend(stream, m + [NUL]);
    NulCountMessage(m);
  }

  lemma CountRest(cap: nat, stream: seq<byte>, rest: seq<byte>)
    requires cap > 0 && Free(NUL_END, rest) && Feed(NUL_END, cap, EMPTY, stream).pending == []
    ensures var f, g := Feed(NUL_END, cap, EMPTY, stream), Feed(NUL_END, cap, EMPTY, stream + rest);
      && g.pending == Tail(cap, rest)
      && |g.done| == |f.done| + |rest| / cap
      && StringCalls(CallsOf(g.done)) == StringCalls(CallsOf(f.done))
      && NulCount(stream + rest) == NulCount(stream)
  {
    FeedResumes(cap, stream, rest);
    CountUnfinished(cap, rest);
    NulCountAppend(stream, rest);
  }
}

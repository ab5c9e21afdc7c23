/** The framing rule shared by both UART drivers: bytes pile up in a buffer of cap bytes; a
    terminator ends a chunk (and belongs to it), and so does a buffer that becomes full. The two
    drivers differ only in the terminators and in what they do with a full, unterminated chunk. */
module Chunking {
  import opened Bytes

  datatype Framer = Framer(done: seq<seq<byte>>, pending: seq<byte>)

  const EMPTY := Framer([], [])

  /** One received byte. */
  function FeedByte(term: set<byte>, cap: nat, f: Framer, c: byte): Framer {
    var chunk := f.pending + [c];
    if c in term || |chunk| == cap then
      Framer(f.done + [chunk], [])
    else
      f.(pending := chunk)
  }

  /** A whole stream of received bytes. */
  function Feed(term: set<byte>, cap: nat, f: Framer, input: seq<byte>): Framer
    decreases |input|
  {
    if input == [] then f
    else Feed(term, cap, FeedByte(term, cap, f, input[0]), input[1..])
  }

  lemma {:induction false} FeedAppend(term: set<byte>, cap: nat, f: Framer, a: seq<byte>, b: seq<byte>)
    ensures Feed(term, cap, f, a + b) == Feed(term, cap, Feed(term, cap, f, a), b)
    decreases |a|
  {
    if a == [] {
      assert a + b == b;
    } else {
      assert (a + b)[1..] == a[1..] + b;
      FeedAppend(term, cap, FeedByte(term, cap, f, a[0]), a[1..], b);
    }
  }

  lemma FeedSnoc(term: set<byte>, cap: nat, f: Framer, a: seq<byte>, c: byte)
    ensures Feed(term, cap, f, a + [c]) == FeedByte(term, cap, Feed(term, cap, f, a), c)
  {
    FeedAppend(term, cap, f, a, [c]);
    assert [c][1..] == [];
    assert Feed(term, cap, Feed(term, cap, f, a), [c])
        == Feed(term, cap, FeedByte(term, cap, Feed(term, cap, f, a), c), []);
  }

  /** Framing never looks at finished chunks. */
  lemma {:induction false} FeedKeepsDone(term: set<byte>, cap: nat, f: Framer, input: seq<byte>)
    ensures Feed(term, cap, f, input)
         == var g := Feed(term, cap, Framer([], f.pending), input); Framer(f.done + g.done, g.pending)
    decreases |input|
  {
    if input == [] {
      assert f.done + [] == f.done;
    } else {
      var f1 := FeedByte(term, cap, f, input[0]);
      var e1 := FeedByte(term, cap, Framer([], f.pending), input[0]);
      FeedKeepsDone(term, cap, f1, input[1..]);
      FeedKeepsDone(term, cap, e1, input[1..]);
      assert f1.pending == e1.pending && f1.done == f.done + e1.done;
      var g := Feed(term, cap, Framer([], f1.pending), input[1..]);
      assert (f.done + e1.done) + g.done == f.done + (e1.done + g.done);
    }
  }

  // ---- What framing means, without reference to the machine ----

  /** A finished chunk: no terminator before its last byte, and either terminated or full. */
  ghost predicate IsChunk(term: set<byte>, cap: nat, c: seq<byte>) {
    && 0 < |c| <= cap
    && Free(term, c[..|c| - 1])
    && (c[|c| - 1] in term || |c| == cap)
  }

  /** f cuts the input into finished chunks and an unfinished remainder. */
  ghost predicate IsChunking(term: set<byte>, cap: nat, f: Framer, input: seq<byte>) {
    && Concat(f.done) + f.pending == input
    && (forall i :: 0 <= i < |f.done| ==> IsChunk(term, cap, f.done[i]))
    && |f.pending| < cap
    && Free(term, f.pending)
  }

  lemma FeedByteIsChunking(term: set<byte>, cap: nat, f: Framer, input: seq<byte>, c: byte)
    requires IsChunking(term, cap, f, input)
    ensures IsChunking(term, cap, FeedByte(term, cap, f, c), input + [c])
  {
    var chunk := f.pending + [c];
    assert chunk[..|chunk| - 1] == f.pending;
    ConcatSnoc(f.done, chunk);
    assert input + [c] == Concat(f.done) + chunk;
    if c in term || |chunk| == cap {
      assert Concat(f.done + [chunk]) + [] == input + [c];
    }
  }

  /** The machine cuts every stream as the rule says. */
  lemma {:induction false} FeedIsChunking(term: set<byte>, cap: nat, input: seq<byte>)
    requires cap > 0
    ensures IsChunking(term, cap, Feed(term, cap, EMPTY, input), input)
  {
    if input != [] {
      var n := |input| - 1;
      FeedIsChunking(term, cap, input[..n]);
      FeedSnoc(term, cap, EMPTY, input[..n], input[n]);
      assert input[..n] + [input[n]] == input;
      FeedByteIsChunking(term, cap, Feed(term, cap, EMPTY, input[..n]), input[..n], input[n]);
    }
  }

  lemma FirstChunkAgrees(term: set<byte>, cap: nat, c: seq<byte>, d: seq<byte>, input: seq<byte>)
    requires IsChunk(term, cap, c) && IsChunk(term, cap, d) && c <= input && d <= input
    ensures c == d
  {
    assert forall i :: 0 <= i < |c| - 1 ==> input[i] == c[..|c| - 1][i] && input[i] !in term;
    assert forall i :: 0 <= i < |d| - 1 ==> input[i] == d[..|d| - 1][i] && input[i] !in term;
    assert input[|c| - 1] == c[|c| - 1] && input[|d| - 1] == d[|d| - 1];
    assert c == input[..|c|] && d == input[..|d|];
  }

  /** A stream with a finished chunk is too long, or has a terminator, to be all pending. */
  lemma ChunkInside(term: set<byte>, cap: nat, f: Framer, input: seq<byte>)
    requires IsChunking(term, cap, f, input) && f.done != []
    ensures |input| >= cap || !Free(term, input)
  {
    var c := f.done[0];
    assert c <= input;
    assert input[|c| - 1] == c[|c| - 1];
  }

  /** There is only one way to cut a stream by the rule. */
  lemma {:induction false} ChunkingUnique(term: set<byte>, cap: nat, f: Framer, g: Framer, input: seq<byte>)
    requires IsChunking(term, cap, f, input) && IsChunking(term, cap, g, input)
    ensures f == g
    decreases |f.done|
  {
    if f.done != [] {
      ChunkInside(term, cap, f, input);
    }
    if g.done != [] {
      ChunkInside(term, cap, g, input);
    }
    if f.done == [] || g.done == [] {
      assert f.done == [] ==> f.pending == input;
      assert g.done == [] ==> g.pending == input;
    } else {
      assert f.done[0] <= input && g.done[0] <= input;
      FirstChunkAgrees(term, cap, f.done[0], g.done[0], input);
      var rest := input[|f.done[0]|..];
      assert Concat(f.done[1..]) + f.pending == rest;
      assert Concat(g.done[1..]) + g.pending == rest;
      ChunkingUnique(term, cap, Framer(f.done[1..], f.pending), Framer(g.done[1..], g.pending), rest);
      assert f.done == [f.done[0]] + f.done[1..] && g.done == [g.done[0]] + g.done[1..];
    }
  }

  /** The machine is the rule: f is what the machine computes exactly when f cuts the input by the rule. */
  lemma FeedCharacterised(term: set<byte>, cap: nat, f: Framer, input: seq<byte>)
    requires cap > 0
    ensures f == Feed(term, cap, EMPTY, input) <==> IsChunking(term, cap, f, input)
  {
    FeedIsChunking(term, cap, input);
    if IsChunking(term, cap, f, input) {
      ChunkingUnique(term, cap, f, Feed(term, cap, EMPTY, input), input);
    }
  }

  // ---- Closed form for one message ----

  /** m cut into its full blocks of cap bytes and the shorter rest. */
  function Blocks(cap: nat, m: seq<byte>): (r: Framer)
    requires cap > 0
    decreases |m|
  {
    if |m| < cap then Framer([], m)
    else var r := Blocks(cap, m[cap..]); Framer([m[..cap]] + r.done, r.pending)
  }

  lemma {:induction false} BlocksShape(cap: nat, m: seq<byte>)
    requires cap > 0
    ensures var b := Blocks(cap, m);
      && |b.done| == |m| / cap && |b.pending| == |m| % cap
      && (forall i :: 0 <= i < |b.done| ==> |b.done[i]| == cap)
      && Concat(b.done) + b.pending == m
    decreases |m|
  {
    if |m| < cap {
      DivUnique(|m|, cap, 0, |m|);
    } else {
      BlocksShape(cap, m[cap..]);
      DivStep(|m|, cap);
      var b, r := Blocks(cap, m), Blocks(cap, m[cap..]);
      assert b.done[1..] == r.done;
      assert m[..cap] + Concat(r.done) + r.pending == m[..cap] + (Concat(r.done) + r.pending);
      assert m == m[..cap] + m[cap..];
    }
  }

  lemma DivStep(n: nat, cap: nat)
    requires 0 < cap <= n
    ensures n / cap == 1 + (n - cap) / cap && n % cap == (n - cap) % cap
  {
    var q, r := (n - cap) / cap, (n - cap) % cap;
    assert n == cap * (q + 1) + r;
    DivUnique(n, cap, q + 1, r);
  }

  lemma MulGrows(cap: int, d: int)
    requires cap >= 0
    ensures d >= 1 ==> cap * d >= cap
    ensures d <= -1 ==> cap * d <= -cap
  {
    if d >= 1 {
      assert cap * d == cap * (d - 1) + cap;
    } else if d <= -1 {
      assert cap * d == cap * (d + 1) - cap;
    }
  }

  lemma DivUnique(n: nat, cap: nat, q: nat, r: nat)
    requires cap > 0 && n == cap * q + r && r < cap
    ensures n / cap == q && n % cap == r
  {
    var d := n / cap - q;
    assert cap * d == r - n % cap;
    MulGrows(cap, d);
  }

  lemma FreeParts(term: set<byte>, a: seq<byte>, b: seq<byte>)
    requires Free(term, a + b)
    ensures Free(term, a) && Free(term, b)
  {
    forall i | 0 <= i < |a| ensures a[i] !in term {
      assert (a + b)[i] == a[i];
    }
    forall i | 0 <= i < |b| ensures b[i] !in term {
      assert (a + b)[|a| + i] == b[i];
    }
  }

  lemma {:induction false} FreeConcat(term: set<byte>, parts: seq<seq<byte>>, rest: seq<byte>)
    requires Free(term, Concat(parts) + rest)
    ensures forall i :: 0 <= i < |parts| ==> Free(term, parts[i])
    ensures Free(term, rest)
    decreases |parts|
  {
    if parts == [] {
      assert Concat(parts) + rest == rest;
    } else {
      var tail := Concat(parts[1..]) + rest;
      assert Concat(parts) + rest == parts[0] + tail;
      FreeParts(term, parts[0], tail);
      FreeConcat(term, parts[1..], rest);
      assert forall i :: 0 < i < |parts| ==> parts[i] == parts[1..][i - 1];
    }
  }

  /** L terminator-free bytes leave floor(L / cap) full blocks and the last L mod cap bytes. */
  lemma FeedFreeMessage(term: set<byte>, cap: nat, m: seq<byte>)
    requires cap > 0 && Free(term, m)
    ensures Feed(term, cap, EMPTY, m) == Blocks(cap, m)
  {
    var b := Blocks(cap, m);
    BlocksShape(cap, m);
    FreeConcat(term, b.done, b.pending);
    assert forall i :: 0 <= i < |b.done| ==> IsChunk(term, cap, b.done[i]);
    FeedCharacterised(term, cap, b, m);
  }

  /** L terminator-free bytes and a terminator t: floor(L / cap) full blocks without terminator, then
      one terminated chunk, the last L mod cap bytes and t; nothing stays pending. */
  lemma FeedMessage(term: set<byte>, cap: nat, m: seq<byte>, t: byte)
    requires cap > 0 && Free(term, m) && t in term
    ensures var f := Feed(term, cap, EMPTY, m + [t]);
      && f.pending == []
      && |f.done| == |m| / cap + 1
      && (forall i :: 0 <= i < |m| / cap ==> |f.done[i]| == cap && Free(term, f.done[i]))
      && f.done[|m| / cap] == m[|m| - |m| % cap..] + [t]
  {
    FeedFreeMessage(term, cap, m);
    FeedSnoc(term, cap, EMPTY, m, t);
    BlocksShape(cap, m);
    var b := Blocks(cap, m);
    FreeConcat(term, b.done, b.pending);
    assert b.pending == m[|m| - |m| % cap..];
  }
}

/** How the echo bot cuts its input: a terminator ends a message only if the message has a byte already;
    one that arrives first is taken as that first byte. */
module EchoSegments {
  import opened Bytes
  import opened Chunking

  function SegByte(f: Framer, c: byte): Framer {
    if c in LINE_END && f.pending != [] then
      Framer(f.done + [f.pending + [c]], [])
    else
      f.(pending := f.pending + [c])
  }

  function Segments(input: seq<byte>): Framer {
    if input == [] then EMPTY else SegByte(Segments(input[..|input| - 1]), input[|input| - 1])
  }

  lemma SegmentsSnoc(input: seq<byte>, c: byte)
    ensures Segments(input + [c]) == SegByte(Segments(input), c)
  {
    assert (input + [c])[..|input|] == input;
  }

  /** Any byte, then bytes that are no terminators, then a terminator. */
  ghost predicate IsSegment(x: seq<byte>) {
    |x| >= 2 && x[|x| - 1] in LINE_END && Free(LINE_END, x[1..|x| - 1])
  }

  ghost predicate IsSegmentation(f: Framer, input: seq<byte>) {
    && Concat(f.done) + f.pending == input
    && (forall i :: 0 <= i < |f.done| ==> IsSegment(f.done[i]))
    && (f.pending != [] ==> Free(LINE_END, f.pending[1..]))
  }

  lemma SegByteKeeps(f: Framer, input: seq<byte>, c: byte)
    requires IsSegmentation(f, input)
    ensures IsSegmentation(SegByte(f, c), input + [c])
  {
    var x := f.pending + [c];
    assert input + [c] == Concat(f.done) + x;
    if c in LINE_END && f.pending != [] {
      assert x[1..|x| - 1] == f.pending[1..];
      ConcatSnoc(f.done, x);
      assert Concat(f.done + [x]) + [] == input + [c];
    } else if f.pending != [] {
      assert x[1..] == f.pending[1..] + [c];
    }
  }

  lemma {:induction false} SegmentsAreSegmentation(input: seq<byte>)
    ensures IsSegmentation(Segments(input), input)
  {
    if input != [] {
      var n := |input| - 1;
      SegmentsAreSegmentation(input[..n]);
      SegByteKeeps(Segments(input[..n]), input[..n], input[n]);
      assert input[..n] + [input[n]] == input;
    }
  }

  lemma FirstSegmentAgrees(c: seq<byte>, d: seq<byte>, input: seq<byte>)
    requires IsSegment(c) && IsSegment(d) && c <= input && d <= input
    ensures c == d
  {
    assert forall i :: 1 <= i < |c| - 1 ==> input[i] == c[1..|c| - 1][i - 1] && input[i] !in LINE_END;
    assert forall i :: 1 <= i < |d| - 1 ==> input[i] == d[1..|d| - 1][i - 1] && input[i] !in LINE_END;
    assert input[|c| - 1] == c[|c| - 1] && input[|d| - 1] == d[|d| - 1];
    assert c == input[..|c|] && d == input[..|d|];
  }

  /** A stream with a finished segment has a terminator behind its first byte. */
  lemma SegmentInside(f: Framer, input: seq<byte>)
    requires IsSegmentation(f, input) && f.done != []
    ensures input != [] && !Free(LINE_END, input[1..])
  {
    var c := f.done[0];
    assert c <= input;
    assert input[1..][|c| - 2] == c[|c| - 1];
  }

  lemma {:induction false} SegmentationUnique(f: Framer, g: Framer, input: seq<byte>)
    requires IsSegmentation(f, input) && IsSegmentation(g, input)
    ensures f == g
    decreases |f.done|
  {
    if f.done != [] {
      SegmentInside(f, input);
    }
    if g.done != [] {
      SegmentInside(g, input);
    }
    if f.done == [] || g.done == [] {
      assert f.done == [] ==> f.pending == input;
      assert g.done == [] ==> g.pending == input;
    } else {
      assert f.done[0] <= input && g.done[0] <= input;
      FirstSegmentAgrees(f.done[0], g.done[0], input);
      var rest := input[|f.done[0]|..];
      assert Concat(f.done[1..]) + f.pending == rest;
      assert Concat(g.done[1..]) + g.pending == rest;
      SegmentationUnique(Framer(f.done[1..], f.pending), Framer(g.done[1..], g.pending), rest);
      assert f.done == [f.done[0]] + f.done[1..] && g.done == [g.done[0]] + g.done[1..];
    }
  }

  /** The bot's cut of a stream is the only one into (any byte)(no terminators)*(terminator) segments and
      an unfinished rest. */
  lemma SegmentsCharacterised(f: Framer, input: seq<byte>)
    ensures f == Segments(input) <==> IsSegmentation(f, input)
  {
    SegmentsAreSegmentation(input);
    if IsSegmentation(f, input) {
      SegmentationUnique(f, Segments(input), input);
    }
  }

  // ---- Against the lines of the stream ----

  /** The stream cut into lines, each with its terminator; empty lines included. */
  function PlainLines(input: seq<byte>): Framer {
    Feed(LINE_END, |input| + 1, EMPTY, input)
  }

  /** No terminator comes first or directly after another. */
  predicate NoEmptyLine(input: seq<byte>) {
    forall i :: 0 <= i < |input| && input[i] in LINE_END ==> i > 0 && input[i - 1] !in LINE_END
  }

  lemma {:induction false} PlainPending(cap: nat, input: seq<byte>)
    requires |input| < cap
    ensures var f := Feed(LINE_END, cap, EMPTY, input);
      && |f.pending| <= |input|
      && (f.pending == [] <==> input == [] || input[|input| - 1] in LINE_END)
  {
    if input != [] {
      var n := |input| - 1;
      PlainPending(cap, input[..n]);
      FeedSnoc(LINE_END, cap, EMPTY, input[..n], input[n]);
      assert input[..n] + [input[n]] == input;
    }
  }

  ghost predicate HasEmptyLine(f: Framer) {
    exists i :: 0 <= i < |f.done| && |f.done[i]| == 1
  }

  lemma {:induction false} SameWhileNoEmptyLine(cap: nat, input: seq<byte>)
    requires |input| < cap
    ensures var p := Feed(LINE_END, cap, EMPTY, input);
      if NoEmptyLine(input) then p == Segments(input) else HasEmptyLine(p)
  {
    if input != [] {
      var n := |input| - 1;
      var init := input[..n];
      SameWhileNoEmptyLine(cap, init);
      PlainPending(cap, init);
      FeedSnoc(LINE_END, cap, EMPTY, init, input[n]);
      assert init + [input[n]] == input;
      var p, q := Feed(LINE_END, cap, EMPTY, init), Feed(LINE_END, cap, EMPTY, input);
      if !NoEmptyLine(init) {
        var i :| 0 <= i < |p.done| && |p.done[i]| == 1;
        assert q.done[i] == p.done[i];
      } else if !NoEmptyLine(input) {
        assert input[n] in LINE_END && (n == 0 || init[n - 1] in LINE_END);
        assert |q.done[|p.done|]| == 1;
      }
    }
  }

  /** The bot's messages are the lines of its input exactly when the input has no empty line. (A CRLF
      line end leaves one: its LF comes directly after a terminator.) */
  lemma MessagesAreLinesIff(input: seq<byte>)
    ensures Segments(input).done == PlainLines(input).done <==> NoEmptyLine(input)
  {
    SameWhileNoEmptyLine(|input| + 1, input);
    SegmentsAreSegmentation(input);
  }

  /** With CRLF line ends the second message starts with the stray LF. */
  lemma CrLfLeaksIntoNextMessage()
    ensures Segments([97, CR, LF, 98, CR]) == Framer([[97, CR], [LF, 98, CR]], [])
  {
    var f := Framer([[97, CR], [LF, 98, CR]], []);
    assert f.done[1..] == [[LF, 98, CR]] && f.done[1..][1..] == [];
    assert Concat(f.done) == [97, CR] + ([LF, 98, CR] + Concat([]));
    assert f.done[1][1..2] == [98];
    SegmentsCharacterised(f, [97, CR, LF, 98, CR]);
  }
}

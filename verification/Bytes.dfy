/** Bytes, the few byte constants the sources spell out, C strings, and histories as growing sequences. */
module Bytes {

  newtype byte = x: int | 0 <= x < 256

  datatype Option<+T> = None | Some(value: T)

  const NUL: byte := 0
  const LF: byte := 10
  const CR: byte := 13

  /** The two line terminators the UART code looks for. */
  const LINE_END: set<byte> := {LF, CR}

  function Min(a: nat, b: nat): (r: nat)
    ensures r <= a && r <= b && (r == a || r == b)
  {
    if a <= b then a else b
  }

  /** True when no byte of s is in term. */
  predicate Free(term: set<byte>, s: seq<byte>) {
    forall i :: 0 <= i < |s| ==> s[i] !in term
  }

  /** What a C program sees of a NUL-terminated buffer: the bytes before the first NUL. */
  function UpToNul(s: seq<byte>): (r: seq<byte>)
    ensures r <= s
    ensures Free({NUL}, r)
    ensures |r| < |s| ==> s[|r|] == NUL
  {
    if s == [] || s[0] == NUL then [] else [s[0]] + UpToNul(s[1..])
  }

  /** The three facts above determine the result: nothing else is a C string of the buffer. */
  lemma UpToNulUnique(s: seq<byte>, r: seq<byte>)
    requires r <= s && Free({NUL}, r)
    requires |r| < |s| ==> s[|r|] == NUL
    ensures r == UpToNul(s)
  {
    var u := UpToNul(s);
    assert forall i :: 0 <= i < |u| ==> s[i] != NUL;
    assert forall i :: 0 <= i < |r| ==> s[i] != NUL;
  }

  function CStrings(strings: seq<seq<byte>>): (r: seq<seq<byte>>)
    ensures |r| == |strings| && forall i :: 0 <= i < |r| ==> r[i] == UpToNul(strings[i])
  {
    seq(|strings|, i requires 0 <= i < |strings| => UpToNul(strings[i]))
  }

  /** A history with one more entry. */
  function Append<T>(log: seq<T>, e: T): (r: seq<T>)
    ensures |r| == |log| + 1 && r[..|log|] == log && r[|log|] == e
  {
    log + [e]
  }

  /** Concatenation of a list of byte strings. */
  function Concat(parts: seq<seq<byte>>): seq<byte> {
    if parts == [] then [] else parts[0] + Concat(parts[1..])
  }

  lemma {:induction false} ConcatAppend(a: seq<seq<byte>>, b: seq<seq<byte>>)
    ensures Concat(a + b) == Concat(a) + Concat(b)
  {
    if a == [] {
      assert a + b == b;
    } else {
      ConcatAppend(a[1..], b);
      assert (a + b)[1..] == a[1..] + b;
      assert Concat(a + b) == a[0] + (Concat(a[1..]) + Concat(b));
    }
  }

  lemma ConcatSnoc(a: seq<seq<byte>>, x: seq<byte>)
    ensures Concat(a + [x]) == Concat(a) + x
  {
    ConcatAppend(a, [x]);
    assert Concat([x]) == x + Concat([]);
  }
}

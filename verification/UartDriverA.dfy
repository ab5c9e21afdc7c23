/** Driver A itself, with its string buffer and receive buffer updated in place, and the application's
    counters behind its callback. */
module UartDriverA {
  import opened Bytes
  import opened Chunking
  import opened NulStrings

  /** struct counter; C's int is taken as unbounded. */
  class Tracker {
    var strings: nat
    var overflows: nat

    constructor ()
      ensures strings == 0 && overflows == 0
    {
      strings, overflows := 0, 0;
    }

    /** peripheral_callback */
    method PeripheralCallback(call: Call)
      modifies this
      ensures strings == old(strings) + StringCalls([call])
      ensures overflows == old(overflows) + 1 - StringCalls([call])
      ensures strings == old(strings) + (if call.isString then 1 else 0)
      ensures overflows == old(overflows) + (if call.isString then 0 else 1)
    {
      assert [call][..0] == [];
      assert StringCalls([call]) == StringCalls([]) + if call.isString then 1 else 0;
      if call.isString {
        strings := strings + 1;
      } else {
        overflows := overflows + 1;
      }
    }
  }

  class Driver {
    const str: array<byte>
    const rxBuf: array<byte>
    var rxDataLen: nat
    var callback: Tracker?          // NULL or peripheral_callback with its user data
    ghost var calls: seq<Call>      // all invocations of the callback so far

    ghost predicate Valid()
      reads this, str, rxBuf
    {
      && str != rxBuf
      && (exists i :: 0 <= i < str.Length && str[i] == NUL)
      && rxDataLen < rxBuf.Length
      && (forall i :: rxDataLen <= i < rxBuf.Length ==> rxBuf[i] == NUL)
    }

    /** The string that a transmission sends. */
    ghost function Current(): seq<byte>
      reads this, str
    {
      UpToNul(str[..])
    }

    ghost function Pending(): seq<byte>
      requires rxDataLen <= rxBuf.Length
      reads this, rxBuf
    {
      rxBuf[..rxDataLen]
    }

    /** What the installed application has seen. */
    ghost function Seen(): View
      requires callback != null
      reads this, callback
    {
      View(calls, callback.strings, callback.overflows)
    }

    constructor (maxStrLen: nat, rx: nat)
      requires rx >= 1
      ensures Valid() && Current() == [] && Pending() == [] && calls == [] && callback == null
      ensures str.Length == maxStrLen + 1 && rxBuf.Length == rx && fresh(str) && fresh(rxBuf)
    {
      str := new byte[maxStrLen + 1](i => 0);
      rxBuf := new byte[rx](i => 0);
      rxDataLen, callback, calls := 0, null, [];
      new;
      assert str[0] == NUL;
    }

    /** user_set_string: bytes of a longer earlier string stay behind the terminator. */
    method UserSetString(data: seq<byte>)
      requires Valid() && |data| < str.Length
      modifies str
      ensures Valid() && Current() == UpToNul(data)
      ensures str[|data| + 1..] == old(str[|data| + 1..])
    {
      forall i | 0 <= i < |data| {
        str[i] := data[i];
      }
      str[|data|] := NUL;
      var u := UpToNul(data);
      assert u <= str[..] by {
        assert str[..][..|data|] == data;
      }
      UpToNulUnique(str[..], u);
    }

    method UserSetStringCallback(tracker: Tracker?)
      requires Valid()
      modifies this`callback
      ensures Valid() && callback == tracker
    {
      callback := tracker;
    }

    /** strlen(data->str) */
    method StrLen() returns (len: nat)
      requires Valid()
      ensures len < str.Length && str[..len] == Current()
    {
      len := 0;
      while str[len] != NUL
        invariant len < str.Length
        invariant forall i :: 0 <= i < len ==> str[i] != NUL
        invariant exists i :: len <= i < str.Length && str[i] == NUL
        decreases str.Length - len
      {
        len := len + 1;
      }
      assert forall i :: 0 <= i < len ==> str[..len][i] == str[i];
      UpToNulUnique(str[..], str[..len]);
    }

    /** transmit_string: the bytes handed to uart_poll_out. */
    method TransmitString() returns (out: seq<byte>)
      requires Valid()
      ensures out == Current() + [NUL]
    {
      var len := StrLen();
      out := [];
      var i := 0;
      while i < len
        invariant i <= len && out == str[..i]
      {
        out := out + [str[i]];
        i := i + 1;
      }
      out := out + [NUL];
    }

    method ClearRxBuf()
      modifies this`rxDataLen, rxBuf
      ensures rxDataLen == 0 && forall i :: 0 <= i < rxBuf.Length ==> rxBuf[i] == NUL
    {
      rxDataLen := 0;
      forall i | 0 <= i < rxBuf.Length {
        rxBuf[i] := NUL;
      }
    }

    /** Hand the chunk in the buffer to the callback, if there is one. */
    method Callback(isString: bool)
      requires 0 < rxDataLen <= rxBuf.Length && isString == (rxBuf[rxDataLen - 1] == NUL)
      modifies this`calls, callback
      ensures callback == null ==> calls == old(calls)
      ensures callback != null ==> Seen() == NulStrings.Deliver(old(Seen()), [Pending()])
    {
      if callback != null {
        var call := Call(rxBuf[..rxDataLen], isString);
        assert CallsOf([Pending()]) == [call];
        calls := calls + [call];
        callback.PeripheralCallback(call);
      }
    }

    /** The body of the handler's loop, for one byte c polled from the UART. */
    method ReceiveByte(c: byte)
      requires Valid()
      modifies this`rxDataLen, this`calls, rxBuf, callback
      ensures Valid()
      ensures var f := FeedByte(NUL_END, rxBuf.Length, Framer([], old(Pending())), c);
        && Pending() == f.pending
        && (callback == null ==> calls == old(calls))
        && (callback != null ==> Seen() == NulStrings.Deliver(old(Seen()), f.done))
    {
      ghost var chunk := Pending() + [c];
      rxBuf[rxDataLen] := c;
      rxDataLen := rxDataLen + 1;
      assert Pending() == chunk;
      var capacity := rxBuf.Length - rxDataLen;
      if c == NUL {
        Callback(true);
        ClearRxBuf();
      } else if capacity == 0 {
        Callback(false);
        ClearRxBuf();
      } else {
        assert CallsOf([]) == [];
      }
    }

    /** uart_int_handler: the bytes are those polled before the UART runs empty. What is delivered, the
        counters and the buffer afterwards are those of the framing rule. */
    method UartIntHandler(rxReady: bool, input: seq<byte>)
      requires Valid()
      modifies this`rxDataLen, this`calls, rxBuf, callback
      ensures Valid()
      ensures var f := Feed(NUL_END, rxBuf.Length, Framer([], old(Pending())), if rxReady then input else []);
        && Pending() == f.pending
        && (callback == null ==> calls == old(calls))
        && (callback != null ==> Seen() == NulStrings.Deliver(old(Seen()), f.done))
    {
      ghost var start := Framer([], Pending());
      ghost var cap := rxBuf.Length;
      ghost var f := start;
      assert CallsOf([]) == [];
      if rxReady {
        var i := 0;
        while i < |input|
          invariant i <= |input| && Valid()
          invariant f == Feed(NUL_END, cap, start, input[..i])
          invariant Pending() == f.pending
          invariant callback == null ==> calls == old(calls)
          invariant callback != null ==> Seen() == NulStrings.Deliver(old(Seen()), f.done)
        {
          FeedSnoc(NUL_END, cap, start, input[..i], input[i]);
          assert input[..i + 1] == input[..i] + [input[i]];
          if callback != null {
            DeliverOneMore(cap, old(Seen()), f, input[i]);
          }
          ReceiveByte(input[i]);
          f := FeedByte(NUL_END, cap, f, input[i]);
          i := i + 1;
        }
        assert input[..|input|] == input;
      }
    }
  }

  /** What a client does with driver A: set each string and have it transmitted. */
  method SendStrings(sender: Driver, strings: seq<seq<byte>>) returns (wire: seq<byte>)
    requires sender.Valid() && forall i :: 0 <= i < |strings| ==> |strings[i]| < sender.str.Length
    modifies sender.str
    ensures sender.Valid() && wire == OnWire(CStrings(strings))
  {
    wire := [];
    for i := 0 to |strings|
      invariant sender.Valid() && wire == OnWire(CStrings(strings[..i]))
    {
      sender.UserSetString(strings[i]);
      var out := sender.TransmitString();
      assert CStrings(strings[..i + 1]) == CStrings(strings[..i]) + [UpToNul(strings[i])];
      OnWireSnoc(CStrings(strings[..i]), UpToNul(strings[i]));
      wire := wire + out;
    }
    assert strings[..|strings|] == strings;
  }

  /** The interrupts at the receiver: the bytes come in bursts, split anywhere. Together they do what one
      interrupt with all the bytes would. */
  method ReceiveBursts(receiver: Driver, bursts: seq<seq<byte>>)
    requires receiver.Valid() && receiver.callback != null
    modifies receiver`rxDataLen, receiver`calls, receiver.rxBuf, receiver.callback
    ensures receiver.Valid() && receiver.callback == old(receiver.callback)
    ensures var f := Feed(NUL_END, receiver.rxBuf.Length, Framer([], old(receiver.Pending())), Concat(bursts));
      receiver.Pending() == f.pending && receiver.Seen() == NulStrings.Deliver(old(receiver.Seen()), f.done)
  {
    ghost var cap, start, seen := receiver.rxBuf.Length, Framer([], receiver.Pending()), receiver.Seen();
    ghost var f := start;
    assert CallsOf([]) == [];
    for i := 0 to |bursts|
      invariant receiver.Valid() && receiver.callback == old(receiver.callback)
      invariant f == Feed(NUL_END, cap, start, Concat(bursts[..i]))
      invariant receiver.Pending() == f.pending && receiver.Seen() == NulStrings.Deliver(seen, f.done)
    {
      receiver.UartIntHandler(true, bursts[i]);
      assert bursts[..i + 1] == bursts[..i] + [bursts[i]];
      ConcatSnoc(bursts[..i], bursts[i]);
      FeedAppend(NUL_END, cap, start, Concat(bursts[..i]), bursts[i]);
      FeedKeepsDone(NUL_END, cap, f, bursts[i]);
      ghost var one := Feed(NUL_END, cap, Framer([], f.pending), bursts[i]);
      DeliverAppend(seen, f.done, one.done);
      f := Framer(f.done + one.done, one.pending);
    }
    assert bursts[..|bursts|] == bursts;
  }

  /** The bytes on the line as they arrive: cut into bursts of the given sizes, the last one taking the
      rest. */
  function Bursts(wire: seq<byte>, sizes: seq<nat>): (r: seq<seq<byte>>)
    ensures Concat(r) == wire
    decreases |sizes|
  {
    if sizes == [] then
      assert Concat([wire]) == wire + Concat([]);
      [wire]
    else
      var n := Min(sizes[0], |wire|);
      [wire[..n]] + Bursts(wire[n..], sizes[1..])
  }

  /** Every way to split some bytes into bursts is one of these. */
  lemma {:induction false} AnyBursts(bursts: seq<seq<byte>>) returns (sizes: seq<nat>)
    requires bursts != []
    ensures Bursts(Concat(bursts), sizes) == bursts
    decreases |bursts|
  {
    if |bursts| == 1 {
      sizes := [];
      assert Concat(bursts) == bursts[0] + Concat(bursts[1..]) == bursts[0];
    } else {
      var rest := AnyBursts(bursts[1..]);
      sizes := [|bursts[0]|] + rest;
      assert sizes[1..] == rest;
      var wire := Concat(bursts);
      assert wire == bursts[0] + Concat(bursts[1..]);
      assert wire[..|bursts[0]|] == bursts[0] && wire[|bursts[0]|..] == Concat(bursts[1..]);
    }
  }

  /** Two drivers on one line: whatever strings are sent, and however their bytes are split into
      interrupts, the fragments a fresh receiver's application got, glued together, are those strings up
      to their first NUL; each was counted once; and the receiver's buffer is empty again. */
  method Exchange(sender: Driver, receiver: Driver, strings: seq<seq<byte>>, sizes: seq<nat>)
    requires sender.Valid() && forall i :: 0 <= i < |strings| ==> |strings[i]| < sender.str.Length
    requires receiver.Valid() && receiver.callback != null
    requires {sender.str, sender.rxBuf} !! {receiver.str, receiver.rxBuf}
    requires receiver.calls == [] && receiver.Pending() == []
    modifies sender.str, receiver`rxDataLen, receiver`calls, receiver.rxBuf, receiver.callback
    ensures sender.Valid() && receiver.Valid() && receiver.Pending() == []
    ensures Glue(receiver.calls) == Glued(CStrings(strings), [])
    ensures receiver.callback == old(receiver.callback)
    ensures receiver.callback.strings == old(receiver.callback.strings) + |strings|
  {
    ghost var seen := receiver.Seen();
    var wire := SendStrings(sender, strings);
    assert receiver.Seen() == seen && receiver.Pending() == [];
    ReceiveBursts(receiver, Bursts(wire, sizes));
    ReceivedStrings(receiver.rxBuf.Length, seen, strings);
  }
}

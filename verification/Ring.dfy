/** A bounded circular buffer, standing in for the kernel's ring_buf. */
module Ring {
  import opened Bytes

  class RingBuf<T(0)> {
    const buffer: array<T>
    var head: nat
    var used: nat
    ghost var contents: seq<T>

    /** Where the i-th oldest element lives. */
    function Slot(i: nat): nat
      reads this
    {
      if head + i < buffer.Length then head + i else head + i - buffer.Length
    }

    ghost predicate Valid()
      reads this, buffer
    {
      && head < buffer.Length
      && used == |contents| <= buffer.Length
      && (forall i :: 0 <= i < used ==> contents[i] == buffer[Slot(i)])
    }

    constructor (capacity: nat)
      requires capacity > 0
      ensures Valid() && contents == [] && buffer.Length == capacity && fresh(buffer)
    {
      buffer := new T[capacity];
      head, used, contents := 0, 0, [];
    }

    function Space(): nat
      requires used <= buffer.Length
      reads this
    {
      buffer.Length - used
    }

    method Push(x: T)
      requires Valid() && Space() > 0
      modifies this, buffer
      ensures Valid() && contents == old(contents) + [x]
    {
      buffer[Slot(used)] := x;
      used, contents := used + 1, contents + [x];
    }

    method Pop() returns (x: T)
      requires Valid() && contents != []
      modifies this
      ensures Valid() && [x] + contents == old(contents)
    {
      x := buffer[head];
      assert x == contents[0];
      head := Slot(1);
      used, contents := used - 1, contents[1..];
    }

    /** ring_buf_put: stores as much of src as there is room for and tells how much that was. */
    method Put(src: seq<T>) returns (wrote: nat)
      requires Valid()
      modifies this, buffer
      ensures Valid() && wrote == Min(|src|, old(Space()))
      ensures contents == old(contents) + src[..wrote]
    {
      wrote := 0;
      while wrote < |src| && Space() > 0
        invariant wrote <= |src| && Valid()
        invariant used == old(used) + wrote
        invariant contents == old(contents) + src[..wrote]
      {
        Push(src[wrote]);
        wrote := wrote + 1;
      }
    }

    /** ring_buf_get: takes the oldest elements, at most max. */
    method Get(max: nat) returns (out: seq<T>)
      requires Valid()
      modifies this
      ensures Valid() && |out| == Min(max, |old(contents)|)
      ensures out + contents == old(contents)
    {
      out := [];
      while |out| < max && used > 0
        invariant Valid() && |out| <= max
        invariant out + contents == old(contents)
        decreases used
      {
        ghost var before := contents;
        var x := Pop();
        assert out + before == (out + [x]) + contents;
        out := out + [x];
      }
    }
  }
}

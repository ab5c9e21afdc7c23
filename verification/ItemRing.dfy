/** The kernel's ring_buf in item mode: a ring of 32-bit words in which every item is one header word
    (type, length in words, one byte of user value) and its data words. */
module ItemRing {
  import opened Bytes
  import opened Ring

  /** A 32-bit word by its four bytes in memory order. */
  datatype Word = Word(b0: byte, b1: byte, b2: byte, b3: byte)

  function Bytes4(w: Word): seq<byte> {
    [w.b0, w.b1, w.b2, w.b3]
  }

  /** The first n words of a byte buffer, and the bytes of a word buffer: the casts between uint32_t*
      and uint8_t* in the driver. */
  function ToWords(buf: seq<byte>, n: nat): seq<Word>
    requires 4 * n <= |buf|
    decreases n
  {
    if n == 0 then [] else [Word(buf[0], buf[1], buf[2], buf[3])] + ToWords(buf[4..], n - 1)
  }

  function ToBytes(words: seq<Word>): seq<byte> {
    if words == [] then [] else Bytes4(words[0]) + ToBytes(words[1..])
  }

  /** Packing into words and unpacking is the identity on the bytes packed. */
  lemma {:induction false} UnpackPack(buf: seq<byte>, n: nat)
    requires 4 * n <= |buf|
    ensures |ToWords(buf, n)| == n && ToBytes(ToWords(buf, n)) == buf[..4 * n]
    decreases n
  {
    if n > 0 {
      UnpackPack(buf[4..], n - 1);
      assert buf[..4 * n] == buf[..4] + buf[4..][..4 * (n - 1)];
      assert buf[..4] == [buf[0], buf[1], buf[2], buf[3]];
    }
  }

  datatype Item = Item(kind: byte, value: byte, words: seq<Word>)

  function Encode(item: Item): seq<Word>
    requires |item.words| < 256
  {
    [Word(item.kind, 0, |item.words| as byte, item.value)] + item.words
  }

  ghost predicate Encodable(items: seq<Item>) {
    forall i :: 0 <= i < |items| ==> |items[i].words| < 256
  }

  ghost function EncodeAll(items: seq<Item>): seq<Word>
    requires Encodable(items)
  {
    if items == [] then [] else Encode(items[0]) + EncodeAll(items[1..])
  }

  lemma {:induction false} EncodeSnoc(items: seq<Item>, x: Item)
    requires Encodable(items) && |x.words| < 256
    ensures EncodeAll(items + [x]) == EncodeAll(items) + Encode(x)
    decreases |items|
  {
    if items == [] {
      assert items + [x] == [x];
      assert EncodeAll([x]) == Encode(x) + EncodeAll([]);
    } else {
      EncodeSnoc(items[1..], x);
      assert (items + [x])[1..] == items[1..] + [x];
    }
  }

  datatype GetResult = Got(item: Item) | Empty | TooBig(size: nat)

  class ItemRingBuf {
    const ring: RingBuf<Word>
    ghost var items: seq<Item>

    ghost predicate Valid()
      reads this, ring, ring.buffer
    {
      && ring.Valid()
      && Encodable(items)
      && ring.contents == EncodeAll(items)
    }

    constructor (words: nat)
      requires words > 0
      ensures Valid() && items == [] && ring.buffer.Length == words && fresh(ring) && fresh(ring.buffer)
    {
      ring := new RingBuf(words);
      items := [];
    }

    /** ring_buf_item_put: stores the whole item, or nothing when it does not fit (-EMSGSIZE). */
    method Put(kind: byte, value: byte, words: seq<Word>) returns (ok: bool)
      requires Valid() && |words| < 256
      modifies this, ring, ring.buffer
      ensures Valid()
      ensures ok <==> old(ring.used) + 1 + |words| <= ring.buffer.Length
      ensures items == if ok then old(items) + [Item(kind, value, words)] else old(items)
    {
      ok := 1 + |words| <= ring.Space();
      if ok {
        var item := Item(kind, value, words);
        EncodeSnoc(items, item);
        var wrote := ring.Put(Encode(item));
        items := items + [item];
      }
    }

    /** ring_buf_item_get: takes the oldest item; nothing is taken when the ring is empty (-EAGAIN) or
        the item has more than max words (-EMSGSIZE). */
    method Get(max: nat) returns (r: GetResult)
      requires Valid()
      modifies this, ring, ring.buffer
      ensures Valid()
      ensures r == if old(items) == [] then Empty
                   else if |old(items)[0].words| > max then TooBig(|old(items)[0].words|)
                   else Got(old(items)[0])
      ensures items == if r.Got? then old(items)[1..] else old(items)
    {
      if ring.used == 0 {
        assert items == [];
        return Empty;
      }
      assert items != [] && ring.contents == Encode(items[0]) + EncodeAll(items[1..]);
      var header := ring.buffer[ring.head];
      assert header == ring.contents[0];
      if header.b2 as nat > max {
        return TooBig(header.b2 as nat);
      }
      ghost var rest := EncodeAll(items[1..]);
      var h := ring.Pop();
      assert ring.contents == ([h] + ring.contents)[1..] == items[0].words + rest;
      var words := ring.Get(header.b2 as nat);
      assert words == (items[0].words + rest)[..|words|] && ring.contents == (items[0].words + rest)[|words|..];
      r := Got(Item(header.b0, header.b3, words));
      items := items[1..];
    }
  }
}

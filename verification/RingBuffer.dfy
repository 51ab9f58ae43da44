/**
 The ring buffer over a region that is mapped twice in a row, so that offset `i` and offset
 `i + size` are the same byte. It refines a first-in first-out queue of bytes.
 */
module RingBuffers {
  import opened Bits
  import opened Decimal

  lemma {:induction false} DistinctResidues(x: int, y: int, n: int)
    requires 0 < n && x < y < x + n
    ensures x % n != y % n
  {
    if x % n == y % n {
      var d := y / n - x / n;
      assert y - x == n * d;
      SmallMultiple(n, d);
      assert false;
    }
  }

  /** The bytes at indices `from .. from + len` of the endless stream written to the region. */
  function Window(region: seq<byte>, from: nat, len: nat): (r: Bytes)
    requires |region| > 0
    ensures |r| == len
    ensures forall i {:trigger r[i]} :: 0 <= i < len ==> r[i] == region[(from + i) % |region|]
  {
    seq(len, i requires 0 <= i < len => region[(from + i) % |region|])
  }

  /** The contiguous view that starts at the wrapped offset is the window. */
  lemma {:induction false} ContiguousView(region: seq<byte>, index: nat, len: nat)
    requires |region| > 0
    ensures Window(region, index % |region|, len) == Window(region, index, len)
  {
    forall i | 0 <= i < len ensures Window(region, index % |region|, len)[i] == Window(region, index, len)[i] {
      ModOfSum(index, i, |region|);
    }
  }

  /** A byte written at index `w` leaves windows alone that stay within `size` of it and miss it. */
  lemma {:induction false} PokeMisses(region: seq<byte>, w: nat, b: byte, from: nat, len: nat)
    requires |region| > 0
    requires (w < from && from + len <= w + |region|) || (from + len <= w && w < from + |region|)
    ensures Window(region[w % |region| := b], from, len) == Window(region, from, len)
  {
    var region' := region[w % |region| := b];
    forall i | 0 <= i < len ensures Window(region', from, len)[i] == Window(region, from, len)[i] {
      if w < from + i {
        DistinctResidues(w, from + i, |region|);
      } else {
        DistinctResidues(from + i, w, |region|);
      }
    }
  }

  lemma {:induction false} PokeExtends(region: seq<byte>, b: byte, from: nat, len: nat)
    requires len < |region|
    ensures Window(region[(from + len) % |region| := b], from, len + 1) == Window(region, from, len) + [b]
  {
    var region' := region[(from + len) % |region| := b];
    PokeMisses(region, from + len, b, from, len);
    assert Window(region', from, len + 1) == Window(region', from, len) + [b];
  }

  /** One turn of the copy: the bytes ahead grow by the next one, and what lies behind all of them is kept. */
  lemma {:induction false} PokeInPlace(region: seq<byte>, w: nat, data: Bytes, i: nat)
    requires i < |data| <= |region| && Window(region, w, i) == data[..i]
    ensures var region' := region[(w + i) % |region| := data[i]];
      && Window(region', w, i + 1) == data[..i + 1]
      && Window(region', w + |data|, |region| - |data|) == Window(region, w + |data|, |region| - |data|)
  {
    PokeExtends(region, data[i], w, i);
    PokeMisses(region, w + i, data[i], w + |data|, |region| - |data|);
    assert data[..i + 1] == data[..i] + [data[i]];
  }

  /** A window moved by the size of the region is the same window. */
  lemma {:induction false} WindowWraps(region: seq<byte>, from: nat, len: nat)
    requires |region| > 0
    ensures Window(region, from + |region|, len) == Window(region, from, len)
  {
    forall i | 0 <= i < len ensures Window(region, from + |region|, len)[i] == Window(region, from, len)[i] {
      ModShift(from + i, |region|, 1);
    }
  }

  /** The queue lies in the part of the region that writing `n` bytes ahead does not touch. */
  lemma {:induction false} QueueUntouched(region: seq<byte>, region': seq<byte>, r: nat, w: nat, n: nat)
    requires 0 < |region| == |region'| && r <= w && w - r + n <= |region|
    requires Window(region', w + n, |region| - n) == Window(region, w + n, |region| - n)
    ensures Window(region', r, w - r) == Window(region, r, w - r)
  {
    WindowWraps(region, r, w - r);
    WindowWraps(region', r, w - r);
    var d := r + |region| - (w + n);
    var a, a' := Window(region, r + |region|, w - r), Window(region', r + |region|, w - r);
    var b, b' := Window(region, w + n, |region| - n), Window(region', w + n, |region| - n);
    forall i | 0 <= i < w - r ensures a'[i] == a[i] {
      assert b'[d + i] == b[d + i];
      assert (w + n) + (d + i) == (r + |region|) + i;
    }
  }

  /** Windows that adjoin are one window. */
  lemma {:induction false} WindowJoin(region: seq<byte>, from: nat, a: nat, b: nat)
    requires |region| > 0
    ensures Window(region, from, a + b) == Window(region, from, a) + Window(region, from + a, b)
  {
    var w, u, v := Window(region, from, a + b), Window(region, from, a), Window(region, from + a, b);
    forall i | 0 <= i < a + b ensures w[i] == (u + v)[i] {
      if i >= a { assert v[i - a] == region[(from + a + (i - a)) % |region|]; }
    }
  }

  /** Bytes written ahead that reach into the queue replace its oldest bytes. */
  lemma {:induction false} QueueOverwritten(region: seq<byte>, region': seq<byte>, r: nat, w: nat, str: Bytes)
    requires 0 < |region| == |region'| && r <= w <= r + |region| && |region| - (w - r) < |str| <= |region|
    requires Window(region', w, |str|) == str
    requires Window(region', w + |str|, |region| - |str|) == Window(region, w + |str|, |region| - |str|)
    ensures var room := |region| - (w - r);
      Window(region', r, w - r) == str[room..] + Window(region, r, w - r)[|str| - room..]
  {
    var size := |region|;
    var room := size - (w - r);
    var a, b := |str| - room, size - |str|;
    WindowWraps(region, r, w - r);
    WindowWraps(region', r, w - r);
    WindowJoin(region', w, room, a);
    WindowJoin(region', w + room, a, b);
    WindowJoin(region, w + room, a, b);
  }

  class RingBuffer {
    const size: nat
    const region: array<byte>
    var readIndex: nat
    var writeIndex: nat

    /** `ASSERT_STATE` */
    predicate Valid()
      reads this
    {
      0 < size == region.Length && readIndex <= writeIndex <= readIndex + size
    }

    constructor (size: nat)
      requires size > 0
      ensures Valid() && fresh(region) && Contents() == [] && this.size == size
    {
      this.size := size;
      region := new byte[size](_ => 0);
      readIndex, writeIndex := 0, 0;
    }

    /** The queued bytes. */
    function Contents(): Bytes
      requires Valid()
      reads this, region
    {
      Window(region[..], readIndex, writeIndex - readIndex)
    }

    function ReadableLen(): nat
      requires Valid()
      reads this
    {
      writeIndex - readIndex
    }

    function WritableLen(): nat
      requires Valid()
      reads this
    {
      size - ReadableLen()
    }

    /** The `n` bytes that lie at the write pointer. */
    ghost function Ahead(n: nat): Bytes
      requires Valid()
      reads this, region
    {
      Window(region[..], writeIndex, n)
    }

    /** The readable view: a start offset and a length; read contiguously it is the queue. */
    method Readable() returns (ptr: nat, len: nat)
      requires Valid()
      ensures ptr + len <= 2 * size && len == |Contents()| && Window(region[..], ptr, len) == Contents()
    {
      ptr, len := readIndex % size, ReadableLen();
      ContiguousView(region[..], readIndex, len);
    }

    method Writable() returns (ptr: nat, len: nat)
      requires Valid()
      ensures ptr == writeIndex % size && len == WritableLen() && ptr + len <= 2 * size
    {
      ptr, len := writeIndex % size, WritableLen();
    }

    method Read(len: nat) returns (err: int)
      requires Valid()
      modifies this`readIndex
      ensures Valid()
      ensures err == 0 <==> len <= old(ReadableLen())
      ensures err == 0 ==> Contents() == old(Contents())[len..] && Ahead(size) == old(Ahead(size))
      ensures err != 0 ==> readIndex == old(readIndex)
    {
      if len > ReadableLen() { return -1; }
      ghost var before := Contents();
      readIndex := readIndex + len;
      assert Contents() == before[len..];
      return 0;
    }

    method Write(len: nat) returns (err: int)
      requires Valid()
      modifies this`writeIndex
      ensures Valid()
      ensures err == 0 <==> len <= old(WritableLen())
      ensures err == 0 ==> Contents() == old(Contents()) + old(Ahead(len)) && writeIndex == old(writeIndex) + len
      ensures err != 0 ==> writeIndex == old(writeIndex)
    {
      if len > WritableLen() { return -1; }
      ghost var before, ahead := Contents(), Ahead(len);
      writeIndex := writeIndex + len;
      assert Contents() == before + ahead;
      return 0;
    }

    /** `memcpy` to the writable pointer `ptr`: only the bytes ahead of the write index change. */
    method CopyIn(ptr: nat, data: Bytes)
      requires Valid() && ptr == writeIndex % size && |data| <= size
      modifies region
      ensures Ahead(|data|) == data
      ensures Window(region[..], writeIndex + |data|, size - |data|)
        == old(Window(region[..], writeIndex + |data|, size - |data|))
    {
      var i := 0;
      ghost var kept := Window(region[..], writeIndex + |data|, size - |data|);
      while i < |data|
        invariant 0 <= i <= |data|
        invariant Ahead(i) == data[..i]
        invariant Window(region[..], writeIndex + |data|, size - |data|) == kept
      {
        ghost var before := region[..];
        PokeInPlace(before, writeIndex, data, i);
        ModOfSum(writeIndex, i, size);
        region[(ptr + i) % size] := data[i];
        assert region[..] == before[(writeIndex + i) % size := data[i]];
        i := i + 1;
      }
    }

    /** Copying no more than the writable length ahead changes no queued byte. */
    method Append(data: Bytes) returns (err: int)
      requires Valid()
      modifies this`writeIndex, region
      ensures Valid()
      ensures err == 0 <==> |data| <= old(WritableLen())
      ensures Contents() == if err == 0 then old(Contents()) + data else old(Contents())
    {
      var ptr, len := Writable();
      if |data| > len { return -1; }
      ghost var before := region[..];
      CopyIn(ptr, data);
      QueueUntouched(before, region[..], readIndex, writeIndex, |data|);
      err := Write(|data|);
    }
  }
}

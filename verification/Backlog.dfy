/**
 The master's side of replication: the backlog of propagated bytes, and the partial resync that is
 served from it.
 */
module Backlogs {
  import opened Decimal
  import opened RingBuffers

  /** Where the window of the last `size` bytes of a stream of `total` bytes begins. */
  function WindowStart(total: nat, size: nat): nat {
    if total <= size then 0 else total - size
  }

  class Master {
    const backlog: RingBuffer
    const replId: Bytes
    var masterOffset: int
    var baseOffset: int
    /** Every byte propagated so far. */
    ghost var stream: Bytes

    constructor (size: nat, replId: Bytes)
      requires size > 0
      ensures Valid() && fresh(backlog) && fresh(backlog.region) && stream == [] && backlog.size == size
    {
      backlog := new RingBuffer(size);
      this.replId := replId;
      masterOffset, baseOffset := 0, 0;
      stream := [];
    }

    /** The offsets count the stream, and the backlog holds its last bytes, as many as fit. */
    ghost predicate Valid()
      reads this, backlog, backlog.region
    {
      && backlog.Valid()
      && masterOffset == |stream|
      && baseOffset == WindowStart(|stream|, backlog.size)
      && backlog.Contents() == stream[baseOffset..]
    }

    /** The invariant in the terms of the offsets alone. */
    lemma {:induction false} OffsetsAgree()
      requires Valid()
      ensures baseOffset + backlog.ReadableLen() == masterOffset
    {
      assert |backlog.Contents()| == backlog.ReadableLen();
    }

    /** Propagation of one parsed piece; `piece` is what the copy puts into the backlog. */
    method Propagate(piece: Bytes)
      requires Valid() && |piece| <= backlog.size
      modifies this, backlog, backlog.region
      ensures Valid() && stream == old(stream) + piece
    {
      OffsetsAgree();
      masterOffset := masterOffset + |piece|;
      var over := CopyOver(backlog, piece);
      baseOffset := baseOffset + over;
      WindowSlides(stream, piece, backlog.size, over);
      stream := stream + piece;
    }

    /**
     `handle_psync` on the arguments of the command: a replica goes on exactly if it names this master and an
     offset in the window of the last bytes propagated, and then at that offset.
     */
    method OnPsync(args: seq<Bytes>) returns (r: PsyncReply)
      requires Valid()
      ensures r == HandlePsync(args, replId, WindowStart(|stream|, backlog.size), |stream|)
      ensures r == WrongArity <==> |args| < 3
      ensures r.Continue? <==>
        && |args| >= 3 && args[1] == replId && !([63] <= args[1])
        && Strtol(args[2]).end == |args[2]|
        && |stream| - backlog.size <= Strtol(args[2]).value <= |stream| && 0 <= Strtol(args[2]).value
      ensures r.Continue? ==> r.offset == Strtol(args[2]).value
    {
      if |args| < 3 { return WrongArity; }
      var offset := Strtol(args[2]);
      if (args[1] == [] || args[1][0] != 63) && args[1] == replId && offset.end == |args[2]|
         && offset.value >= baseOffset && offset.value <= masterOffset {
        return Continue(offset.value);
      }
      return FullResyncReply;
    }

    /** `continue_psync`: a replica inside the window is sent exactly the bytes it lacks. */
    method ServeReplica(offset: int) returns (a: Action)
      requires Valid()
      ensures var base := WindowStart(|stream|, backlog.size);
        a == ContinuePsync(stream[base..], base, |stream|, offset)
      ensures a == CaughtUp <==> offset == |stream|
      ensures a.Send? <==> WindowStart(|stream|, backlog.size) <= offset < |stream|
      ensures a.Send? ==> a.data == stream[offset..]
    {
      OffsetsAgree();
      PsyncServesWindow(stream, backlog.size, offset);
      if offset == masterOffset { return CaughtUp; }
      var bytesToSend := masterOffset - offset;
      if bytesToSend <= 0 { return Disconnect; }
      var ptr, len := backlog.Readable();
      if bytesToSend > len { return Disconnect; }
      var relative := offset - baseOffset;
      var view := Window(backlog.region[..], ptr, len);
      a := Send(view[relative..relative + bytesToSend]);
    }
  }

  /** Writes `piece`, first dropping as many of the oldest bytes as it takes. */
  method CopyOver(rb: RingBuffer, piece: Bytes) returns (over: nat)
    requires rb.Valid() && |piece| <= rb.size
    modifies rb, rb.region
    ensures rb.Valid()
    ensures over == if |piece| <= old(rb.WritableLen()) then 0 else |piece| - old(rb.WritableLen())
    ensures over <= |old(rb.Contents())| && rb.Contents() == old(rb.Contents())[over..] + piece
  {
    var ptr, room := rb.Writable();
    over := 0;
    var err;
    if |piece| > room {
      over := |piece| - room;
      err := rb.Read(over);
    }
    assert rb.Contents() == old(rb.Contents())[over..];
    AppendAt(rb, ptr, piece);
  }

  /** The copy to the write pointer and the move of the write index. */
  method AppendAt(rb: RingBuffer, ptr: nat, piece: Bytes)
    requires rb.Valid() && ptr == rb.writeIndex % rb.size && |piece| <= rb.WritableLen()
    modifies rb`writeIndex, rb.region
    ensures rb.Valid() && rb.Contents() == old(rb.Contents()) + piece
  {
    ghost var region := rb.region[..];
    rb.CopyIn(ptr, piece);
    QueueUntouched(region, rb.region[..], rb.readIndex, rb.writeIndex, |piece|);
    var err := rb.Write(|piece|);
  }

  /** Dropping the overflow and appending the piece moves the window to the end of the longer stream. */
  lemma {:induction false} WindowSlides(stream: Bytes, piece: Bytes, size: nat, over: nat)
    requires |piece| <= size
    requires var start := WindowStart(|stream|, size);
      over == if |piece| <= size - (|stream| - start) then 0 else |piece| - (size - (|stream| - start))
    ensures var start, start' := WindowStart(|stream|, size), WindowStart(|stream + piece|, size);
      && start' == start + over && over <= |stream| - start
      && stream[start..][over..] + piece == (stream + piece)[start'..]
  {
  }

  // ------------------------------------------------------------------ partial resync

  datatype PsyncReply = WrongArity | Continue(offset: int) | FullResyncReply

  /** What `continue_psync` does with a replica. */
  datatype Action = CaughtUp | Disconnect | Send(data: Bytes)

  /** `handle_psync`: a known master id and a numeric offset inside the backlog window. */
  function HandlePsync(args: seq<Bytes>, replId: Bytes, base: int, master: int): PsyncReply {
    if |args| < 3 then WrongArity
    else
      var id, offset := args[1], Strtol(args[2]);
      if !(id != [] && id[0] == 63) && id == replId && offset.end == |args[2]| && base <= offset.value <= master
      then Continue(offset.value)
      else FullResyncReply
  }

  /** `continue_psync` for a replica at `offset`, given the backlog's bytes. */
  function ContinuePsync(window: Bytes, base: int, master: int, offset: int): (a: Action)
    requires base + |window| == master
  {
    if offset == master then CaughtUp
    else
      var bytesToSend := master - offset;
      if bytesToSend <= 0 then Disconnect
      else if bytesToSend > |window| then Disconnect
      else
        var relative := offset - base;
        Send(window[relative..relative + bytesToSend])
  }

  /** The replica is served exactly when its offset is inside the window, and then with all it lacks. */
  lemma {:induction false} PsyncServesWindow(stream: Bytes, size: nat, offset: int)
    ensures var base, master := WindowStart(|stream|, size), |stream|;
      var a := ContinuePsync(stream[base..], base, master, offset);
      && (a == CaughtUp <==> offset == master)
      && (a.Send? <==> base <= offset < master)
      && (a.Send? ==> a.data == stream[offset..])
      && (a == Disconnect <==> offset < base || offset > master)
  {
  }

  /** An accepted replica can be served at once; later it is cut off exactly when more than `size` bytes are due. */
  lemma {:induction false} AcceptedThenServed(args: seq<Bytes>, replId: Bytes, stream: Bytes, more: Bytes, size: nat)
    requires HandlePsync(args, replId, WindowStart(|stream|, size), |stream|).Continue?
    ensures var offset := HandlePsync(args, replId, WindowStart(|stream|, size), |stream|).offset;
      var later := stream + more;
      var base := WindowStart(|later|, size);
      var a := ContinuePsync(later[base..], base, |later|, offset);
      && 0 <= offset <= |stream|
      && (a == Disconnect <==> |later| - offset > size)
      && (a == Disconnect ==> base > WindowStart(|stream|, size))
      && (a.Send? ==> a.data == stream[offset..] + more)
  {
    var offset := HandlePsync(args, replId, WindowStart(|stream|, size), |stream|).offset;
    PsyncServesWindow(stream + more, size, offset);
    assert (stream + more)[offset..] == stream[offset..] + more;
  }

  /** An offset that is sent in plain decimals: accepted for this master's id inside the window, and for no other. */
  lemma {:induction false} PsyncAcceptedIff(name: Bytes, id: Bytes, o: int, replId: Bytes, stream: Bytes, size: nat)
    requires LONG_MIN <= o <= LONG_MAX
    ensures HandlePsync([name, id, Show(o)], replId, WindowStart(|stream|, size), |stream|)
      == if id == replId && !([63] <= id) && 0 <= o && |stream| - size <= o <= |stream| then Continue(o)
         else FullResyncReply
  {
    StrtolOfShow(o, []);
    assert Show(o) + [] == Show(o);
  }
}

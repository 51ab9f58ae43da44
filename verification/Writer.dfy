/** The RESP writers over a ring buffer. */
module Writer {
  import opened Decimal
  import opened RingBuffers
  import opened RoundTrip

  lemma {:induction false} WindowPrefix(region: seq<byte>, from: nat, len: nat, n: nat)
    requires |region| > 0 && n <= len
    ensures Window(region, from, len)[..n] == Window(region, from, n)
  {
  }

  /** What `snprintf` leaves of `text` in a space of `room` bytes, its terminator included. */
  function Printed(text: Bytes, room: nat): Bytes
    requires room > 0
  {
    (if |text| < room then text else text[..room - 1]) + [0]
  }

  /**
   `snprintf` at the write pointer and then `rb_write` of the full length of `text`. The terminator
   takes a byte too: with exactly enough room the last byte of the text is lost to it.
   */
  method PrintText(rb: RingBuffer, text: Bytes)
    requires rb.Valid() && 0 < |text| <= rb.WritableLen()
    modifies rb`writeIndex, rb.region
    ensures rb.Valid() && rb.ReadableLen() == old(rb.ReadableLen()) + |text|
    ensures rb.Contents() == old(rb.Contents()) + Printed(text, old(rb.WritableLen()))[..|text|]
  {
    var ptr, room := rb.Writable();
    var out := Printed(text, room);
    ghost var before := rb.region[..];
    rb.CopyIn(ptr, out);
    QueueUntouched(before, rb.region[..], rb.readIndex, rb.writeIndex, |out|);
    WindowPrefix(rb.region[..], rb.writeIndex, |out|, |text|);
    var err := rb.Write(|text|);
  }

  /** With strictly more room than text, the text is written whole. */
  lemma {:induction false} PrintedWhole(text: Bytes, room: nat)
    requires |text| < room
    ensures Printed(text, room)[..|text|] == text
  {
  }

  method WriteBeginArray(rb: RingBuffer, len: int)
    requires rb.Valid()
    modifies rb`writeIndex, rb.region
    ensures rb.Valid()
    ensures var text := [42] + Show(len) + CRLF;
      && (old(rb.WritableLen()) > |text| ==> rb.Contents() == old(rb.Contents()) + text)
      && (old(rb.WritableLen()) == |text| ==> rb.Contents() == old(rb.Contents()) + text[..|text| - 1] + [0])
      && (old(rb.WritableLen()) < |text| ==> rb.Contents() == old(rb.Contents()))
  {
    var text := [42] + Show(len) + CRLF;
    if rb.WritableLen() < |text| { return; }
    if rb.WritableLen() > |text| { PrintedWhole(text, rb.WritableLen()); }
    PrintText(rb, text);
  }

  /** The opening of a bulk string; a null one, of length -1, gets no CRLF here. */
  method WriteBeginBulk(rb: RingBuffer, len: int)
    requires rb.Valid()
    modifies rb`writeIndex, rb.region
    ensures rb.Valid()
    ensures var text := [36] + Show(len);
      && (old(rb.WritableLen()) >= |text| + 2 && len != -1 ==> rb.Contents() == old(rb.Contents()) + text + CRLF)
      && (old(rb.WritableLen()) < |text| + 2 && len != -1 ==> rb.Contents() == old(rb.Contents()))
      && (old(rb.WritableLen()) > |text| && len == -1 ==> rb.Contents() == old(rb.Contents()) + text)
      && (old(rb.WritableLen()) == |text| && len == -1 ==>
            rb.Contents() == old(rb.Contents()) + text[..|text| - 1] + [0])
      && (old(rb.WritableLen()) < |text| && len == -1 ==> rb.Contents() == old(rb.Contents()))
  {
    var text := [36] + Show(len);
    if rb.WritableLen() < |text| + (if len != -1 then 2 else 0) { return; }
    if rb.WritableLen() > |text| { PrintedWhole(text, rb.WritableLen()); }
    PrintText(rb, text);
    if len != -1 {
      var err := rb.Append(CRLF);
    }
  }

  /**
   `write_chars`; unlike the other writers it does not stop when there is no room: the copy then runs on over
   the oldest queued bytes, and nothing is appended.
   */
  method WriteChars(rb: RingBuffer, str: Bytes)
    requires rb.Valid() && |str| <= rb.size
    modifies rb`writeIndex, rb.region
    ensures rb.Valid()
    ensures |str| <= old(rb.WritableLen()) ==> rb.Contents() == old(rb.Contents()) + str
    ensures |str| > old(rb.WritableLen()) ==>
      var room := old(rb.WritableLen()); rb.Contents() == str[room..] + old(rb.Contents())[|str| - room..]
  {
    var ptr, room := rb.Writable();
    ghost var before := rb.region[..];
    rb.CopyIn(ptr, str);
    if |str| <= room {
      QueueUntouched(before, rb.region[..], rb.readIndex, rb.writeIndex, |str|);
    } else {
      QueueOverwritten(before, rb.region[..], rb.readIndex, rb.writeIndex, str);
    }
    var err := rb.Write(|str|);
  }

  method WriteEndBulk(rb: RingBuffer)
    requires rb.Valid()
    modifies rb`writeIndex, rb.region
    ensures rb.Valid()
    ensures rb.Contents() == if old(rb.WritableLen()) < 2 then old(rb.Contents()) else old(rb.Contents()) + CRLF
  {
    if rb.WritableLen() < 2 { return; }
    var err := rb.Append(CRLF);
  }

  method WriteBulk(rb: RingBuffer, str: Bytes)
    requires rb.Valid() && |EncodeBulk(str)| <= rb.WritableLen()
    modifies rb`writeIndex, rb.region
    ensures rb.Valid() && rb.Contents() == old(rb.Contents()) + EncodeBulk(str)
  {
    BulkParts(rb.Contents(), str);
    WriteBeginBulk(rb, |str|);
    WriteChars(rb, str);
    WriteEndBulk(rb);
  }

  lemma {:induction false} BulkParts(before: Bytes, str: Bytes)
    ensures before + ([36] + Show(|str|)) + CRLF + str + CRLF == before + EncodeBulk(str)
    ensures |EncodeBulk(str)| == |[36] + Show(|str|)| + |str| + 4
  {
    Regroup(before, [36], Show(|str|), CRLF, str);
  }

  lemma {:induction false} Regroup(a: Bytes, b: Bytes, c: Bytes, d: Bytes, e: Bytes)
    ensures a + (b + c) + d + e + d == a + (b + c + d + e + d)
  {
  }

  lemma {:induction false} ArgsFrom(args: seq<Bytes>, i: nat)
    requires i < |args|
    ensures EncodeArgs(args[i..]) == EncodeBulk(args[i]) + EncodeArgs(args[i + 1..])
  {
    assert args[i..][1..] == args[i + 1..];
  }

  lemma {:induction false} NextArg(before: Bytes, args: seq<Bytes>, i: nat)
    requires i < |args|
    ensures (before + EncodeBulk(args[i])) + EncodeArgs(args[i + 1..]) == before + EncodeArgs(args[i..])
    ensures |before| + |EncodeBulk(args[i])| <= |before + EncodeArgs(args[i..])|
  {
    ArgsFrom(args, i);
  }

  /** The loop over the elements in `add_array_reply`. */
  method WriteArgs(rb: RingBuffer, args: seq<Bytes>)
    requires rb.Valid() && |EncodeArgs(args)| <= rb.WritableLen()
    modifies rb`writeIndex, rb.region
    ensures rb.Valid() && rb.Contents() == old(rb.Contents()) + EncodeArgs(args)
  {
    ghost var goal := rb.Contents() + EncodeArgs(args);
    var i := 0;
    assert args[0..] == args;
    while i < |args|
      invariant 0 <= i <= |args| && rb.Valid()
      invariant rb.Contents() + EncodeArgs(args[i..]) == goal
    {
      NextArg(rb.Contents(), args, i);
      WriteBulk(rb, args[i]);
      i := i + 1;
    }
  }

  /** `add_array_reply`: the queue grows by the encoding of the command. */
  method AddArrayReply(rb: RingBuffer, args: seq<Bytes>)
    requires rb.Valid() && |EncodeCommand(args)| < rb.WritableLen()
    modifies rb`writeIndex, rb.region
    ensures rb.Valid() && rb.Contents() == old(rb.Contents()) + EncodeCommand(args)
  {
    CommandParts(rb.Contents(), args);
    WriteBeginArray(rb, |args|);
    WriteArgs(rb, args);
  }

  lemma {:induction false} CommandParts(before: Bytes, args: seq<Bytes>)
    ensures var header := [42] + Show(|args|) + CRLF;
      && (before + header) + EncodeArgs(args) == before + EncodeCommand(args)
      && |EncodeCommand(args)| == |header| + |EncodeArgs(args)|
  {
  }
}

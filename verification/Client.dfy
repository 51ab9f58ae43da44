/** The input side of a client: socket bytes go through the ring buffer to the parser. */
module Clients {
  import opened Decimal
  import opened Handler
  import opened Seals
  import opened Stream
  import opened Resp
  import opened RingBuffers
  import opened CommandHandlers
  import opened Parsers

  /** Reading `chunks` takes the feed from `f` to `f'`; looked into only where a continuation is named. */
  ghost predicate FedBy(f: Feed<PState>, chunks: seq<Bytes>, f': Feed<PState>)
    requires StackOk(f.p.stack)
  {
    forall t: Bytes {:trigger Opened(t)} :: Opened(t) ==> f' == (ParserSound(); ReadAll(Parser(), f, chunks))
  }

  lemma {:induction false} FedNothing(f: Feed<PState>)
    requires StackOk(f.p.stack)
    ensures FedBy(f, [], f)
  {
    ParserSound();
  }

  lemma {:induction false} FedMore(f: Feed<PState>, chunks: seq<Bytes>, f': Feed<PState>, c: Bytes, f'': Feed<PState>)
    requires StackOk(f.p.stack) && StackOk(f'.p.stack)
    requires FedBy(f, chunks, f') && FedBy(f', [c], f'')
    ensures FedBy(f, chunks + [c], f'')
  {
    ParserSound();
    assert Opened(c);
    OneMoreChunk(Parser(), f, chunks, c);
    OneMoreChunk(Parser(), f', [], c);
    assert [] + [c] == [c];
  }

  lemma {:induction false} WaitingUses(p: PState, s: Bytes)
    requires StackOk(p.stack)
    ensures var o := (ParserSound(); Run(Parser(), p, s)); o.ending == Waiting ==> o.used <= |s|
  {
    ParserSound();
  }

  class Client {
    const input: RingBuffer
    const parser: RespParser
    var ending: Ending

    constructor (ch: CommandHandler, size: nat)
      requires size > 0
      ensures Valid() && fresh(input) && fresh(input.region) && fresh(parser) && fresh(parser.stack) && parser.ch == ch
      ensures FeedState() == Feed(Init(ch.State()), [], Waiting) && input.size == size
    {
      input := new RingBuffer(size);
      parser := new RespParser(ch);
      ending := Waiting;
    }

    predicate Valid()
      reads this, input, parser, parser.stack
    {
      input.Valid() && parser.Valid()
    }

    /** The parser, the bytes it has not consumed, and how its last run ended. */
    function FeedState(): Feed<PState>
      requires Valid()
      reads this, input, input.region, parser, parser.stack, parser.ch
    {
      Feed(parser.State(), if ending == Waiting then input.Contents() else [], ending)
    }

    /** The parser runs over the readable view. */
    method ParseView() returns (used: nat)
      requires Valid()
      modifies this`ending, parser, parser.stack, parser.ch
      ensures Valid()
      ensures (ParserSound(); Run(Parser(), old(parser.State()), input.Contents()))
        == Outcome(parser.State(), used, ending)
    {
      var ptr, len := input.Readable();
      var view := Window(input.region[..], ptr, len);
      assert view == input.Contents();
      used, ending := parser.Parse(view);
    }

    /** What the parser used is dropped from the queue. */
    method ParseQueued()
      requires Valid()
      modifies this`ending, input`readIndex, parser, parser.stack, parser.ch
      ensures Valid()
      ensures var s := old(input.Contents());
        var o := (ParserSound(); Run(Parser(), old(parser.State()), s));
        FeedState() == Feed(o.p, if o.ending == Waiting then s[o.used..] else [], o.ending)
    {
      ghost var p, s := parser.State(), input.Contents();
      var used := ParseView();
      WaitingUses(p, s);
      ghost var p' := parser.State();
      var err := input.Read(used);
      assert parser.State() == p';
    }

    /** One read from the socket: the bytes are queued, then parsed. */
    method Receive(chunk: Bytes)
      requires Valid() && ending == Waiting && |chunk| <= input.WritableLen()
      modifies this, input, input.region, parser, parser.stack, parser.ch
      ensures Valid()
      ensures FeedState() == (ParserSound(); Read(Parser(), old(FeedState()), chunk))
    {
      ghost var p := parser.State();
      var err := input.Append(chunk);
      assert parser.State() == p;
      ParseQueued();
    }

    /** The replication state is set from outside the parser. */
    method SetRepl(st: Repl)
      requires Valid()
      modifies parser.ch
      ensures Valid() && FeedState() == WithReplState(old(FeedState()), st)
    {
      ghost var h, left := parser.ch.State(), input.Contents();
      parser.ch.SetRepl(st);
      assert input.Contents() == left;
    }

    /**
     `process_client_input` on the bytes that wait in the socket: reads of up to the writable length,
     each followed by a parse, until a read does not fill the buffer or the input cannot go on.
     */
    method ProcessInput(socket: Bytes) returns (rest: Bytes, ghost chunks: seq<Bytes>)
      requires Valid() && ending == Waiting
      modifies this, input, input.region, parser, parser.stack, parser.ch
      ensures Valid() && socket == Concat(chunks) + rest
      ensures FeedState() == (ParserSound(); ReadAll(Parser(), old(FeedState()), chunks))
      ensures rest == [] || ending != Waiting || input.WritableLen() == 0
    {
      rest, chunks := socket, [];
      FedNothing(FeedState());
      while ending == Waiting && input.WritableLen() > 0 && rest != []
        invariant Valid() && socket == Concat(chunks) + rest
        invariant FedBy(old(FeedState()), chunks, FeedState())
        decreases |rest|
      {
        ghost var f := FeedState();
        var n := ReceiveSome(rest);
        FedMore(old(FeedState()), chunks, f, rest[..n], FeedState());
        ConcatMore(chunks, rest, n);
        rest, chunks := rest[n..], chunks + [rest[..n]];
      }
      assert Opened<Bytes>([]);
    }

    method ReceiveSome(rest: Bytes) returns (n: nat)
      requires Valid() && ending == Waiting && input.WritableLen() > 0 && rest != []
      modifies this, input, input.region, parser, parser.stack, parser.ch
      ensures Valid() && 0 < n <= |rest|
      ensures FedBy(old(FeedState()), [rest[..n]], FeedState())
    {
      n := if |rest| < input.WritableLen() then |rest| else input.WritableLen();
      ghost var f := FeedState();
      Receive(rest[..n]);
      FedOnce(f, rest[..n], FeedState());
    }
  }

  lemma {:induction false} FedOnce(f: Feed<PState>, c: Bytes, f': Feed<PState>)
    requires StackOk(f.p.stack) && f' == (ParserSound(); Read(Parser(), f, c))
    ensures FedBy(f, [c], f')
  {
    ParserSound();
    OneMoreChunk(Parser(), f, [], c);
    assert [] + [c] == [c];
  }

  lemma {:induction false} ConcatMore(chunks: seq<Bytes>, rest: Bytes, n: nat)
    requires n <= |rest|
    ensures Concat(chunks + [rest[..n]]) + rest[n..] == Concat(chunks) + rest
  {
    assert (chunks + [rest[..n]])[..|chunks|] == chunks;
  }
}

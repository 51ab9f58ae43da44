/** The replica's connection object, its event handler proved against the handshake machine. */
module Replicas {
  import opened Decimal
  import opened Handler
  import opened Stream
  import opened Resp
  import opened RingBuffers
  import opened Clients
  import opened Handshake

  class ReplicaLink {
    const client: Client
    var sent: seq<Sent>

    constructor (client: Client)
      ensures this.client == client && sent == []
    {
      this.client := client;
      sent := [];
    }

    function State(): Replica
      requires client.Valid()
      reads this, client, client.input, client.input.region, client.parser, client.parser.stack, client.parser.ch
    {
      Replica(client.FeedState(), sent)
    }

    /** `send_*_command`: the command goes out and the state moves to `st`. */
    method SendCommand(cmd: seq<Bytes>, st: Repl)
      requires client.Valid()
      modifies this, client.parser.ch
      ensures client.Valid() && State() == Send(old(State()), cmd, st)
    {
      sent := sent + [Sent(cmd, |client.parser.ch.replies|)];
      client.SetRepl(st);
    }

    /** The search for the CRLF that ends the snapshot header. */
    static method FindHeaderEnd(s: Bytes) returns (e: nat)
      ensures e == HeaderEnd(s, 0)
    {
      var i := 0;
      while i + 1 < |s|
        invariant HeaderEnd(s, i) == HeaderEnd(s, 0)
      {
        if s[i] == CR && s[i + 1] == LF { return i + 2; }
        i := i + 1;
      }
      return 0;
    }

    /** The snapshot header in the full resync state. */
    method TakeHeader(ghost e: Event, script: seq<seq<Bytes>>)
      requires client.Valid() && client.parser.ch.repl == FullResync && |script| == 4
      modifies this, client.input, client.parser.ch
      ensures client.Valid() && State() == HandleOther(old(State()), e, script)
    {
      if client.ending != Waiting { return; }
      var ptr, len := client.input.Readable();
      var view := Window(client.input.region[..], ptr, len);
      assert view == client.input.Contents();
      if len < 4 { return; }
      var end := FindHeaderEnd(view);
      if end == 0 { return; }
      ghost var p := client.parser.State();
      var err := client.input.Read(end);
      assert client.parser.State() == p;
      client.SetRepl(ReceivingRdb);
    }

    /** The states in which nothing is read from the master. */
    method HandleQuietly(ghost e: Event, snapshotDone: bool, script: seq<seq<Bytes>>)
      requires client.Valid() && |script| == 4 && e.snapshotDone == snapshotDone
      modifies this, client.input, client.parser.ch
      ensures client.Valid() && State() == HandleOther(old(State()), e, script)
    {
      match client.parser.ch.repl
      case Connecting => SendCommand(script[0], SentPing);
      case ReceivedPong => SendCommand(script[1], SentPort);
      case PortOk => SendCommand(script[2], SentCapa);
      case CapaOk => SendCommand(script[3], SentPsync);
      case FullResync => TakeHeader(e, script);
      case ReceivingRdb => if snapshotDone { client.SetRepl(Ready); }
      case _ =>
    }

    /** `replica_handle_master_data` */
    method HandleMasterData(socket: Bytes, snapshotDone: bool, script: seq<seq<Bytes>>)
      returns (rest: Bytes, ghost chunks: seq<Bytes>)
      requires client.Valid() && |script| == 4
      modifies this, client, client.input, client.input.region, client.parser, client.parser.stack, client.parser.ch
      ensures client.Valid() && State() == Handle(old(State()), Event(chunks, snapshotDone), script)
    {
      var st := client.parser.ch.repl;
      if Awaiting(st) || st == Ready {
        rest, chunks := ReadInput(socket);
      } else {
        rest, chunks := socket, [];
        HandleQuietly(Event(chunks, snapshotDone), snapshotDone, script);
      }
    }

    method ReadInput(socket: Bytes) returns (rest: Bytes, ghost chunks: seq<Bytes>)
      requires client.Valid()
      modifies client, client.input, client.input.region, client.parser, client.parser.stack, client.parser.ch
      ensures client.Valid()
      ensures State() == old(State()).(f := (ParserSound(); ReadAll(Parser(), old(State()).f, chunks)))
    {
      ParserSound();
      if client.ending != Waiting { return socket, []; }
      rest, chunks := client.ProcessInput(socket);
    }
  }
}

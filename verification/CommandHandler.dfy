/** The command handler object, each callback proved against its function on the handler state. */
module CommandHandlers {
  import opened Decimal
  import opened Handler

  class CommandHandler {
    var buf: Bytes
    var bufSize: nat
    var ends: seq<nat>
    var commands: seq<seq<Bytes>>
    var replies: seq<Bytes>
    var isMaster: bool
    var repl: Repl
    /** Whether a copy has gone past the end of the buffer. */
    var spilled: bool

    constructor (bufSize: nat, isMaster: bool, repl: Repl)
      ensures State() == HState([], bufSize, [], [], [], isMaster, repl, false)
    {
      this.buf, this.bufSize, this.ends, this.commands, this.replies := [], bufSize, [], [], [];
      this.isMaster, this.repl, this.spilled := isMaster, repl, false;
    }

    function State(): HState
      reads this
    {
      HState(buf, bufSize, ends, commands, replies, isMaster, repl, spilled)
    }

    method SetRepl(st: Repl)
      modifies this`repl
      ensures State() == old(State()).(repl := st)
    {
      repl := st;
    }

    method OnBeginArray()
      modifies this
      ensures State() == BeginArray(old(State()))
    {
      buf, ends := [], [];
    }

    /** Splits the buffer at the recorded ends and executes the command. */
    method OnEndArray()
      modifies this
      ensures State() == EndArray(old(State()))
    {
      var args: seq<Bytes>, begin: nat := [], 0;
      for i := 0 to |ends|
        invariant State() == old(State())
        invariant begin == if i == 0 then 0 else ends[i - 1]
        invariant args == SplitFrom(buf, 0, ends[..i])
      {
        SplitSnoc(buf, 0, ends[..i], ends[i]);
        assert ends[..i + 1] == ends[..i] + [ends[i]];
        args := args + [Cut(buf, begin, ends[i])];
        begin := ends[i];
      }
      assert ends[..|ends|] == ends;
      commands := commands + [args];
    }

    /** Reserves room for the announced argument: a copy of that many bytes stays within the buffer. */
    method OnBeginBulk(len: int)
      modifies this
      ensures State() == BeginBulk(old(State()), len)
      ensures |buf| + len <= bufSize && bufSize >= old(bufSize) && buf == old(buf)
    {
      if |buf| + len > bufSize { bufSize := |buf| + len; }
    }

    method OnEndBulk()
      modifies this
      ensures State() == EndBulk(old(State()))
    {
      ends := ends + [|buf|];
    }

    method OnChars(cs: Bytes)
      modifies this
      ensures State() == Chars(old(State()), cs)
    {
      spilled := spilled || (cs != [] && |buf| + |cs| > bufSize);
      buf := buf + cs;
    }

    method OnBeginSimple()
      modifies this
      ensures State() == BeginSimple(old(State()))
    {
      buf := [];
    }

    method OnEndSimple()
      modifies this
      ensures State() == EndSimple(old(State()))
    {
      if |buf| < bufSize {
        replies := replies + [buf];
        if isMaster { OnReply(); }
      } else {
        repl := Error;
      }
    }

    /** `handle_simple_string_reply` on a connection to a master. */
    method OnReply()
      modifies this`repl
      ensures repl == AfterReply(old(repl), buf)
    {
      var reply := CStr(buf);
      if repl == SentPing {
        repl := if reply == PONG then ReceivedPong else Error;
      } else if repl == SentPort {
        repl := if reply == OK then PortOk else Error;
      } else if repl == SentCapa {
        repl := if reply == OK then CapaOk else Error;
      } else if repl == SentPsync {
        repl := if FULLRESYN <= reply then FullResync else Error;
      }
    }
  }
}

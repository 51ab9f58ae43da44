/**
 The command handler behind the parser: it collects argument bytes, splits them into a command
 when an array ends, and, for a connection to a master, drives the replica's handshake state
 from the simple strings it receives.
 */
module Handler {
  import opened Decimal

  /** `ReplicaClientState`, in the order of the enumeration. */
  datatype Repl =
    | NoRepl | Connecting | SentPing | ReceivedPong | SentPort | PortOk | SentCapa | CapaOk
    | SentPsync | FullResync | ReceivingRdb | Ready | Error
  {
    function Rank(): nat {
      match this
      case NoRepl => 0 case Connecting => 1 case SentPing => 2 case ReceivedPong => 3
      case SentPort => 4 case PortOk => 5 case SentCapa => 6 case CapaOk => 7
      case SentPsync => 8 case FullResync => 9 case ReceivingRdb => 10 case Ready => 11 case Error => 12
    }
  }

  /**
   `buf` is the used part of the character buffer and `ends` the recorded argument ends;
   `commands` and `replies` log the commands executed and the simple strings received, and `spilled`
   whether a copy has gone past the end of the buffer.
   */
  datatype HState = HState(buf: Bytes, bufSize: nat, ends: seq<nat>, commands: seq<seq<Bytes>>,
                           replies: seq<Bytes>, isMaster: bool, repl: Repl, spilled: bool)

  /** The string a C function sees in `b`: everything before the first NUL. */
  function CStr(b: Bytes): (r: Bytes)
    ensures 0 !in r
    ensures 0 !in b ==> r == b
  {
    if b == [] || b[0] == 0 then [] else [b[0]] + CStr(b[1..])
  }

  /** It is the part up to the first NUL, or all of it. */
  lemma {:induction false} CStrIsPrefix(b: Bytes)
    ensures var n := |CStr(b)|; n <= |b| && CStr(b) == b[..n] && 0 !in b[..n] && (n < |b| ==> b[n] == 0)
    decreases |b|
  {
    if b != [] && b[0] != 0 {
      CStrIsPrefix(b[1..]);
      assert b == [b[0]] + b[1..];
    }
  }

  const PONG: Bytes := [80, 79, 78, 71]
  const OK: Bytes := [79, 75]
  const FULLRESYN: Bytes := [70, 85, 76, 76, 82, 69, 83, 89, 78]

  /** `handle_simple_string_reply`: the next handshake state after the reply `r`. */
  function AfterReply(st: Repl, r: Bytes): Repl {
    match st
    case SentPing => if CStr(r) == PONG then ReceivedPong else Error
    case SentPort => if CStr(r) == OK then PortOk else Error
    case SentCapa => if CStr(r) == OK then CapaOk else Error
    case SentPsync => if FULLRESYN <= CStr(r) then FullResync else Error
    case _ => st
  }

  // ------------------------------------------------- splitting the buffer at the ends

  function Cut(buf: Bytes, a: nat, b: nat): Bytes {
    if a <= b <= |buf| then buf[a..b] else []
  }

  /** The arguments that end at `ends`, the first starting at `from`. */
  function SplitFrom(buf: Bytes, from: nat, ends: seq<nat>): (r: seq<Bytes>)
    ensures |r| == |ends|
    decreases |ends|
  {
    if ends == [] then [] else [Cut(buf, from, ends[0])] + SplitFrom(buf, ends[0], ends[1..])
  }

  function Split(buf: Bytes, ends: seq<nat>): seq<Bytes> { SplitFrom(buf, 0, ends) }

  // ------------------------------------------------------------- the handler callbacks

  function BeginArray(h: HState): HState { h.(buf := [], ends := []) }

  function EndArray(h: HState): HState { h.(commands := h.commands + [Split(h.buf, h.ends)]) }

  function BeginBulk(h: HState, len: int): HState {
    if |h.buf| + len > h.bufSize then h.(bufSize := |h.buf| + len) else h
  }

  function EndBulk(h: HState): HState { h.(ends := h.ends + [|h.buf|]) }

  function Chars(h: HState, cs: Bytes): HState {
    h.(buf := h.buf + cs, spilled := h.spilled || (cs != [] && |h.buf| + |cs| > h.bufSize))
  }

  function BeginSimple(h: HState): HState { h.(buf := []) }

  function EndSimple(h: HState): HState {
    if |h.buf| < h.bufSize then
      h.(replies := h.replies + [h.buf], repl := if h.isMaster then AfterReply(h.repl, h.buf) else h.repl)
    else h.(repl := Error)
  }

  /** The callbacks for one bulk string argument. */
  function AddArg(h: HState, arg: Bytes): HState {
    EndBulk(Chars(BeginBulk(h, |arg|), arg))
  }

  function AddArgs(h: HState, args: seq<Bytes>): HState
    decreases |args|
  {
    if args == [] then h else AddArgs(AddArg(h, args[0]), args[1..])
  }

  // ----------------------------------------------------------------------- lemmas

  lemma {:induction false} SplitAppend(buf: Bytes, from: nat, ends: seq<nat>, arg: Bytes)
    requires forall i :: 0 <= i < |ends| ==> ends[i] <= |buf|
    requires (if ends == [] then from else ends[|ends| - 1]) == |buf|
    ensures SplitFrom(buf + arg, from, ends + [|buf| + |arg|]) == SplitFrom(buf, from, ends) + [arg]
    decreases |ends|
  {
    var e := |buf| + |arg|;
    if ends == [] {
      assert SplitFrom(buf + arg, from, [e]) == [Cut(buf + arg, from, e)] + SplitFrom(buf + arg, e, []);
      assert (buf + arg)[|buf|..e] == arg;
    } else {
      assert (ends + [e])[1..] == ends[1..] + [e];
      assert Cut(buf + arg, from, ends[0]) == Cut(buf, from, ends[0]) by {
        if from <= ends[0] { assert (buf + arg)[from..ends[0]] == buf[from..ends[0]]; }
      }
      SplitAppend(buf, ends[0], ends[1..], arg);
    }
  }

  lemma {:induction false} SplitSnoc(buf: Bytes, from: nat, ends: seq<nat>, e: nat)
    ensures SplitFrom(buf, from, ends + [e])
         == SplitFrom(buf, from, ends) + [Cut(buf, if ends == [] then from else ends[|ends| - 1], e)]
    decreases |ends|
  {
    if ends == [] {
      assert SplitFrom(buf, from, [e]) == [Cut(buf, from, e)] + SplitFrom(buf, e, []);
    } else {
      assert (ends + [e])[1..] == ends[1..] + [e];
      SplitSnoc(buf, ends[0], ends[1..], e);
    }
  }

  /** The recorded ends run up to the used length. */
  ghost predicate Aligned(h: HState) {
    && (forall i :: 0 <= i < |h.ends| ==> h.ends[i] <= |h.buf|)
    && (if h.ends == [] then 0 else h.ends[|h.ends| - 1]) == |h.buf|
  }

  /** Nothing but the argument buffer differs. */
  ghost predicate SameLog(h: HState, h': HState) {
    && h'.commands == h.commands && h'.replies == h.replies && h'.isMaster == h.isMaster && h'.repl == h.repl
    && h'.spilled == h.spilled
  }

  lemma {:induction false} AddArgSplit(h: HState, arg: Bytes)
    requires Aligned(h)
    ensures var h' := AddArg(h, arg);
      Aligned(h') && SameLog(h, h') && Split(h'.buf, h'.ends) == Split(h.buf, h.ends) + [arg]
  {
    SplitAppend(h.buf, 0, h.ends, arg);
  }

  /** Each argument that arrives is split off again, after the ones before it. */
  lemma {:induction false} AddArgsSplit(h: HState, args: seq<Bytes>)
    requires Aligned(h)
    ensures var h' := AddArgs(h, args);
      Aligned(h') && SameLog(h, h') && Split(h'.buf, h'.ends) == Split(h.buf, h.ends) + args
    decreases |args|
  {
    if args != [] {
      AddArgSplit(h, args[0]);
      AddArgsSplit(AddArg(h, args[0]), args[1..]);
      assert [args[0]] + args[1..] == args;
    }
  }

  /** One whole command passing through the handler is logged with exactly its arguments. */
  lemma {:induction false} CommandLogged(h: HState, args: seq<Bytes>)
    ensures var h' := EndArray(AddArgs(BeginArray(h), args));
      SameLog(h.(commands := h.commands + [args]), h')
  {
    AddArgsSplit(BeginArray(h), args);
    assert [] + args == args;
  }
}

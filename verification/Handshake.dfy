/**
 The replica's handshake with its master: a state machine driven by socket events, over the same
 parser and handler that serve clients.
 */
module Handshake {
  import opened Decimal
  import opened Handler
  import opened Stream
  import opened Resp
  import opened RoundTrip

  /** The commands of the handshake in the order they must go out. */
  function Script(port: Bytes): (r: seq<seq<Bytes>>)
    ensures |r| == 4
  {
    [[Text("PING")],
     [Text("REPLCONF"), Text("listening-port"), port],
     [Text("REPLCONF"), Text("capa"), Text("psync2")],
     [Text("PSYNC"), Text("?"), Text("-1")]]
  }

  /** Whether `reply` is the answer that command `i` of the script needs. */
  predicate Expected(i: nat, reply: Bytes) {
    match i
    case 0 => CStr(reply) == PONG
    case 1 => CStr(reply) == OK
    case 2 => CStr(reply) == OK
    case 3 => FULLRESYN <= CStr(reply)
    case _ => false
  }

  /** A command on its way, with the number of replies received before it was sent. */
  datatype Sent = Sent(cmd: seq<Bytes>, seen: nat)

  /** The replica's view of the connection: parser, unconsumed bytes, commands sent. */
  datatype Replica = Replica(f: Feed<PState>, sent: seq<Sent>)

  /** One readiness event: the pieces that can be read now, and whether a snapshot transfer finishes. */
  datatype Event = Event(chunks: seq<Bytes>, snapshotDone: bool)

  function WithRepl(r: Replica, st: Repl): Replica {
    r.(f := WithReplState(r.f, st))
  }

  function Send(r: Replica, cmd: seq<Bytes>, st: Repl): Replica {
    WithRepl(r, st).(sent := r.sent + [Sent(cmd, |r.f.p.h.replies|)])
  }

  /** The end of the snapshot header `$<length>\r\n` in `s`, or 0 if it is not complete. */
  function HeaderEnd(s: Bytes, i: nat): (e: nat)
    ensures e <= |s|
    decreases |s| - i
  {
    if i + 1 >= |s| then 0
    else if s[i] == CR && s[i + 1] == LF then i + 2
    else HeaderEnd(s, i + 1)
  }

  predicate Awaiting(st: Repl) { st == SentPing || st == SentPort || st == SentCapa || st == SentPsync }

  /** The states in which the replica does not read replies or commands. */
  function HandleOther(r: Replica, e: Event, script: seq<seq<Bytes>>): (r': Replica)
    requires |script| == 4
    ensures r'.f.p.stack == r.f.p.stack
  {
    match r.f.p.h.repl
    case Connecting => Send(r, script[0], SentPing)
    case ReceivedPong => Send(r, script[1], SentPort)
    case PortOk => Send(r, script[2], SentCapa)
    case CapaOk => Send(r, script[3], SentPsync)
    case FullResync =>
      var end := HeaderEnd(r.f.left, 0);
      if |r.f.left| < 4 || end == 0 then r
      else WithRepl(r.(f := r.f.(left := r.f.left[end..])), ReceivingRdb)
    case ReceivingRdb => if e.snapshotDone then WithRepl(r, Ready) else r
    case _ => r
  }

  /** `replica_handle_master_data` */
  function Handle(r: Replica, e: Event, script: seq<seq<Bytes>>): (r': Replica)
    requires StackOk(r.f.p.stack) && |script| == 4
    ensures StackOk(r'.f.p.stack)
  {
    if Awaiting(r.f.p.h.repl) || r.f.p.h.repl == Ready then
      ParserSound();
      r.(f := ReadAll(Parser(), r.f, e.chunks))
    else HandleOther(r, e, script)
  }

  function HandleAll(r: Replica, es: seq<Event>, script: seq<seq<Bytes>>): (r': Replica)
    requires StackOk(r.f.p.stack) && |script| == 4
    ensures StackOk(r'.f.p.stack)
  {
    if es == [] then r else Handle(HandleAll(r, es[..|es| - 1], script), es[|es| - 1], script)
  }

  // ------------------------------------------ what the parser can do to the handshake

  function AfterAll(st: Repl, rs: seq<Bytes>): Repl {
    if rs == [] then st else AfterReply(AfterAll(st, rs[..|rs| - 1]), rs[|rs| - 1])
  }

  /** The handshake state moves only by the replies logged, or to the error state. */
  ghost predicate Evolves(h: HState, h': HState) {
    && h'.isMaster == h.isMaster && h.replies <= h'.replies
    && (h'.repl == Error || h'.repl == AfterAll(h.repl, h'.replies[|h.replies|..]))
  }

  lemma {:induction false} AfterOneMore(st: Repl, rs: seq<Bytes>, r: Bytes)
    ensures AfterAll(st, rs + [r]) == AfterReply(AfterAll(st, rs), r)
  {
    assert (rs + [r])[..|rs|] == rs;
  }

  lemma {:induction false} AfterAllConcat(st: Repl, rs: seq<Bytes>, ss: seq<Bytes>)
    ensures AfterAll(st, rs + ss) == AfterAll(AfterAll(st, rs), ss)
    decreases |ss|
  {
    if ss == [] {
      assert rs + ss == rs;
    } else {
      var n := |ss| - 1;
      var init, r := ss[..n], ss[n];
      assert rs + ss == (rs + init) + [r] && ss == init + [r];
      AfterOneMore(st, rs + init, r);
      AfterOneMore(AfterAll(st, rs), init, r);
      AfterAllConcat(st, rs, init);
    }
  }

  lemma {:induction false} ErrorStays(rs: seq<Bytes>)
    ensures AfterAll(Error, rs) == Error
    decreases |rs|
  {
    if rs != [] { ErrorStays(rs[..|rs| - 1]); }
  }

  lemma {:induction false} EvolvesTransitive(h: HState, h': HState, h'': HState)
    requires Evolves(h, h') && Evolves(h', h'')
    ensures Evolves(h, h'')
  {
    var rs, ss := h'.replies[|h.replies|..], h''.replies[|h'.replies|..];
    assert h''.replies[|h.replies|..] == rs + ss;
    AfterAllConcat(h.repl, rs, ss);
    ErrorStays(ss);
  }

  lemma {:induction false} EvolvesEnd(h: HState)
    requires h.isMaster
    ensures Evolves(h, EndSimple(h))
  {
    var h' := EndSimple(h);
    if |h.buf| < h.bufSize {
      assert h'.replies[|h.replies|..] == [h.buf];
      assert AfterAll(h.repl, [h.buf]) == AfterReply(AfterAll(h.repl, []), h.buf);
    }
  }

  /** Nothing of the handshake differs. */
  ghost predicate Quiet(h: HState, h': HState) {
    h'.isMaster == h.isMaster && h'.replies == h.replies && h'.repl == h.repl
  }

  lemma {:induction false} EvolvesSame(h: HState, h': HState)
    requires Quiet(h, h')
    ensures Evolves(h, h')
  {
    assert h'.replies[|h.replies|..] == [];
  }

  lemma {:induction false} AddArgsQuiet(h: HState, args: seq<Bytes>)
    ensures Quiet(h, AddArgs(h, args))
    decreases |args|
  {
    if args != [] { AddArgsQuiet(AddArg(h, args[0]), args[1..]); }
  }

  lemma {:induction false} InlineQuiet(p: PState, s: Bytes)
    ensures Quiet(p.h, StepInline(p, s).p.h)
  {
    if Find(s, CR) < |s| { AddArgsQuiet(BeginArray(p.h), Tokens(s[..Find(s, CR)], 0)); }
  }

  lemma {:induction false} OthersQuiet(p: PState, s: Bytes)
    requires StackOk(p.stack) && !Top(p.stack).Simple?
    ensures Quiet(p.h, Step(p, s).p.h)
  {
    match Top(p.stack)
    case Inline => InlineQuiet(p, s);
    case _ =>
  }

  lemma {:induction false} SimpleEvolves(p: PState, s: Bytes, kind: SimpleKind)
    requires p.h.isMaster
    ensures Evolves(p.h, StepSimple(p, s, kind).p.h)
  {
    var r, h := StepSimple(p, s, kind), Chars(p.h, s[..Find(s, CR)]);
    EvolvesSame(p.h, h);
    EvolvesEnd(h);
    EvolvesTransitive(p.h, h, EndSimple(h));
    EvolvesSame(p.h, p.h);
  }

  lemma {:induction false} RoundEvolves(p: PState, s: Bytes)
    requires StackOk(p.stack) && p.h.isMaster
    ensures Evolves(p.h, Round(p, s).p.h)
  {
    if Gate(p.h) {
      EvolvesSame(p.h, p.h);
    } else if Top(p.stack).Simple? {
      SimpleEvolves(p, s, Top(p.stack).kind);
    } else {
      OthersQuiet(p, s);
      EvolvesSame(p.h, Step(p, s).p.h);
    }
  }

  lemma {:induction false} RunEvolves(m: Machine<PState>, p: PState, s: Bytes)
    requires m == Parser() && Sound(m) && StackOk(p.stack) && p.h.isMaster
    ensures Evolves(p.h, Run(m, p, s).p.h)
    decreases |s|, WeightOf(p)
  {
    var r := m.step(p, s);
    assert r == Round(p, s);
    RoundEvolves(p, s);
    if Continues(r, s) {
      RunGo(m, p, s, r);
      RunEvolves(m, r.p, s[r.used..]);
      EvolvesTransitive(p.h, r.p.h, Run(m, p, s).p.h);
    }
  }

  lemma {:induction false} ReadAllEvolves(m: Machine<PState>, f: Feed<PState>, chunks: seq<Bytes>)
    requires m == Parser() && Sound(m) && StackOk(f.p.stack) && f.p.h.isMaster
    ensures Evolves(f.p.h, ReadAll(m, f, chunks).p.h)
    decreases |chunks|
  {
    if chunks == [] {
      EvolvesSame(f.p.h, f.p.h);
    } else {
      var n := |chunks| - 1;
      var g := ReadAll(m, f, chunks[..n]);
      ReadAllEvolves(m, f, chunks[..n]);
      if g.ending == Waiting {
        RunEvolves(m, g.p, g.left + chunks[n]);
        EvolvesTransitive(f.p.h, g.p.h, ReadAll(m, f, chunks).p.h);
      }
    }
  }

  // -------------------------------------------------------------- the run invariant

  /** How many commands of the script are out in each state, and how many replies have come. */
  function SentCount(st: Repl): nat {
    match st
    case NoRepl => 0 case Connecting => 0
    case SentPing => 1 case ReceivedPong => 1
    case SentPort => 2 case PortOk => 2
    case SentCapa => 3 case CapaOk => 3
    case _ => 4
  }

  /** The commands sent are a prefix of the script, each but the last answered by the very next reply. */
  ghost predicate InOrder(sent: seq<Sent>, replies: seq<Bytes>, script: seq<seq<Bytes>>) {
    && |sent| <= |script|
    && (forall i :: 0 <= i < |sent| ==> sent[i].cmd == script[i] && sent[i].seen <= |replies|)
    && (forall i :: 0 <= i < |sent| - 1 ==> sent[i].seen < |replies| && Expected(i, replies[sent[i].seen]))
    && (forall i, j :: 0 <= i < j < |sent| ==> sent[i].seen < sent[j].seen)
  }

  /** The invariant of every run of the handshake. */
  ghost predicate HandshakeOk(r: Replica, script: seq<seq<Bytes>>) {
    var h := r.f.p.h;
    && |script| == 4 && StackOk(r.f.p.stack) && h.isMaster && h.repl != NoRepl
    && InOrder(r.sent, h.replies, script)
    && (h.repl != Error ==> |r.sent| == SentCount(h.repl))
    && LastOk(h.repl, r.sent, h.replies)
  }

  /** Where no reply is awaited, replies change nothing; where one is, the first decides. */
  lemma {:induction false} FirstReplyDecides(st: Repl, rs: seq<Bytes>)
    ensures AfterAll(st, rs) == if rs == [] then st else AfterReply(st, rs[0])
    decreases |rs|
  {
    if rs != [] {
      FirstReplyDecides(st, rs[..|rs| - 1]);
    }
  }

  lemma {:induction false} InOrderMoreReplies(sent: seq<Sent>, replies: seq<Bytes>, replies': seq<Bytes>,
      script: seq<seq<Bytes>>)
    requires InOrder(sent, replies, script) && replies <= replies'
    ensures InOrder(sent, replies', script)
  {
    forall i | 0 <= i < |sent| - 1 ensures sent[i].seen < |replies'| && Expected(i, replies'[sent[i].seen]) {
      assert replies'[sent[i].seen] == replies[sent[i].seen];
    }
  }

  lemma {:induction false} InOrderSend(sent: seq<Sent>, replies: seq<Bytes>, script: seq<seq<Bytes>>, k: nat)
    requires InOrder(sent, replies, script) && |sent| == k < |script|
    requires k > 0 ==> sent[k - 1].seen < |replies| && Expected(k - 1, replies[sent[k - 1].seen])
    ensures InOrder(sent + [Sent(script[k], |replies|)], replies, script)
  {
  }

  /** Sending the next command of the script, when its turn has come. */
  lemma {:induction false} SendKeeps(r: Replica, k: nat, st: Repl, script: seq<seq<Bytes>>)
    requires HandshakeOk(r, script) && k < 4 && |r.sent| == k
    requires Awaiting(st) && SentCount(st) == k + 1
    requires r.f.p.h.repl == Connecting || (r.f.p.h.repl != Error && !Awaiting(r.f.p.h.repl))
    ensures HandshakeOk(Send(r, script[k], st), script)
  {
    InOrderSend(r.sent, r.f.p.h.replies, script, k);
  }

  /**
   What the invariant says of the last command sent: its reply is still due, or came first after it and was
   as expected.
   */
  ghost predicate LastOk(st: Repl, sent: seq<Sent>, replies: seq<Bytes>) {
    && (Awaiting(st) ==> sent != [] && sent[|sent| - 1].seen == |replies|)
    && (st != Error && st != Connecting && !Awaiting(st) ==>
          && sent != [] && sent[|sent| - 1].seen < |replies|
          && Expected(|sent| - 1, replies[sent[|sent| - 1].seen]))
  }

  lemma {:induction false} LastKept(st: Repl, st': Repl, sent: seq<Sent>, replies: seq<Bytes>, replies': seq<Bytes>)
    requires LastOk(st, sent, replies) && (Awaiting(st) || st == Ready)
    requires |sent| == SentCount(st) && replies <= replies'
    requires st' == Error
          || st' == if replies' == replies then st else AfterReply(st, replies'[|replies|])
    ensures LastOk(st', sent, replies') && st'.Rank() >= st.Rank() && st' != NoRepl
    ensures st' != Error ==> |sent| == SentCount(st')
  {
    if replies' != replies && Awaiting(st) {
      ReplyComes(st, st', |sent| - 1, replies'[|replies|]);
    }
  }

  /** Reading input can only bring the awaited reply, or the error state. */
  lemma {:induction false} ReadKeeps(r: Replica, f': Feed<PState>, script: seq<seq<Bytes>>)
    requires HandshakeOk(r, script) && (Awaiting(r.f.p.h.repl) || r.f.p.h.repl == Ready)
    requires Evolves(r.f.p.h, f'.p.h) && StackOk(f'.p.stack)
    ensures HandshakeOk(r.(f := f'), script)
    ensures f'.p.h.repl.Rank() >= r.f.p.h.repl.Rank()
  {
    var h, h' := r.f.p.h, f'.p.h;
    InOrderMoreReplies(r.sent, h.replies, h'.replies, script);
    FirstNewReply(h, h');
    LastKept(h.repl, h'.repl, r.sent, h.replies, h'.replies);
  }

  lemma {:induction false} FirstNewReply(h: HState, h': HState)
    requires Evolves(h, h')
    ensures h'.replies == h.replies || |h.replies| < |h'.replies|
    ensures h'.repl == Error
         || h'.repl == if h'.replies == h.replies then h.repl else AfterReply(h.repl, h'.replies[|h.replies|])
  {
    var rs := h'.replies[|h.replies|..];
    FirstReplyDecides(h.repl, rs);
    assert h'.replies == h.replies + rs;
  }

  /** The first reply in an awaiting state is the expected one, or the state becomes the error state. */
  lemma {:induction false} ReplyComes(st: Repl, st': Repl, k: nat, reply: Bytes)
    requires Awaiting(st) && SentCount(st) == k + 1 && (st' == Error || st' == AfterReply(st, reply))
    ensures st'.Rank() >= st.Rank() && !Awaiting(st') && st' != NoRepl && st' != Connecting
    ensures st' != Error ==> Expected(k, reply) && SentCount(st') == k + 1
  {
  }

  /** What one event keeps: the invariant, the commands sent, and the direction of the state. */
  ghost predicate Advances(r: Replica, r': Replica, script: seq<seq<Bytes>>) {
    HandshakeOk(r', script) && r.sent <= r'.sent && r.f.p.h.repl.Rank() <= r'.f.p.h.repl.Rank()
  }

  lemma {:induction false} SendAdvances(r: Replica, k: nat, st: Repl, script: seq<seq<Bytes>>)
    requires HandshakeOk(r, script) && k < 4 && |r.sent| == k && r.f.p.h.repl.Rank() <= st.Rank()
    requires Awaiting(st) && SentCount(st) == k + 1
    requires r.f.p.h.repl == Connecting || (r.f.p.h.repl != Error && !Awaiting(r.f.p.h.repl))
    ensures Advances(r, Send(r, script[k], st), script)
  {
    SendKeeps(r, k, st, script);
  }

  /** The states in which the next command of the script is due, and the state it leads to. */
  predicate Due(st: Repl, k: nat, st': Repl) {
    || (st == Connecting && k == 0 && st' == SentPing) || (st == ReceivedPong && k == 1 && st' == SentPort)
    || (st == PortOk && k == 2 && st' == SentCapa) || (st == CapaOk && k == 3 && st' == SentPsync)
  }

  lemma {:induction false} DueIsSent(r: Replica, e: Event, script: seq<seq<Bytes>>, k: nat, st': Repl)
    requires |script| == 4 && Due(r.f.p.h.repl, k, st')
    ensures HandleOther(r, e, script) == Send(r, script[k], st')
  {
  }

  lemma {:induction false} SendOrStay(r: Replica, e: Event, script: seq<seq<Bytes>>)
    requires HandshakeOk(r, script) && !Awaiting(r.f.p.h.repl) && r.f.p.h.repl != Ready
    ensures Advances(r, HandleOther(r, e, script), script)
  {
    var st := r.f.p.h.repl;
    if st == Connecting || st == ReceivedPong || st == PortOk || st == CapaOk {
      var k := SentCount(st);
      var st' := if k == 0 then SentPing else if k == 1 then SentPort else if k == 2 then SentCapa else SentPsync;
      DueIsSent(r, e, script, k, st');
      SendAdvances(r, k, st', script);
    } else {
      StayKeeps(r, e, script);
    }
  }

  lemma {:induction false} StayKeeps(r: Replica, e: Event, script: seq<seq<Bytes>>)
    requires HandshakeOk(r, script)
    requires r.f.p.h.repl == FullResync || r.f.p.h.repl == ReceivingRdb || r.f.p.h.repl == Error
    ensures Advances(r, HandleOther(r, e, script), script)
  {
  }

  lemma {:induction false} HandleKeeps(r: Replica, e: Event, script: seq<seq<Bytes>>)
    requires HandshakeOk(r, script)
    ensures Advances(r, Handle(r, e, script), script)
  {
    if Awaiting(r.f.p.h.repl) || r.f.p.h.repl == Ready {
      ParserSound();
      ReadAllEvolves(Parser(), r.f, e.chunks);
      ReadKeeps(r, ReadAll(Parser(), r.f, e.chunks), script);
    } else {
      SendOrStay(r, e, script);
    }
  }

  lemma {:induction false} AdvancesThen(a: Replica, b: Replica, c: Replica, script: seq<seq<Bytes>>)
    requires Advances(a, b, script) && Advances(b, c, script)
    ensures Advances(a, c, script)
  {
  }

  lemma {:induction false} HandleAllNext(r: Replica, es: seq<Event>, script: seq<seq<Bytes>>, k: nat)
    requires StackOk(r.f.p.stack) && |script| == 4 && k < |es|
    ensures HandleAll(r, es[..k + 1], script) == Handle(HandleAll(r, es[..k], script), es[k], script)
  {
    assert es[..k + 1][..k] == es[..k];
  }

  lemma {:induction false} RunKeeps(r: Replica, es: seq<Event>, script: seq<seq<Bytes>>, k: nat)
    requires HandshakeOk(r, script) && k <= |es|
    ensures Advances(HandleAll(r, es[..k], script), HandleAll(r, es, script), script)
    decreases |es| - k
  {
    RunOk(r, es[..k], script);
    if k == |es| {
      assert es[..k] == es;
    } else {
      HandleKeeps(HandleAll(r, es[..k], script), es[k], script);
      HandleAllNext(r, es, script, k);
      RunKeeps(r, es, script, k + 1);
      AdvancesThen(HandleAll(r, es[..k], script), HandleAll(r, es[..k + 1], script), HandleAll(r, es, script), script);
    }
  }

  lemma {:induction false} RunOk(r: Replica, es: seq<Event>, script: seq<seq<Bytes>>)
    requires HandshakeOk(r, script)
    ensures HandshakeOk(HandleAll(r, es, script), script)
    decreases |es|
  {
    if es != [] {
      var n := |es| - 1;
      RunOk(r, es[..n], script);
      HandleKeeps(HandleAll(r, es[..n], script), es[n], script);
    }
  }

  /** A fresh connection to a master. */
  function Fresh(h: HState): Replica { Replica(Feed(Init(h), [], Waiting), []) }

  /**
   Safety of every run: from a fresh connection, after any events, the commands sent are the script's
   first ones, each sent once and only after the very next reply to the one before was as expected;
   and from any point of the run on, nothing sent is taken back, the state never moves back, and the
   error state stays.
   */
  lemma {:induction false} HandshakeSafety(h: HState, es: seq<Event>, port: Bytes, k: nat)
    requires h.isMaster && h.repl == Connecting && k <= |es|
    ensures var rk, r := HandleAll(Fresh(h), es[..k], Script(port)), HandleAll(Fresh(h), es, Script(port));
      && InOrder(r.sent, r.f.p.h.replies, Script(port))
      && rk.sent <= r.sent
      && rk.f.p.h.repl.Rank() <= r.f.p.h.repl.Rank()
      && (rk.f.p.h.repl == Error ==> r.f.p.h.repl == Error)
  {
    FreshOk(h, port);
    RunKeeps(Fresh(h), es, Script(port), k);
  }

  lemma {:induction false} FreshOk(h: HState, port: Bytes)
    requires h.isMaster && h.repl == Connecting
    ensures HandshakeOk(Fresh(h), Script(port))
  {
  }

  // ------------------------------------------------------- the full resync line

  /** In the full resync state the parser leaves every byte alone. */
  lemma {:induction false} GateConsumesNothing(m: Machine<PState>, p: PState, s: Bytes)
    requires IsParser(m) && StackOk(p.stack) && Gate(p.h)
    ensures m.ok(p) && Run(m, p, s) == Outcome(p, 0, Waiting)
  {
    assert Round(p, s) == Stop(p, 0);
  }

  lemma {:induction false} LeadsToGate(m: Machine<PState>, p: PState, u: Bytes, p': PState, t: Bytes)
    requires IsParser(m) && StackOk(p'.stack) && Gate(p'.h) && Leads(m, p, u, p')
    ensures Run(m, p, u + t) == Outcome(p', |u|, Waiting)
  {
    GateConsumesNothing(m, p', t);
    LeadsRun(m, p, u, p', t);
  }

  /** The line that announces a full resync is consumed to its LF, and not one byte more. */
  lemma {:induction false} ResyncLineConsumed(h: HState, line: Bytes, t: Bytes)
    requires h.isMaster && h.repl == SentPsync && |line| < h.bufSize
    requires CR !in line && FULLRESYN <= CStr(line)
    ensures var h' := EndSimple(Chars(BeginSimple(h), line));
      && h'.repl == FullResync
      && (ParserSound(); Run(Parser(), Init(h), [PLUS] + (line + CRLF) + t)) == Outcome(Init(h'), |line| + 3, Waiting)
  {
    ParserIsParser();
    ResyncState(h, line);
    LeadsLine(Parser(), h, line);
    LeadsToGate(Parser(), Init(h), [PLUS] + (line + CRLF), Init(EndSimple(Chars(BeginSimple(h), line))), t);
  }

  /** A simple string line is consumed whole and handed to the handler. */
  lemma {:induction false} LeadsLine(m: Machine<PState>, h: HState, line: Bytes)
    requires IsParser(m) && !Gate(h) && CR !in line
    ensures Leads(m, Init(h), [PLUS] + (line + CRLF), Init(EndSimple(Chars(BeginSimple(h), line))))
  {
    var p1 := Over([Terminal], Simple(StringLine), BeginSimple(h));
    OverOk([Terminal], Simple(StringLine), BeginSimple(h));
    LeadsByRound(m, Init(h), [PLUS], p1);
    LineRound(p1, line);
    LeadsByRound(m, p1, line + CRLF, Init(EndSimple(Chars(p1.h, line))));
    LeadsThen(m, Init(h), [PLUS], p1, line + CRLF, Init(EndSimple(Chars(p1.h, line))));
  }

  lemma {:induction false} LineRound(p: PState, line: Bytes)
    requires p.stack == [Terminal] + [Simple(StringLine)] && !Gate(p.h) && CR !in line
    ensures Round(p, line + CRLF) == Go(Init(EndSimple(Chars(p.h, line))), |line| + 2)
  {
    var s := line + CRLF;
    LeadingIs(s, (x: byte) => x != CR, |line|);
    assert s[..|line|] == line && s[|line| + 1] == LF;
    assert Pop(p.stack) == [Terminal];
  }

  lemma {:induction false} ResyncState(h: HState, line: Bytes)
    requires h.isMaster && h.repl == SentPsync && |line| < h.bufSize && FULLRESYN <= CStr(line)
    ensures Gate(EndSimple(Chars(BeginSimple(h), line)))
  {
    assert [] + line == line;
  }
}

/** Progress of the handshake: with a master that answers as it should, it runs to its end. */
module HandshakeRuns {
  import opened Decimal
  import opened Framing
  import opened Handler
  import opened Handshake
  import opened Pipeline
  import opened Resp
  import opened RoundTrip
  import opened Stream

  // ------------------------------------------------------------------ single replies

  /** The answers, literally. */
  lemma {:induction false} ExpectedAnswers(reply: Bytes)
    ensures Expected(0, reply) <==> CStr(reply) == [80, 79, 78, 71]
    ensures Expected(1, reply) <==> CStr(reply) == [79, 75]
    ensures Expected(2, reply) <==> CStr(reply) == [79, 75]
    ensures Expected(3, reply) <==> [70, 85, 76, 76, 82, 69, 83, 89, 78] <= CStr(reply)
  {
  }

  /** The reply to a command decides: the one expected moves the state on by one, any other to the error state. */
  lemma {:induction false} ReplyDecides(st: Repl, reply: Bytes)
    ensures Awaiting(st) ==> (AfterReply(st, reply) != Error <==> Expected(SentCount(st) - 1, reply))
    ensures Awaiting(st) && Expected(SentCount(st) - 1, reply) ==> AfterReply(st, reply).Rank() == st.Rank() + 1
    ensures !Awaiting(st) ==> AfterReply(st, reply) == st
  {
  }

  // ------------------------------------------------------- a status line in any pieces

  /** The handler behind a status line. */
  function Replied(h: HState, line: Bytes): HState { EndSimple(Chars(BeginSimple(h), line)) }

  function StatusLine(line: Bytes): Bytes { [PLUS] + (line + CRLF) }

  /** What is behind the line stays unread: there is nothing, or the handler asks for the snapshot next. */
  ghost predicate Delivered(h: HState, line: Bytes, t: Bytes) {
    !Gate(h) && CR !in line && (t == [] || Gate(Replied(h, line)))
  }

  lemma {:induction false} InsideLineRests(m: Machine<PState>, h: HState, line: Bytes, c: nat)
    requires IsParser(m) && !Gate(h) && CR !in line && 0 < c < |line| + 3
    ensures RestsAs(m, Init(h), StatusLine(line)[..c], false)
  {
    var p, w := Over([Terminal], Simple(StringLine), BeginSimple(h)), (line + CRLF)[..c - 1];
    OverOk([Terminal], Simple(StringLine), BeginSimple(h));
    LeadsByRound(m, Init(h), [PLUS], p);
    PartLineStops(p, line, c - 1);
    RestsHere(m, p, w, false);
    RestsAfter(m, Init(h), [PLUS], p, w, false);
    assert StatusLine(line)[..c] == [PLUS] + w;
  }

  /** A part of a line is copied, and the state waits for more. */
  lemma {:induction false} PartLineStops(p: PState, line: Bytes, c: nat)
    requires StackOk(p.stack) && Top(p.stack) == Simple(StringLine) && !Gate(p.h) && CR !in line && c < |line| + 2
    ensures var r := Round(p, (line + CRLF)[..c]);
      !r.go && !r.bad && r.p.stack == p.stack && r.p.h.repl == p.h.repl && r.p.h.isMaster == p.h.isMaster
  {
    var s := (line + CRLF)[..c];
    if c > |line| {
      assert s == line + [CR];
      LeadingIs(s, (x: byte) => x != CR, |line|);
    } else {
      assert s == line[..c];
      LeadingIs(s, (x: byte) => x != CR, |s|);
    }
  }

  lemma {:induction false} BehindLineRests(m: Machine<PState>, h: HState, line: Bytes, t: Bytes)
    requires IsParser(m) && Delivered(h, line, t)
    ensures RestsAs(m, Init(h), StatusLine(line) + t, false)
  {
    var p := Init(Replied(h, line));
    LeadsLine(m, h, line);
    RestsHere(m, p, t, false);
    RestsAfter(m, Init(h), StatusLine(line), p, t, false);
  }

  /** No cut of a status line can be noticed. */
  lemma {:induction false} LineRests(m: Machine<PState>, h: HState, line: Bytes, t: Bytes, c: nat)
    requires IsParser(m) && Delivered(h, line, t) && c <= |StatusLine(line) + t|
    ensures RestsAs(m, Init(h), (StatusLine(line) + t)[..c], false)
  {
    var s := StatusLine(line) + t;
    if c == 0 {
      RestsHere(m, Init(h), s[..c], false);
    } else if c < |line| + 3 {
      InsideLineRests(m, h, line, c);
      assert s[..c] == StatusLine(line)[..c];
    } else {
      var n := c - |StatusLine(line)|;
      BehindLineRests(m, h, line, t[..n]);
      assert s[..c] == StatusLine(line) + t[..n];
    }
  }

  lemma {:induction false} LineCutsGood(h: HState, line: Bytes, t: Bytes, chunks: seq<Bytes>, k: nat)
    requires Delivered(h, line, t) && Concat(chunks) <= StatusLine(line) + t && k <= |chunks|
    ensures (ParserSound(); GoodCut(Parser(), Init(h), Concat(chunks[..k])))
  {
    var u := Concat(chunks[..k]);
    ParserIsParser();
    ConcatPrefix(chunks, k);
    assert u == (StatusLine(line) + t)[..|u|];
    LineRests(Parser(), h, line, t, |u|);
    CutIffTorn(Parser(), Init(h), u, false);
  }

  /** Pieces of a status line are read as what they are pieces of. */
  lemma {:induction false} PiecesReadAsOne(h: HState, line: Bytes, t: Bytes, chunks: seq<Bytes>)
    requires Delivered(h, line, t) && Concat(chunks) <= StatusLine(line) + t && chunks != []
    ensures (ParserSound();
             ReadAll(Parser(), Feed(Init(h), [], Waiting), chunks)
               == Read(Parser(), Feed(Init(h), [], Waiting), Concat(chunks)))
  {
    ParserSound();
    forall k | 0 < k < |chunks|
      ensures GoodCut(Parser(), Init(h), Concat(chunks[..k]))
    {
      LineCutsGood(h, line, t, chunks, k);
    }
    ChunksReadAsWhole(Parser(), Init(h), chunks);
  }

  /** The whole line is handed to the handler, and what follows is kept. */
  lemma {:induction false} LineRead(h: HState, line: Bytes, t: Bytes, chunks: seq<Bytes>)
    requires Delivered(h, line, t) && Concat(chunks) == StatusLine(line) + t
    ensures (ParserSound(); ReadAll(Parser(), Feed(Init(h), [], Waiting), chunks))
      == Feed(Init(Replied(h, line)), t, Waiting)
  {
    ParserIsParser();
    assert chunks != [];
    PiecesReadAsOne(h, line, t, chunks);
    LineRun(Parser(), h, line, t);
    assert [] + Concat(chunks) == StatusLine(line) + t && (StatusLine(line) + t)[|StatusLine(line)|..] == t;
  }

  lemma {:induction false} LineRun(m: Machine<PState>, h: HState, line: Bytes, t: Bytes)
    requires IsParser(m) && Delivered(h, line, t)
    ensures m.ok(Init(h))
    ensures Run(m, Init(h), StatusLine(line) + t) == Outcome(Init(Replied(h, line)), |StatusLine(line)|, Waiting)
  {
    var p := Init(Replied(h, line));
    LeadsLine(m, h, line);
    LeadsRun(m, Init(h), StatusLine(line), p, t);
    assert Round(p, t) == Stop(p, 0);
  }

  /** A part of the line decides nothing. */
  lemma {:induction false} PartRead(h: HState, line: Bytes, t: Bytes, chunks: seq<Bytes>)
    requires Delivered(h, line, t) && Concat(chunks) <= StatusLine(line) + t && |Concat(chunks)| < |line| + 3
    ensures (ParserSound(); ReadAll(Parser(), Feed(Init(h), [], Waiting), chunks)).p.h.repl == h.repl
  {
    ParserIsParser();
    if chunks != [] {
      PiecesReadAsOne(h, line, t, chunks);
      PartRun(Parser(), h, line, |Concat(chunks)|);
      assert [] + Concat(chunks) == StatusLine(line)[..|Concat(chunks)|];
    }
  }

  lemma {:induction false} PartRun(m: Machine<PState>, h: HState, line: Bytes, c: nat)
    requires IsParser(m) && !Gate(h) && CR !in line && c < |line| + 3
    ensures m.ok(Init(h)) && Run(m, Init(h), StatusLine(line)[..c]).p.h.repl == h.repl
  {
    ParserOk(m, Init(h));
    if c == 0 {
      assert Round(Init(h), []) == Stop(Init(h), 0);
    } else {
      var p, w := Over([Terminal], Simple(StringLine), BeginSimple(h)), (line + CRLF)[..c - 1];
      OverOk([Terminal], Simple(StringLine), BeginSimple(h));
      LeadsByRound(m, Init(h), [PLUS], p);
      LeadsRun(m, Init(h), [PLUS], p, w);
      PartLineStops(p, line, c - 1);
      StopsAtOnce(m, p, w);
      assert StatusLine(line)[..c] == [PLUS] + w;
    }
  }

  lemma {:induction false} StopsAtOnce(m: Machine<PState>, p: PState, s: Bytes)
    requires IsParser(m) && StackOk(p.stack) && !Round(p, s).go
    ensures m.ok(p) && Run(m, p, s).p == Round(p, s).p
  {
  }

  // -------------------------------------------------------------- a reply over events

  function AllChunks(es: seq<Event>): seq<Bytes> {
    if es == [] then [] else AllChunks(es[..|es| - 1]) + es[|es| - 1].chunks
  }

  /** The events bring the line and `t` behind it, in whatever pieces, and only the last of them completes the line. */
  ghost predicate Brings(es: seq<Event>, line: Bytes, t: Bytes) {
    && es != [] && Concat(AllChunks(es)) == StatusLine(line) + t
    && forall k :: 0 <= k < |es| ==> |Concat(AllChunks(es[..k]))| < |line| + 3
  }

  lemma {:induction false} ReadAllInTwo(m: Machine<PState>, f: Feed<PState>, a: seq<Bytes>, b: seq<Bytes>)
    requires Sound(m) && m.ok(f.p)
    ensures ReadAll(m, f, a + b) == ReadAll(m, ReadAll(m, f, a), b)
    decreases |b|
  {
    if b == [] {
      assert a + b == a;
    } else {
      var n := |b| - 1;
      assert a + b == (a + b[..n]) + [b[n]] && b == b[..n] + [b[n]];
      OneMoreChunk(m, f, a + b[..n], b[n]);
      OneMoreChunk(m, ReadAll(m, f, a), b[..n], b[n]);
      ReadAllInTwo(m, f, a, b[..n]);
    }
  }

  lemma {:induction false} ConcatInTwo(a: seq<Bytes>, b: seq<Bytes>)
    ensures Concat(a + b) == Concat(a) + Concat(b)
    decreases |b|
  {
    if b == [] {
      assert a + b == a;
    } else {
      var n := |b| - 1;
      assert (a + b)[..|a| + n] == a + b[..n];
      ConcatInTwo(a, b[..n]);
    }
  }

  lemma {:induction false} EarlierChunks(es: seq<Event>, k: nat)
    requires k <= |es|
    ensures Concat(AllChunks(es[..k])) <= Concat(AllChunks(es))
    decreases |es|
  {
    if k == |es| {
      assert es[..k] == es;
    } else {
      var n := |es| - 1;
      ConcatInTwo(AllChunks(es[..n]), es[n].chunks);
      EarlierChunks(es[..n], k);
      assert es[..n][..k] == es[..k];
    }
  }

  lemma {:induction false} OneMoreEvent(r: Replica, es: seq<Event>, e: Event, script: seq<seq<Bytes>>)
    requires StackOk(r.f.p.stack) && |script| == 4
    ensures HandleAll(r, es + [e], script) == Handle(HandleAll(r, es, script), e, script)
  {
    assert (es + [e])[..|es|] == es;
  }

  lemma {:induction false} AwaitingReads(r: Replica, e: Event, script: seq<seq<Bytes>>)
    requires StackOk(r.f.p.stack) && |script| == 4 && Awaiting(r.f.p.h.repl)
    ensures Handle(r, e, script) == r.(f := (ParserSound(); ReadAll(Parser(), r.f, e.chunks)))
  {
  }

  lemma {:induction false} ChunksOfOneMore(es: seq<Event>, e: Event)
    ensures AllChunks(es + [e]) == AllChunks(es) + e.chunks
  {
    assert (es + [e])[..|es|] == es;
  }

  lemma {:induction false} ReadsOneMore(r: Replica, es: seq<Event>, e: Event, script: seq<seq<Bytes>>)
    requires StackOk(r.f.p.stack) && |script| == 4
    requires HandleAll(r, es, script) == r.(f := (ParserSound(); ReadAll(Parser(), r.f, AllChunks(es))))
    requires Awaiting(HandleAll(r, es, script).f.p.h.repl)
    ensures HandleAll(r, es + [e], script) == r.(f := (ParserSound(); ReadAll(Parser(), r.f, AllChunks(es + [e]))))
  {
    ParserSound();
    OneMoreEvent(r, es, e, script);
    ChunksOfOneMore(es, e);
    AwaitingReads(HandleAll(r, es, script), e, script);
    ReadAllInTwo(Parser(), r.f, AllChunks(es), e.chunks);
  }

  /** While the reply is incomplete the events are reads, one after the other. */
  lemma {:induction false} EventsRead(r: Replica, h: HState, es: seq<Event>, script: seq<seq<Bytes>>, line: Bytes,
      t: Bytes, k: nat)
    requires r.f == Feed(Init(h), [], Waiting) && Awaiting(h.repl) && |script| == 4
    requires Delivered(h, line, t) && Brings(es, line, t) && k <= |es|
    ensures HandleAll(r, es[..k], script)
      == r.(f := (ParserSound(); ReadAll(Parser(), r.f, AllChunks(es[..k]))))
    decreases k
  {
    ParserSound();
    if k > 0 {
      var init, e := es[..k - 1], es[k - 1];
      assert es[..k] == init + [e];
      EventsRead(r, h, es, script, line, t, k - 1);
      EarlierChunks(es, k - 1);
      PartRead(h, line, t, AllChunks(init));
      ReadsOneMore(r, init, e, script);
    }
  }

  /** An awaited reply, in whatever pieces and events it comes, reaches the handler. */
  lemma {:induction false} ReplyArrives(r: Replica, h: HState, es: seq<Event>, script: seq<seq<Bytes>>, line: Bytes,
      t: Bytes)
    requires r.f == Feed(Init(h), [], Waiting) && Awaiting(h.repl) && |script| == 4
    requires Delivered(h, line, t) && Brings(es, line, t)
    ensures HandleAll(r, es, script) == r.(f := Feed(Init(Replied(h, line)), t, Waiting))
  {
    EventsRead(r, h, es, script, line, t, |es|);
    assert es[..|es|] == es;
    LineRead(h, line, t, AllChunks(es));
  }

  // ------------------------------------------------------------------ whole handshakes

  lemma {:induction false} HandleAllInTwo(r: Replica, a: seq<Event>, b: seq<Event>, script: seq<seq<Bytes>>)
    requires StackOk(r.f.p.stack) && |script| == 4
    ensures HandleAll(r, a + b, script) == HandleAll(HandleAll(r, a, script), b, script)
    decreases |b|
  {
    if b == [] {
      assert a + b == a;
    } else {
      var n := |b| - 1;
      var init, e := b[..n], b[n];
      LastOfAppend(a, b, n);
      OneMoreEvent(r, a + init, e, script);
      OneMoreEvent(HandleAll(r, a, script), init, e, script);
      HandleAllInTwo(r, a, init, script);
    }
  }

  /** A master's answer to command `k`: as expected, in a line that fits the buffer. */
  ghost predicate Answers(k: nat, line: Bytes, size: nat) { Expected(k, line) && CR !in line && |line| < size }

  /** Between two exchanges: nothing is left to parse, and `st` is the state. */
  ghost predicate Between(r: Replica, st: Repl, size: nat, t: Bytes) {
    && r.f == Feed(Init(r.f.p.h), t, Waiting)
    && r.f.p.h.isMaster && r.f.p.h.repl == st && r.f.p.h.bufSize == size
  }

  lemma {:induction false} RepliedAs(h: HState, line: Bytes)
    requires h.isMaster && Awaiting(h.repl) && |line| < h.bufSize
    ensures var h' := Replied(h, line);
      h'.isMaster && h'.bufSize == h.bufSize && h'.repl == AfterReply(h.repl, line)
  {
    assert [] + line == line;
  }

  /** A reply that does not fit the buffer ends the handshake. */
  lemma {:induction false} LongReplyFails(h: HState, line: Bytes)
    requires |line| >= h.bufSize
    ensures Replied(h, line).repl == Error && Replied(h, line).replies == h.replies
  {
    assert [] + line == line;
  }

  lemma {:induction false} CommandSent(r: Replica, e: Event, script: seq<seq<Bytes>>, k: nat, st: Repl)
    requires |script| == 4 && StackOk(r.f.p.stack) && Due(r.f.p.h.repl, k, st)
    ensures HandleAll(r, [e], script) == Send(r, script[k], st)
  {
    assert [e][..0] == [];
    assert HandleAll(r, [e], script) == Handle(HandleAll(r, [], script), e, script);
    DueIsSent(r, e, script, k, st);
  }

  /** One exchange: an event on which the command goes out, and events that bring its answer. */
  lemma {:induction false} Exchange(r: Replica, e: Event, es: seq<Event>, script: seq<seq<Bytes>>, k: nat, st: Repl,
      line: Bytes, t: Bytes)
    requires |script| == 4 && Between(r, r.f.p.h.repl, r.f.p.h.bufSize, []) && Due(r.f.p.h.repl, k, st)
    requires Answers(k, line, r.f.p.h.bufSize) && Brings(es, line, t) && (t == [] || k == 3)
    ensures var r' := HandleAll(r, [e] + es, script);
      && Between(r', AfterReply(st, line), r.f.p.h.bufSize, t)
      && r'.f.p.h.repl.Rank() == st.Rank() + 1
  {
    var r1 := Send(r, script[k], st);
    var h := r1.f.p.h;
    CommandSent(r, e, script, k, st);
    ReplyDecides(st, line);
    RepliedAs(h, line);
    ReplyArrives(r1, h, es, script, line, t);
    HandleAllInTwo(r, [e], es, script);
  }

  /** The state after `n` exchanges, and the one in which the answer of the next is awaited. */
  function StateAfter(n: nat): Repl {
    match n
    case 0 => Connecting case 1 => ReceivedPong case 2 => PortOk case 3 => CapaOk case _ => FullResync
  }

  function StateAwaiting(n: nat): Repl {
    match n
    case 0 => SentPing case 1 => SentPort case 2 => SentCapa case _ => SentPsync
  }

  /** The events of the first `n` exchanges: one on which a command goes out, then those that bring its answer. */
  function Exchanges(es: seq<Event>, answers: seq<seq<Event>>, n: nat): seq<Event>
    requires n <= |es| && n <= |answers|
  {
    if n == 0 then [] else Exchanges(es, answers, n - 1) + ([es[n - 1]] + answers[n - 1])
  }

  /** Four answers, each as expected; behind the last comes `t`. */
  ghost predicate Cooperates(answers: seq<seq<Event>>, lines: seq<Bytes>, size: nat, t: Bytes) {
    && |answers| == |lines| == 4
    && forall k :: 0 <= k < 4 ==> Answers(k, lines[k], size) && Brings(answers[k], lines[k], if k == 3 then t else [])
  }

  lemma {:induction false} StatesInTurn(k: nat, line: Bytes)
    requires k < 4 && Expected(k, line)
    ensures Due(StateAfter(k), k, StateAwaiting(k)) && AfterReply(StateAwaiting(k), line) == StateAfter(k + 1)
  {
  }

  lemma {:induction false} ExchangeMoves(r: Replica, e: Event, es: seq<Event>, script: seq<seq<Bytes>>, k: nat,
      line: Bytes, t: Bytes, size: nat)
    requires |script| == 4 && k < 4 && Between(r, StateAfter(k), size, [])
    requires Answers(k, line, size) && Brings(es, line, t) && (t == [] || k == 3)
    ensures Between(HandleAll(r, [e] + es, script), StateAfter(k + 1), size, t)
  {
    StatesInTurn(k, line);
    Exchange(r, e, es, script, k, StateAwaiting(k), line, t);
  }

  lemma {:induction false} AfterExchanges(h: HState, es: seq<Event>, answers: seq<seq<Event>>, lines: seq<Bytes>,
      t: Bytes, script: seq<seq<Bytes>>, n: nat)
    requires h.isMaster && h.repl == Connecting && |script| == 4 && |es| == 4 && n <= 4
    requires Cooperates(answers, lines, h.bufSize, t)
    ensures Between(HandleAll(Fresh(h), Exchanges(es, answers, n), script), StateAfter(n), h.bufSize,
                    if n == 4 then t else [])
    decreases n
  {
    if n > 0 {
      var k := n - 1;
      AfterExchanges(h, es, answers, lines, t, script, k);
      var r := HandleAll(Fresh(h), Exchanges(es, answers, k), script);
      ExchangeMoves(r, es[k], answers[k], script, k, lines[k], if k == 3 then t else [], h.bufSize);
      HandleAllInTwo(Fresh(h), Exchanges(es, answers, k), [es[k]] + answers[k], script);
    }
  }

  /**
   From a fresh connection, with answers that are as expected and fit the buffer, in whatever pieces and events they
   arrive: all four commands go out, in the order of the script, and the snapshot is asked for. What came behind the
   last answer is kept.
   */
  lemma {:induction false} HandshakeCompletes(h: HState, port: Bytes, es: seq<Event>, answers: seq<seq<Event>>,
      lines: seq<Bytes>, t: Bytes)
    requires h.isMaster && h.repl == Connecting && |es| == 4 && Cooperates(answers, lines, h.bufSize, t)
    ensures var r := HandleAll(Fresh(h), Exchanges(es, answers, 4), Script(port));
      && Between(r, FullResync, h.bufSize, t)
      && |r.sent| == 4 && r.sent[0].cmd == [Text("PING")]
      && r.sent[1].cmd == [Text("REPLCONF"), Text("listening-port"), port]
      && r.sent[2].cmd == [Text("REPLCONF"), Text("capa"), Text("psync2")]
      && r.sent[3].cmd == [Text("PSYNC"), Text("?"), Text("-1")]
  {
    AllSent(h, port, es, answers, lines, t);
    ScriptTexts(port);
  }

  lemma {:induction false} AllSent(h: HState, port: Bytes, es: seq<Event>, answers: seq<seq<Event>>,
      lines: seq<Bytes>, t: Bytes)
    requires h.isMaster && h.repl == Connecting && |es| == 4 && Cooperates(answers, lines, h.bufSize, t)
    ensures var r := HandleAll(Fresh(h), Exchanges(es, answers, 4), Script(port));
      Between(r, FullResync, h.bufSize, t) && |r.sent| == 4
        && forall i :: 0 <= i < 4 ==> r.sent[i].cmd == Script(port)[i]
  {
    var script := Script(port);
    FreshOk(h, port);
    AfterExchanges(h, es, answers, lines, t, script, 4);
    RunOk(Fresh(h), Exchanges(es, answers, 4), script);
    SentInFull(HandleAll(Fresh(h), Exchanges(es, answers, 4), script), script);
  }

  lemma {:induction false} SentInFull(r: Replica, script: seq<seq<Bytes>>)
    requires HandshakeOk(r, script) && r.f.p.h.repl == FullResync
    ensures |r.sent| == |script| == 4 && forall i :: 0 <= i < 4 ==> r.sent[i].cmd == script[i]
  {
  }

  lemma {:induction false} ScriptTexts(port: Bytes)
    ensures Script(port)[0] == [Text("PING")]
    ensures Script(port)[1] == [Text("REPLCONF"), Text("listening-port"), port]
    ensures Script(port)[2] == [Text("REPLCONF"), Text("capa"), Text("psync2")]
    ensures Script(port)[3] == [Text("PSYNC"), Text("?"), Text("-1")]
  {
  }

  lemma {:induction false} OneEventBrings(line: Bytes, t: Bytes)
    ensures Brings([Event([StatusLine(line) + t], false)], line, t)
  {
    var s := StatusLine(line) + t;
    var es := [Event([s], false)];
    var chunks: seq<Bytes> := [s];
    assert es[..0] == [] && AllChunks(es) == [] + chunks == chunks;
    assert chunks[..0] == [] && Concat(chunks) == Concat([]) + s;
  }

  /** A master that answers PONG, OK, OK and FULLRESYNC with anything behind it, each in one piece, cooperates. */
  lemma {:induction false} PlainAnswers(more: Bytes, size: nat, t: Bytes)
    requires |more| + 10 < size && CR !in more && 0 !in more
    ensures var pong, ok := [80, 79, 78, 71], [79, 75];
      var resync := [70, 85, 76, 76, 82, 69, 83, 89, 78, 67] + more;
      Cooperates([[Event([StatusLine(pong) + []], false)], [Event([StatusLine(ok) + []], false)],
                  [Event([StatusLine(ok) + []], false)], [Event([StatusLine(resync) + t], false)]],
                 [pong, ok, ok, resync], size, t)
  {
    var pong, ok := [80, 79, 78, 71], [79, 75];
    var resync := [70, 85, 76, 76, 82, 69, 83, 89, 78, 67] + more;
    OneEventBrings(pong, []);
    OneEventBrings(ok, []);
    OneEventBrings(resync, t);
    PlainLines(more);
  }

  lemma {:induction false} PlainLines(more: Bytes)
    requires CR !in more && 0 !in more
    ensures var pong, ok := [80, 79, 78, 71], [79, 75];
      var resync := [70, 85, 76, 76, 82, 69, 83, 89, 78, 67] + more;
      && Expected(0, pong) && Expected(1, ok) && Expected(2, ok) && Expected(3, resync)
      && CR !in pong && CR !in ok && CR !in resync
  {
    var pong, ok := [80, 79, 78, 71], [79, 75];
    assert CStr(pong) == pong && CStr(ok) == ok;
    ResyncLine(more);
  }

  lemma {:induction false} ResyncLine(more: Bytes)
    requires CR !in more && 0 !in more
    ensures var resync := [70, 85, 76, 76, 82, 69, 83, 89, 78, 67] + more; Expected(3, resync) && CR !in resync
  {
    var head: Bytes := [70, 85, 76, 76, 82, 69, 83, 89, 78, 67];
    assert 0 !in head && CR !in head;
    assert CStr(head + more) == head + more;
    assert FULLRESYN <= head + more;
  }

  /** The header ends behind the first CRLF; without one it is not complete. */
  lemma {:induction false} HeaderEndIsFirst(s: Bytes, i: nat)
    ensures var e := HeaderEnd(s, i);
      && (e == 0 <==> forall k :: i <= k < |s| - 1 ==> !(s[k] == CR && s[k + 1] == LF))
      && (e > 0 ==>
            && i + 2 <= e <= |s| && s[e - 2] == CR && s[e - 1] == LF
            && forall k :: i <= k < e - 2 ==> !(s[k] == CR && s[k + 1] == LF))
    decreases |s| - i
  {
    if i + 1 < |s| && !(s[i] == CR && s[i + 1] == LF) { HeaderEndIsFirst(s, i + 1); }
  }

  lemma {:induction false} FirstLineEnd(a: Bytes, t: Bytes, i: nat)
    requires CR !in a && i <= |a|
    ensures HeaderEnd(a + CRLF + t, i) == |a| + 2
    decreases |a| - i
  {
    var s := a + CRLF + t;
    if i < |a| {
      assert s[i] == a[i];
      FirstLineEnd(a, t, i + 1);
    }
  }

  /** The snapshot: its header is dropped, its bytes are kept, and when all are there the replica is ready. */
  lemma {:induction false} SnapshotReceived(r: Replica, e: Event, e': Event, script: seq<seq<Bytes>>, d: Bytes,
      data: Bytes)
    requires Between(r, FullResync, r.f.p.h.bufSize, [36] + d + CRLF + data) && d != [] && CR !in d
    requires |script| == 4 && e'.snapshotDone
    ensures Between(HandleAll(r, [e], script), ReceivingRdb, r.f.p.h.bufSize, data)
    ensures Between(HandleAll(r, [e, e'], script), Ready, r.f.p.h.bufSize, data)
  {
    HeaderDropped(r, e, script, d, data);
    OneMoreEvent(r, [], e, script);
    assert [] + [e] == [e] && [e] + [e'] == [e, e'];
    OneMoreEvent(r, [e], e', script);
  }

  lemma {:induction false} HeaderDropped(r: Replica, e: Event, script: seq<seq<Bytes>>, d: Bytes, data: Bytes)
    requires Between(r, FullResync, r.f.p.h.bufSize, [36] + d + CRLF + data) && d != [] && CR !in d
    requires |script| == 4
    ensures Between(Handle(r, e, script), ReceivingRdb, r.f.p.h.bufSize, data)
  {
    FirstLineEnd([36] + d, data, 0);
    var left := [36] + d + CRLF + data;
    assert left[|d| + 3..] == data;
  }
}

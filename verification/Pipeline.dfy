/**
 Pipelined commands that arrive in pieces: where in the encoded stream a cut is harmless, and that
 chunks cut only at harmless places deliver exactly the commands that were sent.
 */
module Pipeline {
  import opened Decimal
  import opened Handler
  import opened Seals
  import opened Stream
  import opened Resp
  import opened Chunking
  import opened RoundTrip

  /** A cut `c` bytes into an encoded bulk string lies inside its non-empty payload or the CRLF after it. */
  predicate InsideBulk(arg: Bytes, c: nat) { arg != [] && c > 3 + |Show(|arg|)| }

  /** A cut `c` bytes into the encoded arguments lies inside a non-empty payload or its CRLF. */
  predicate InsideArgs(args: seq<Bytes>, c: nat) {
    if args == [] then false
    else if c >= |EncodeBulk(args[0])| then InsideArgs(args[1..], c - |EncodeBulk(args[0])|)
    else InsideBulk(args[0], c)
  }

  /** The same for a whole command, behind the line that opens it. */
  predicate InsideCommand(args: seq<Bytes>, c: nat) {
    c >= |Header(|args|)| && InsideArgs(args, c - |Header(|args|)|)
  }

  /** The line that opens a command of `n` arguments. */
  function Header(n: nat): Bytes { [42] + (Show(n) + CRLF) }

  /** The same for a stream of commands. */
  predicate Inside(cmds: seq<seq<Bytes>>, c: nat) {
    if cmds == [] then false
    else if c >= |EncodeCommand(cmds[0])| then Inside(cmds[1..], c - |EncodeCommand(cmds[0])|)
    else InsideCommand(cmds[0], c)
  }

  lemma {:induction false} ParserOk(m: Machine<PState>, p: PState)
    requires IsParser(m) && StackOk(p.stack)
    ensures m.ok(p)
  {
    var r := Round(p, []);
  }

  /** A run from `p` over `s` comes to rest waiting, torn exactly if `torn`. */
  ghost predicate Rests(m: Machine<PState>, p: PState, s: Bytes, torn: bool)
    requires IsParser(m) && StackOk(p.stack)
  {
    ParserOk(m, p);
    var h := Halt(m, p, s);
    StackOk(h.q.stack) && !m.step(h.q, h.rest).go && !m.step(h.q, h.rest).bad && (TornAt(h.q, h.rest) <==> torn)
  }

  /** The same, sealed. */
  ghost function RestsVerdict(m: Machine<PState>, p: PState, s: Bytes, torn: bool): Verdict
    requires IsParser(m) && StackOk(p.stack)
  {
    if forall k: RestKey {:trigger Opened(k)} :: Opened(k) ==> Rests(m, p, s, torn) then Met else Unmet
  }

  datatype RestKey = RestKey

  ghost predicate RestsAs(m: Machine<PState>, p: PState, s: Bytes, torn: bool)
    requires IsParser(m) && StackOk(p.stack)
  {
    RestsVerdict(m, p, s, torn) == Met
  }

  lemma {:induction false} RestsHere(m: Machine<PState>, p: PState, s: Bytes, torn: bool)
    requires IsParser(m) && StackOk(p.stack)
    requires !Round(p, s).go && !Round(p, s).bad && (TornAt(p, s) <==> torn)
    ensures RestsAs(m, p, s, torn)
  {
    assert Rests(m, p, s, torn);
  }

  lemma {:induction false} RestsAfter(m: Machine<PState>, p: PState, u: Bytes, p': PState, t: Bytes, torn: bool)
    requires IsParser(m) && StackOk(p.stack) && StackOk(p'.stack) && Leads(m, p, u, p')
    requires RestsAs(m, p', t, torn)
    ensures RestsAs(m, p, u + t, torn)
  {
    LeadsHalt(m, p, u, p', t);
    assert Opened(RestKey);
    assert Rests(m, p, u + t, torn);
  }

  /** A length line that is not complete yet leaves the length state waiting. */
  lemma {:induction false} PartialLine(n: nat, c: nat)
    requires c < |Show(n)| + 2
    ensures !LengthLine((Show(n) + CRLF)[..c])
  {
    var s := (Show(n) + CRLF)[..c];
    if c > 0 {
      if c <= |Show(n)| {
        assert s == Show(n)[..c] && AllDigits(s);
        SignEndOf([], s, []);
        assert [] + s + [] == s;
        StrtolRunsOn(s, []);
      } else {
        assert s == [] + Show(n) + [CR];
        StrtolOfDigits([], Show(n), [CR]);
      }
    }
  }

  lemma {:induction false} RestsInLine(m: Machine<PState>, below: seq<Frame>, h: HState, n: nat, c: nat, isArray: bool)
    requires IsParser(m) && Base(below) && !Gate(h) && c < |Show(n)| + 2
    ensures var p := Over(below, if isArray then ArrayLength else BulkLength, h);
      StackOk(p.stack) && RestsAs(m, p, (Show(n) + CRLF)[..c], false)
  {
    var p := Over(below, if isArray then ArrayLength else BulkLength, h);
    OverOk(below, if isArray then ArrayLength else BulkLength, h);
    PartialLine(n, c);
    RestsHere(m, p, (Show(n) + CRLF)[..c], false);
  }

  lemma {:induction false} RestsInPayload(m: Machine<PState>, below: seq<Frame>, h: HState, arg: Bytes, c: nat)
    requires IsParser(m) && Base(below) && !Gate(h) && c < |arg| + 2
    ensures var p := Over(below, Bulk(|arg|), h);
      StackOk(p.stack) && RestsAs(m, p, (arg + CRLF)[..c], arg != [] && c > 0)
  {
    OverOk(below, Bulk(|arg|), h);
    RestsHere(m, Over(below, Bulk(|arg|), h), (arg + CRLF)[..c], arg != [] && c > 0);
  }

  /** Where a run rests behind the first byte of a bulk string, it rests in front of it. */
  lemma {:induction false} RestsPastByte(m: Machine<PState>, below: seq<Frame>, h: HState, t: Bytes, torn: bool)
    requires IsParser(m) && Base(below) && !Gate(h)
    requires var p' := Over(below, BulkLength, h); StackOk(p'.stack) && RestsAs(m, p', t, torn)
    ensures var p := Over(below, Initial, h); StackOk(p.stack) && RestsAs(m, p, [36] + t, torn)
  {
    OverOk(below, Initial, h);
    LeadsFirstByte(m, Over(below, Initial, h), below, 36);
    RestsAfter(m, Over(below, Initial, h), [36], Over(below, BulkLength, h), t, torn);
  }

  /** The cut falls into the length line of a bulk string. */
  lemma {:induction false} RestsInBulkLine(m: Machine<PState>, below: seq<Frame>, h: HState, arg: Bytes, c: nat)
    requires IsParser(m) && Base(below) && !Gate(h) && |arg| <= INT_MAX && 0 < c < |Show(|arg|)| + 3
    ensures var p := Over(below, Initial, h);
      StackOk(p.stack) && RestsAs(m, p, EncodeBulk(arg)[..c], InsideBulk(arg, c))
  {
    RestsInLine(m, below, h, |arg|, c - 1, false);
    RestsPastByte(m, below, h, (Show(|arg|) + CRLF)[..c - 1], false);
    BulkLinePrefix(arg, c);
  }

  lemma {:induction false} BulkLinePrefix(arg: Bytes, c: nat)
    requires 0 < c < |Show(|arg|)| + 3
    ensures EncodeBulk(arg)[..c] == [36] + (Show(|arg|) + CRLF)[..c - 1] && !InsideBulk(arg, c)
  {
  }

  lemma {:induction false} LeadsBulkHeader(m: Machine<PState>, below: seq<Frame>, h: HState, arg: Bytes)
    requires IsParser(m) && Base(below) && !Gate(h) && |arg| <= INT_MAX
    ensures Leads(m, Over(below, Initial, h), [36] + (Show(|arg|) + CRLF),
                  Over(below, Bulk(|arg|), BeginBulk(h, |arg|)))
  {
    LeadsFirstByte(m, Over(below, Initial, h), below, 36);
    LeadsLength(m, below, h, |arg|, false);
    LeadsThen(m, Over(below, Initial, h), [36], Over(below, BulkLength, h), Show(|arg|) + CRLF,
              Over(below, Bulk(|arg|), BeginBulk(h, |arg|)));
  }

  /** The cut falls into the payload of a bulk string or the CRLF after it. */
  lemma {:induction false} RestsInBulkBody(m: Machine<PState>, below: seq<Frame>, h: HState, arg: Bytes, c: nat)
    requires IsParser(m) && Base(below) && !Gate(h) && |arg| <= INT_MAX && 3 + |Show(|arg|)| <= c < |EncodeBulk(arg)|
    ensures var p := Over(below, Initial, h);
      StackOk(p.stack) && RestsAs(m, p, EncodeBulk(arg)[..c], InsideBulk(arg, c))
  {
    var k := c - 3 - |Show(|arg|)|;
    var header, p := [36] + (Show(|arg|) + CRLF), Over(below, Initial, h);
    var p2 := Over(below, Bulk(|arg|), BeginBulk(h, |arg|));
    OverOk(below, Initial, h);
    LeadsBulkHeader(m, below, h, arg);
    BulkBodyPrefix(arg, c, k);
    RestsInPayload(m, below, BeginBulk(h, |arg|), arg, k);
    RestsAfter(m, p, header, p2, (arg + CRLF)[..k], InsideBulk(arg, c));
  }

  lemma {:induction false} BulkBodyPrefix(arg: Bytes, c: nat, k: nat)
    requires c == 3 + |Show(|arg|)| + k && c < |EncodeBulk(arg)|
    ensures k < |arg| + 2 && EncodeBulk(arg)[..c] == [36] + (Show(|arg|) + CRLF) + (arg + CRLF)[..k]
    ensures InsideBulk(arg, c) <==> arg != [] && k > 0
  {
    var a := [36] + (Show(|arg|) + CRLF);
    assert EncodeBulk(arg) == a + (arg + CRLF);
    assert |a| == 3 + |Show(|arg|)|;
  }

  lemma {:induction false} PrefixOfConcat(u: Bytes, v: Bytes, c: nat)
    requires c <= |u| + |v|
    ensures (u + v)[..c] == if c < |u| then u[..c] else u + v[..c - |u|]
  {
  }

  lemma {:induction false} RestsInBulk(m: Machine<PState>, below: seq<Frame>, h: HState, arg: Bytes, c: nat)
    requires IsParser(m) && Base(below) && !Gate(h) && |arg| <= INT_MAX && c < |EncodeBulk(arg)|
    ensures var p := Over(below, Initial, h);
      StackOk(p.stack) && RestsAs(m, p, EncodeBulk(arg)[..c], InsideBulk(arg, c))
  {
    if c == 0 {
      OverOk(below, Initial, h);
      RestsHere(m, Over(below, Initial, h), EncodeBulk(arg)[..c], InsideBulk(arg, c));
    } else if c < |Show(|arg|)| + 3 {
      RestsInBulkLine(m, below, h, arg, c);
    } else {
      RestsInBulkBody(m, below, h, arg, c);
    }
  }

  /** The cut falls into the first of the remaining arguments. */
  lemma {:induction false} RestsInFirstArg(m: Machine<PState>, h: HState, arg: Bytes, k: nat, n: nat, c: nat)
    requires IsParser(m) && !Gate(h) && |arg| <= INT_MAX && c < |EncodeBulk(arg)| && n == k + 1
    ensures var p := Over([Terminal], Array(n), h);
      StackOk(p.stack) && RestsAs(m, p, EncodeBulk(arg)[..c], InsideBulk(arg, c))
  {
    var below, u := [Terminal, Array(k)], EncodeBulk(arg)[..c];
    OverOk([Terminal], Array(n), h);
    OverOk(below, Initial, h);
    assert [Terminal] + [Array(k)] == below;
    LeadsNextElement(m, [Terminal], h, n);
    RestsInBulk(m, below, h, arg, c);
    RestsAfter(m, Over([Terminal], Array(n), h), [], Over(below, Initial, h), u, InsideBulk(arg, c));
    assert [] + u == u;
  }

  lemma {:induction false} RestsPastFirstArg(m: Machine<PState>, h: HState, arg: Bytes, k: nat, n: nat, t: Bytes,
      torn: bool)
    requires IsParser(m) && !Gate(h) && |arg| <= INT_MAX && n == k + 1
    requires var p := Over([Terminal], Array(k), AddArg(h, arg)); StackOk(p.stack) && RestsAs(m, p, t, torn)
    ensures var p := Over([Terminal], Array(n), h); StackOk(p.stack) && RestsAs(m, p, EncodeBulk(arg) + t, torn)
  {
    OverOk([Terminal], Array(n), h);
    ShowCounts(|arg|);
    LeadsElement(m, [Terminal], h, Show(|arg|), arg, k);
    RestsAfter(m, Over([Terminal], Array(n), h), EncodeBulk(arg), Over([Terminal], Array(k), AddArg(h, arg)), t, torn);
  }

  lemma {:induction false} RestsInNoArgs(m: Machine<PState>, h: HState)
    requires IsParser(m) && !Gate(h)
    ensures var p := Over([Terminal], Array(0), h); StackOk(p.stack) && RestsAs(m, p, [], false)
  {
    var p, p' := Over([Terminal], Array(0), h), Init(EndArray(h));
    OverOk([Terminal], Array(0), h);
    LeadsArrayEnd(m, [Terminal], h);
    RestsHere(m, p', [], false);
    RestsAfter(m, p, [], p', [], false);
  }

  lemma {:induction false} ArgsPrefix(args: seq<Bytes>, c: nat)
    requires args != [] && c <= |EncodeArgs(args)|
    ensures var u := EncodeBulk(args[0]);
      EncodeArgs(args)[..c] == if c < |u| then u[..c] else u + EncodeArgs(args[1..])[..c - |u|]
  {
    PrefixOfConcat(EncodeBulk(args[0]), EncodeArgs(args[1..]), c);
  }

  lemma {:induction false} InsideArgsUnfold(args: seq<Bytes>, c: nat)
    requires args != []
    ensures InsideArgs(args, c) ==
      if c >= |EncodeBulk(args[0])| then InsideArgs(args[1..], c - |EncodeBulk(args[0])|)
      else InsideBulk(args[0], c)
  {
  }

  lemma {:induction false} RestsInArgs(m: Machine<PState>, h: HState, args: seq<Bytes>, c: nat)
    requires IsParser(m) && !Gate(h) && Fits(args) && c <= |EncodeArgs(args)|
    ensures var p := Over([Terminal], Array(|args|), h);
      StackOk(p.stack) && RestsAs(m, p, EncodeArgs(args)[..c], InsideArgs(args, c))
    decreases |args|
  {
    if args == [] {
      RestsInNoArgs(m, h);
    } else {
      var tail, n := args[1..], |EncodeBulk(args[0])|;
      ArgsPrefix(args, c);
      InsideArgsUnfold(args, c);
      if c < n {
        RestsInFirstArg(m, h, args[0], |tail|, |args|, c);
      } else {
        RestsInArgs(m, AddArg(h, args[0]), tail, c - n);
        RestsPastFirstArg(m, h, args[0], |tail|, |args|, EncodeArgs(tail)[..c - n], InsideArgs(tail, c - n));
      }
    }
  }

  lemma {:induction false} CommandIsHeaderAndArgs(args: seq<Bytes>)
    ensures EncodeCommand(args) == Header(|args|) + EncodeArgs(args)
  {
  }

  /** A cut in a text of two parts falls into the first or into the second. */
  lemma {:induction false} RestsInParts(m: Machine<PState>, p: PState, w: Bytes, u: Bytes, v: Bytes, c: nat, torn: bool)
    requires IsParser(m) && StackOk(p.stack) && w == u + v && c <= |w|
    requires c < |u| ==> RestsAs(m, p, u[..c], torn)
    requires c >= |u| ==> RestsAs(m, p, u + v[..c - |u|], torn)
    ensures RestsAs(m, p, w[..c], torn)
  {
    PrefixOfConcat(u, v, c);
  }

  lemma {:induction false} HeaderPrefix(n: nat, c: nat)
    requires 0 < c < |Header(n)|
    ensures Header(n)[..c] == [42] + (Show(n) + CRLF)[..c - 1] && c - 1 < |Show(n)| + 2
  {
  }

  /** Where a run rests behind the first byte of a command, it rests in front of it. */
  lemma {:induction false} RestsPastStar(m: Machine<PState>, h: HState, t: Bytes, torn: bool)
    requires IsParser(m) && !Gate(h)
    requires var p' := Over([Terminal], ArrayLength, h); StackOk(p'.stack) && RestsAs(m, p', t, torn)
    ensures RestsAs(m, Init(h), [42] + t, torn)
  {
    LeadsFirstByte(m, Init(h), [Terminal], 42);
    RestsAfter(m, Init(h), [42], Over([Terminal], ArrayLength, h), t, torn);
  }

  lemma {:induction false} RestsInHeader(m: Machine<PState>, h: HState, n: nat, c: nat)
    requires IsParser(m) && !Gate(h) && n <= INT_MAX && c < |Header(n)|
    ensures RestsAs(m, Init(h), Header(n)[..c], false)
  {
    if c == 0 {
      RestsHere(m, Init(h), Header(n)[..c], false);
    } else {
      HeaderPrefix(n, c);
      RestsInLine(m, [Terminal], h, n, c - 1, true);
      RestsPastStar(m, h, (Show(n) + CRLF)[..c - 1], false);
    }
  }

  lemma {:induction false} RestsInBody(m: Machine<PState>, h: HState, args: seq<Bytes>, k: nat)
    requires IsParser(m) && !Gate(h) && Fits(args) && k <= |EncodeArgs(args)|
    ensures RestsAs(m, Init(h), Header(|args|) + EncodeArgs(args)[..k], InsideArgs(args, k))
  {
    LeadsHeader(m, h, |args|);
    RestsInArgs(m, BeginArray(h), args, k);
    RestsAfter(m, Init(h), Header(|args|), Over([Terminal], Array(|args|), BeginArray(h)), EncodeArgs(args)[..k],
               InsideArgs(args, k));
  }

  lemma {:induction false} RestsInCommand(m: Machine<PState>, h: HState, args: seq<Bytes>, c: nat)
    requires IsParser(m) && !Gate(h) && Fits(args) && c < |EncodeCommand(args)|
    ensures RestsAs(m, Init(h), EncodeCommand(args)[..c], InsideCommand(args, c))
  {
    var u, v, torn := Header(|args|), EncodeArgs(args), InsideCommand(args, c);
    CommandIsHeaderAndArgs(args);
    if c < |u| {
      RestsInHeader(m, h, |args|, c);
    } else {
      RestsInBody(m, h, args, c - |u|);
    }
    RestsInParts(m, Init(h), EncodeCommand(args), u, v, c, torn);
  }

  lemma {:induction false} StreamIsFirstAndRest(cmds: seq<seq<Bytes>>)
    requires cmds != []
    ensures EncodeAll(cmds) == EncodeCommand(cmds[0]) + EncodeAll(cmds[1..])
  {
  }

  lemma {:induction false} InsideUnfold(cmds: seq<seq<Bytes>>, c: nat)
    requires cmds != []
    ensures Inside(cmds, c) ==
      if c >= |EncodeCommand(cmds[0])| then Inside(cmds[1..], c - |EncodeCommand(cmds[0])|)
      else InsideCommand(cmds[0], c)
  {
  }

  /** A whole command leads from the terminal state to itself. */
  lemma {:induction false} PastCommand(m: Machine<PState>, h: HState, cmd: seq<Bytes>) returns (h': HState)
    requires IsParser(m) && !Gate(h) && Fits(cmd)
    ensures Leads(m, Init(h), EncodeCommand(cmd), Init(h')) && !Gate(h')
  {
    h' := Executed(h, cmd);
    CommandLogged(h, cmd);
    LeadsCommand(m, h, cmd);
  }

  lemma {:induction false} RestsInFirst(m: Machine<PState>, h: HState, cmds: seq<seq<Bytes>>, c: nat)
    requires IsParser(m) && !Gate(h) && cmds != [] && Fits(cmds[0])
    requires c < |EncodeCommand(cmds[0])| && c <= |EncodeAll(cmds)|
    ensures RestsAs(m, Init(h), EncodeAll(cmds)[..c], Inside(cmds, c))
  {
    StreamIsFirstAndRest(cmds);
    InsideUnfold(cmds, c);
    RestsInCommand(m, h, cmds[0], c);
    RestsInParts(m, Init(h), EncodeAll(cmds), EncodeCommand(cmds[0]), EncodeAll(cmds[1..]), c, Inside(cmds, c));
  }

  /** A text `u` that leads from `p` to `p'`, and a rest inside what follows it. */
  lemma {:induction false} RestsBehind(m: Machine<PState>, p: PState, p': PState, w: Bytes, u: Bytes, v: Bytes, c: nat,
      torn: bool)
    requires IsParser(m) && StackOk(p.stack) && StackOk(p'.stack) && w == u + v && |u| <= c <= |w|
    requires Leads(m, p, u, p') && RestsAs(m, p', v[..c - |u|], torn)
    ensures RestsAs(m, p, w[..c], torn)
  {
    RestsAfter(m, p, u, p', v[..c - |u|], torn);
    RestsInParts(m, p, w, u, v, c, torn);
  }

  lemma {:induction false} RestsInStream(m: Machine<PState>, h: HState, cmds: seq<seq<Bytes>>, c: nat)
    requires IsParser(m) && !Gate(h) && c <= |EncodeAll(cmds)| && forall i :: 0 <= i < |cmds| ==> Fits(cmds[i])
    ensures RestsAs(m, Init(h), EncodeAll(cmds)[..c], Inside(cmds, c))
    decreases |cmds|
  {
    if cmds == [] {
      RestsHere(m, Init(h), [], false);
    } else if c < |EncodeCommand(cmds[0])| {
      RestsInFirst(m, h, cmds, c);
    } else {
      var u, v := EncodeCommand(cmds[0]), EncodeAll(cmds[1..]);
      var h' := PastCommand(m, h, cmds[0]);
      StreamIsFirstAndRest(cmds);
      InsideUnfold(cmds, c);
      RestsInStream(m, h', cmds[1..], c - |u|);
      RestsBehind(m, Init(h), Init(h'), EncodeAll(cmds), u, v, c, Inside(cmds, c));
    }
  }

  /** In a stream of encoded commands a cut is harmless exactly outside the non-empty payloads and their CRLFs. */
  lemma {:induction false} HarmlessCutIff(h: HState, cmds: seq<seq<Bytes>>, c: nat)
    requires !Gate(h) && c <= |EncodeAll(cmds)| && forall i :: 0 <= i < |cmds| ==> Fits(cmds[i])
    ensures (ParserSound(); GoodCut(Parser(), Init(h), EncodeAll(cmds)[..c])) <==> !Inside(cmds, c)
  {
    ParserIsParser();
    RestsInStream(Parser(), h, cmds, c);
    CutIffTorn(Parser(), Init(h), EncodeAll(cmds)[..c], Inside(cmds, c));
  }

  lemma {:induction false} WaitsTorn(m: Machine<PState>, p: PState, s: Bytes, torn: bool)
    requires IsParser(m) && StackOk(p.stack) && RestsAs(m, p, s, torn)
    ensures m.ok(p) && Run(m, p, s).ending == Waiting && StackOk(Halt(m, p, s).q.stack)
    ensures TornAt(Halt(m, p, s).q, Halt(m, p, s).rest) <==> torn
  {
    assert Opened(RestKey);
    ParserOk(m, p);
    RunIsHaltAndStep(m, p, s);
  }

  lemma {:induction false} CutIffTorn(m: Machine<PState>, p: PState, s: Bytes, torn: bool)
    requires IsParser(m) && m == Parser() && StackOk(p.stack) && RestsAs(m, p, s, torn)
    ensures m.ok(p) && (GoodCut(m, p, s) <==> !torn)
  {
    WaitsTorn(m, p, s, torn);
    GoodCutIff(p, s);
  }

  /**
   Commands sent in any chunks, cut only at harmless places, are all executed with exactly their
   arguments; nothing is left over and the parser is back in its terminal state.
   */
  lemma {:induction false} PipelineInChunks(h: HState, cmds: seq<seq<Bytes>>, chunks: seq<Bytes>)
    requires !Gate(h) && chunks != [] && Concat(chunks) == EncodeAll(cmds)
    requires forall i :: 0 <= i < |cmds| ==> Fits(cmds[i])
    requires forall k :: 0 < k < |chunks| ==> !Inside(cmds, |Concat(chunks[..k])|)
    ensures var f := (ParserSound(); ReadAll(Parser(), Feed(Init(h), [], Waiting), chunks));
      && f.ending == Waiting && f.left == [] && f.p.stack == [Terminal]
      && f.p.h.commands == h.commands + cmds && f.p.h.spilled == h.spilled
  {
    ParserSound();
    forall k | 0 < k < |chunks| ensures GoodCut(Parser(), Init(h), Concat(chunks[..k])) {
      HarmlessPrefix(h, cmds, chunks, k);
    }
    ChunksReadAsWhole(Parser(), Init(h), chunks);
    PipelineInOne(h, cmds);
  }

  lemma {:induction false} PipelineInOne(h: HState, cmds: seq<seq<Bytes>>)
    requires !Gate(h) && forall i :: 0 <= i < |cmds| ==> Fits(cmds[i])
    ensures var f := (ParserSound(); Read(Parser(), Feed(Init(h), [], Waiting), EncodeAll(cmds)));
      && f.ending == Waiting && f.left == [] && f.p.stack == [Terminal]
      && f.p.h.commands == h.commands + cmds && f.p.h.spilled == h.spilled
  {
    CommandsRoundTrip(h, cmds);
    assert [] + EncodeAll(cmds) == EncodeAll(cmds);
  }

  lemma {:induction false} HarmlessPrefix(h: HState, cmds: seq<seq<Bytes>>, chunks: seq<Bytes>, k: nat)
    requires !Gate(h) && k <= |chunks| && Concat(chunks) == EncodeAll(cmds) && !Inside(cmds, |Concat(chunks[..k])|)
    requires forall i :: 0 <= i < |cmds| ==> Fits(cmds[i])
    ensures (ParserSound(); GoodCut(Parser(), Init(h), Concat(chunks[..k])))
  {
    ConcatPrefix(chunks, k);
    HarmlessCutIff(h, cmds, |Concat(chunks[..k])|);
  }

  lemma {:induction false} ConcatPrefix(chunks: seq<Bytes>, k: nat)
    requires k <= |chunks|
    ensures |Concat(chunks[..k])| <= |Concat(chunks)|
    ensures Concat(chunks[..k]) == Concat(chunks)[..|Concat(chunks[..k])|]
    decreases |chunks|
  {
    if k < |chunks| {
      var n := |chunks| - 1;
      ConcatPrefix(chunks[..n], k);
      assert chunks[..n][..k] == chunks[..k];
    } else {
      assert chunks[..k] == chunks;
    }
  }
}

/**
 The argument buffer behind the parser: when the bytes copied into it stay within its size. Space is
 reserved for a bulk string when its length is known, and never for a simple line.
 */
module Spilling {
  import opened Chunking
  import opened Decimal
  import opened Handler
  import opened Resp
  import opened Stream

  /** The buffer holds what it has and the payload announced. */
  predicate Fitting(p: PState)
    requires StackOk(p.stack)
  {
    && |p.h.buf| <= p.h.bufSize
    && (Top(p.stack).Bulk? && Top(p.stack).length > 0 ==> |p.h.buf| + Top(p.stack).length <= p.h.bufSize)
  }

  /** The part of a simple line at hand does not fit behind what the buffer holds. */
  predicate LongLine(p: PState, s: Bytes)
    requires StackOk(p.stack)
  {
    !Gate(p.h) && Top(p.stack).Simple? && 0 < Find(s, CR) && |p.h.buf| + Find(s, CR) > p.h.bufSize
  }

  /** A torn payload after which the buffer has no room for its whole length again. */
  predicate TightTear(p: PState, s: Bytes)
    requires StackOk(p.stack)
  {
    TornAt(p, s) && |p.h.buf| + Written(Top(p.stack).length, s) + Top(p.stack).length > p.h.bufSize
  }

  /** How much of a payload of `len` bytes is copied from `s`. */
  function Written(len: int, s: Bytes): int { if len <= |s| then len else |s| }

  // ------------------------------------------------------------------- one round

  lemma {:induction false} AddArgsFits(h: HState, args: seq<Bytes>)
    requires |h.buf| <= h.bufSize
    ensures var h' := AddArgs(h, args); |h'.buf| <= h'.bufSize && h'.spilled == h.spilled
    decreases |args|
  {
    if args != [] { AddArgsFits(AddArg(h, args[0]), args[1..]); }
  }

  lemma {:induction false} InlineFits(p: PState, s: Bytes)
    requires StackOk(p.stack) && Top(p.stack) == Inline && |p.h.buf| <= p.h.bufSize
    ensures var r := StepInline(p, s);
      StackOk(r.p.stack) && Fitting(r.p) && r.p.h.spilled == p.h.spilled
  {
    PoppedOk(p.stack);
    var pos := Find(s, CR);
    if pos < |s| { AddArgsFits(BeginArray(p.h), Tokens(s[..pos], 0)); }
  }

  lemma {:induction false} SimpleFitsIff(p: PState, s: Bytes, kind: SimpleKind)
    requires StackOk(p.stack) && !Gate(p.h) && Top(p.stack) == Simple(kind) && |p.h.buf| <= p.h.bufSize
    ensures var r := StepSimple(p, s, kind);
      && StackOk(r.p.stack) && (Fitting(r.p) <==> !LongLine(p, s))
      && (r.p.h.spilled <==> p.h.spilled || LongLine(p, s))
  {
    PoppedOk(p.stack);
  }

  lemma {:induction false} BulkFitsIff(p: PState, s: Bytes, len: int)
    requires StackOk(p.stack) && !Gate(p.h) && Top(p.stack) == Bulk(len) && Fitting(p)
    ensures var r := StepBulk(p, s, len);
      StackOk(r.p.stack) && (Fitting(r.p) <==> !TightTear(p, s)) && r.p.h.spilled == p.h.spilled
  {
    PoppedOk(p.stack);
  }

  lemma {:induction false} LengthFits(p: PState, s: Bytes, isArray: bool)
    requires StackOk(p.stack) && |p.h.buf| <= p.h.bufSize
    requires Top(p.stack) == if isArray then ArrayLength else BulkLength
    ensures var r := StepLength(p, s, isArray);
      StackOk(r.p.stack) && Fitting(r.p) && r.p.h.spilled == p.h.spilled
  {
    LengthSafe(p, s, isArray);
    if StepLength(p, s, isArray).go { LengthPushLands(p, s, isArray); }
  }

  lemma {:induction false} OthersFit(p: PState, s: Bytes)
    requires StackOk(p.stack) && |p.h.buf| <= p.h.bufSize
    requires Top(p.stack) == Terminal || Top(p.stack) == Initial || Top(p.stack).Array?
    ensures var r := Step(p, s);
      StackOk(r.p.stack) && Fitting(r.p) && r.p.h.spilled == p.h.spilled
  {
    StepIsSafe(p, s);
    if Top(p.stack).Array? {
      PoppedOk(p.stack);
    } else if s != [] {
      ElementPushLands(p, s);
    }
  }

  /** Which rounds copy past the buffer's end, and which leave it too small for what is announced. */
  lemma {:induction false} RoundFitsIff(p: PState, s: Bytes)
    requires StackOk(p.stack) && Fitting(p)
    ensures var r := Round(p, s);
      && StackOk(r.p.stack)
      && (r.p.h.spilled <==> p.h.spilled || LongLine(p, s))
      && (Fitting(r.p) <==> !LongLine(p, s) && !TightTear(p, s))
  {
    if !Gate(p.h) {
      match Top(p.stack)
      case Simple(kind) => SimpleFitsIff(p, s, kind);
      case Bulk(len) => BulkFitsIff(p, s, len);
      case Inline => InlineFits(p, s);
      case ArrayLength => LengthFits(p, s, true);
      case BulkLength => LengthFits(p, s, false);
      case _ => OthersFit(p, s);
    }
  }

  // ------------------------------------------------------------------- whole runs

  lemma {:induction false} InlineKeepsSpilled(p: PState, s: Bytes)
    requires p.h.spilled
    ensures StepInline(p, s).p.h.spilled
  {
    if Find(s, CR) < |s| { AddArgsSpilled(BeginArray(p.h), Tokens(s[..Find(s, CR)], 0)); }
  }

  lemma {:induction false} LineKeepsSpilled(p: PState, s: Bytes, kind: SimpleKind, isArray: bool)
    requires p.h.spilled
    ensures StepSimple(p, s, kind).p.h.spilled && StepLength(p, s, isArray).p.h.spilled
  {
  }

  lemma {:induction false} RoundKeepsSpilled(p: PState, s: Bytes)
    requires p.h.spilled
    ensures Round(p, s).p.h.spilled
  {
    if StackOk(p.stack) && !Gate(p.h) {
      match Top(p.stack)
      case Inline => InlineKeepsSpilled(p, s);
      case Simple(kind) => LineKeepsSpilled(p, s, kind, true);
      case ArrayLength => LineKeepsSpilled(p, s, StringLine, true);
      case BulkLength => LineKeepsSpilled(p, s, StringLine, false);
      case _ =>
    }
  }

  lemma {:induction false} AddArgsSpilled(h: HState, args: seq<Bytes>)
    requires h.spilled
    ensures AddArgs(h, args).spilled
    decreases |args|
  {
    if args != [] { AddArgsSpilled(AddArg(h, args[0]), args[1..]); }
  }

  /** The run comes upon a line that does not fit. */
  ghost predicate MeetsLongLine(m: Machine<PState>, p: PState, s: Bytes)
    requires m == Parser() && Sound(m) && m.ok(p)
    decreases |s|, m.weight(p)
  {
    var r := m.step(p, s);
    LongLine(p, s) || (Continues(r, s) && MeetsLongLine(m, r.p, s[r.used..]))
  }

  lemma {:induction false} RunKeepsSpilled(m: Machine<PState>, p: PState, s: Bytes)
    requires m == Parser() && Sound(m) && m.ok(p) && p.h.spilled
    ensures Run(m, p, s).p.h.spilled
    decreases |s|, m.weight(p)
  {
    var r := m.step(p, s);
    assert r == Round(p, s);
    RoundKeepsSpilled(p, s);
    if Continues(r, s) {
      RunGo(m, p, s, r);
      RunKeepsSpilled(m, r.p, s[r.used..]);
    }
  }

  lemma {:induction false} RunFits(m: Machine<PState>, p: PState, s: Bytes)
    requires m == Parser() && Sound(m) && m.ok(p) && Fitting(p)
    ensures Run(m, p, s).p.h.spilled <==> p.h.spilled || MeetsLongLine(m, p, s)
    ensures !MeetsLongLine(m, p, s) ==>
              (Fitting(Run(m, p, s).p) <==> !TightTear(Halt(m, p, s).q, Halt(m, p, s).rest))
    decreases |s|, m.weight(p)
  {
    var r := m.step(p, s);
    assert r == Round(p, s);
    RoundFitsIff(p, s);
    if Continues(r, s) {
      RunGo(m, p, s, r);
      if LongLine(p, s) {
        RunKeepsSpilled(m, r.p, s[r.used..]);
      } else {
        NoTearGoingOn(p, s);
        RunFits(m, r.p, s[r.used..]);
      }
    }
  }

  lemma {:induction false} NoTearGoingOn(p: PState, s: Bytes)
    requires StackOk(p.stack) && Round(p, s).go
    ensures !TightTear(p, s)
  {
  }

  /**
   From a state whose buffer holds what is announced, for any bytes: a copy goes past the buffer's end exactly
   if the run comes upon a simple line that does not fit; and if it does not, the buffer again holds what is
   announced exactly unless the run stops in a payload that the buffer could not take once more.
   */
  lemma {:induction false} RunSpillsIff(p: PState, s: Bytes)
    requires StackOk(p.stack) && Fitting(p)
    ensures (ParserSound();
             && (Run(Parser(), p, s).p.h.spilled <==> p.h.spilled || MeetsLongLine(Parser(), p, s))
             && (!MeetsLongLine(Parser(), p, s) ==>
                   (Fitting(Run(Parser(), p, s).p) <==>
                      !TightTear(Halt(Parser(), p, s).q, Halt(Parser(), p, s).rest))))
  {
    ParserSound();
    RunFits(Parser(), p, s);
  }

  /** After a torn payload the next bytes are taken for the whole of it: when copying those goes past the end. */
  lemma {:induction false} TornSpillsIff(p: PState, s: Bytes, t: Bytes)
    requires StackOk(p.stack) && Fitting(p) && TornAt(p, s) && !p.h.spilled
    ensures var len := Top(p.stack).length;
      var r := Round(p, s);
      var left := s[r.used..] + t;
      && r.used == Written(len, s) && !r.p.h.spilled
      && (Round(r.p, left).p.h.spilled <==>
            left != [] && |p.h.buf| + Written(len, s) + Written(len, left) > p.h.bufSize)
  {
    var len := Top(p.stack).length;
    BulkStops(p, s, len);
  }

  lemma {:induction false} FindFirst(s: Bytes, t: Bytes)
    requires CR !in s && t != [] && t[0] == CR
    ensures Find(s + t, CR) == |s|
  {
    LeadingIs(s + t, (x: byte) => x != CR, |s|);
  }

  /** After a `+` the parser takes a simple line into the emptied buffer. */
  lemma {:induction false} PlusOpensLine(h: HState, s: Bytes)
    requires !Gate(h)
    ensures Round(Init(h), [PLUS] + s) == Go(PState([Terminal, Simple(StringLine)], BeginSimple(h)), 1)
    ensures ([PLUS] + s)[1..] == s
  {
    assert ([PLUS] + s)[0] == PLUS && Push([Terminal], Simple(StringLine)) == [Terminal, Simple(StringLine)];
  }

  lemma {:induction false} MeetsNow(m: Machine<PState>, p: PState, s: Bytes)
    requires m == Parser() && Sound(m) && m.ok(p) && LongLine(p, s)
    ensures MeetsLongLine(m, p, s)
  {
  }

  lemma {:induction false} MeetsLater(m: Machine<PState>, p: PState, s: Bytes, p': PState, n: nat)
    requires m == Parser() && Sound(m) && m.ok(p) && !LongLine(p, s) && Round(p, s) == Go(p', n) && n <= |s|
    ensures m.ok(p') && (MeetsLongLine(m, p, s) <==> MeetsLongLine(m, p', s[n..]))
  {
    var r := m.step(p, s);
    assert r == Round(p, s);
  }

  lemma {:induction false} LineFits(h: HState, line: Bytes)
    requires !Gate(h) && CR !in line && |line| <= h.bufSize
    ensures var p, s := PState([Terminal, Simple(StringLine)], BeginSimple(h)), line + [CR, LF];
      && Round(p, s) == Go(PState([Terminal], EndSimple(Chars(BeginSimple(h), line))), |line| + 2)
      && !LongLine(p, s) && s[|line| + 2..] == []
  {
    var p, s := PState([Terminal, Simple(StringLine)], BeginSimple(h)), line + [CR, LF];
    FindFirst(line, [CR, LF]);
    assert s[..|line|] == line && s[|line| + 1] == LF && Pop(p.stack) == [Terminal];
  }

  lemma {:induction false} NothingMet(m: Machine<PState>, p: PState)
    requires m == Parser() && Sound(m) && m.ok(p) && p.stack == [Terminal]
    ensures !MeetsLongLine(m, p, [])
  {
    var r := m.step(p, []);
    assert r == Round(p, []);
  }

  /** A status line on its own: any that is longer than the buffer goes past its end, and no other does. */
  lemma {:induction false} StatusLineSpillsIff(h: HState, line: Bytes)
    requires !Gate(h) && |h.buf| <= h.bufSize && !h.spilled && CR !in line
    ensures (ParserSound();
             Run(Parser(), Init(h), [PLUS] + (line + [CR, LF])).p.h.spilled <==> |line| > h.bufSize)
  {
    ParserSound();
    var m, s, p := Parser(), line + [CR, LF], PState([Terminal, Simple(StringLine)], BeginSimple(h));
    PlusOpensLine(h, s);
    RunSpillsIff(Init(h), [PLUS] + s);
    MeetsLater(m, Init(h), [PLUS] + s, p, 1);
    FindFirst(line, [CR, LF]);
    if |line| > h.bufSize {
      MeetsNow(m, p, s);
    } else {
      var p' := PState([Terminal], EndSimple(Chars(BeginSimple(h), line)));
      LineFits(h, line);
      MeetsLater(m, p, s, p', |line| + 2);
      NothingMet(m, p');
    }
  }
}

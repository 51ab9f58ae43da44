/**
 The one way the parser's cursor can pass the end of its chunk: an inline command whose CR is the
 last byte received, because the LF is skipped without being looked for.
 */
module Overrunning {
  import opened Decimal
  import opened Stream
  import opened Resp
  import opened Chunking

  /** The parser reads, or is about to read, an inline command. */
  predicate AtInline(q: PState)
    requires StackOk(q.stack)
  {
    !Gate(q.h) && (Top(q.stack) == Inline || Top(q.stack) == Initial || Top(q.stack) == Terminal)
  }

  lemma {:induction false} OverrunEndsInCR(m: Machine<PState>, p: PState, s: Bytes)
    requires m == Parser() && Sound(m) && StackOk(p.stack) && Run(m, p, s).ending == Overrun
    ensures s != [] && s[|s| - 1] == CR && Run(m, p, s).used == |s| + 1
    decreases |s|, WeightOf(p)
  {
    var r := m.step(p, s);
    assert r == Round(p, s);
    StepIsSafe(p, s);
    if Continues(r, s) {
      RunGo(m, p, s, r);
      OverrunEndsInCR(m, r.p, s[r.used..]);
    }
  }

  lemma {:induction false} InlineOverruns(m: Machine<PState>, q: PState, rest: Bytes)
    requires m == Parser() && Sound(m) && StackOk(q.stack) && !Gate(q.h) && Top(q.stack) == Inline
    requires !m.step(q, rest).go
    ensures Run(m, q, rest + [CR]).ending == Overrun
  {
    assert m.step(q, rest) == StepInline(q, rest);
    FindPast(rest, [CR], CR);
    assert m.step(q, rest + [CR]) == StepInline(q, rest + [CR]);
  }

  lemma {:induction false} CRStartsInline(q: PState)
    requires StackOk(q.stack) && !Gate(q.h) && (Top(q.stack) == Initial || Top(q.stack) == Terminal)
    ensures var r := Round(q, [CR]);
      r.go && !r.bad && r.used == 0 && StackOk(r.p.stack) && Top(r.p.stack) == Inline && r.p.h == q.h
  {
    if Top(q.stack) == Initial { PoppedOk(q.stack); }
    PushedOk(if Top(q.stack) == Initial then Pop(q.stack) else q.stack, Inline);
  }

  lemma {:induction false} ElementOverruns(m: Machine<PState>, q: PState)
    requires m == Parser() && Sound(m) && StackOk(q.stack) && !Gate(q.h)
    requires Top(q.stack) == Initial || Top(q.stack) == Terminal
    ensures Run(m, q, [CR]).ending == Overrun
  {
    CRStartsInline(q);
    var r := Round(q, [CR]);
    RunGo(m, q, [CR], r);
    assert [CR][0..] == [] + [CR];
    assert m.step(r.p, []) == Stop(r.p, 0);
    InlineOverruns(m, r.p, []);
  }

  lemma {:induction false} LengthStillWaits(rest: Bytes)
    requires rest == [] || !LengthLine(rest)
    ensures !LengthLine(rest + [CR])
  {
    var s := rest + [CR];
    if LengthLine(s) {
      var e := Strtol(s).end;
      assert e + 1 < |rest|;
      StrtolIgnoresTail(rest, [CR]);
      assert false;
    }
  }

  lemma {:induction false} SimpleStillWaits(p: PState, rest: Bytes, kind: SimpleKind)
    requires !StepSimple(p, rest, kind).go
    ensures !StepSimple(p, rest + [CR], kind).go
  {
    if Find(rest, CR) < |rest| {
      FindPrefix(rest, [CR], CR);
    } else {
      FindPast(rest, [CR], CR);
    }
  }

  /** A state at rest that goes on when a CR arrives uses the CR up. */
  lemma {:induction false} GoesOnlyToTheEnd(q: PState, rest: Bytes)
    requires StackOk(q.stack) && !AtInline(q) && !Round(q, rest).go && !Round(q, rest).bad
    ensures Round(q, rest + [CR]).go ==> Round(q, rest + [CR]).used == |rest| + 1
  {
    if !Gate(q.h) {
      match Top(q.stack)
      case Simple(kind) => SimpleStillWaits(q, rest, kind);
      case Bulk(len) =>
      case _ => LengthStillWaits(rest);
    }
  }

  lemma {:induction false} OthersStay(m: Machine<PState>, q: PState, rest: Bytes)
    requires m == Parser() && Sound(m) && StackOk(q.stack) && !AtInline(q)
    requires !m.step(q, rest).go && !m.step(q, rest).bad
    ensures Run(m, q, rest + [CR]).ending != Overrun
  {
    var s := rest + [CR];
    assert m.step(q, rest) == Round(q, rest);
    GoesOnlyToTheEnd(q, rest);
    var r := m.step(q, s);
    assert r == Round(q, s);
    if r.go {
      RunGo(m, q, s, r);
      assert s[r.used..] == [];
      if Run(m, r.p, []).ending == Overrun {
        OverrunEndsInCR(m, r.p, []);
        assert false;
      }
    }
  }

  lemma {:induction false} OverrunAtRestIff(m: Machine<PState>, q: PState, rest: Bytes)
    requires m == Parser() && Sound(m) && StackOk(q.stack) && !m.step(q, rest).go && !m.step(q, rest).bad
    ensures Run(m, q, rest + [CR]).ending == Overrun <==> AtInline(q)
  {
    if !AtInline(q) {
      OthersStay(m, q, rest);
    } else if Top(q.stack) == Inline {
      InlineOverruns(m, q, rest);
    } else {
      RestsOnNothing(q, rest);
      assert rest + [CR] == [CR];
      ElementOverruns(m, q);
    }
  }

  lemma {:induction false} RestsOnNothing(q: PState, rest: Bytes)
    requires StackOk(q.stack) && !Gate(q.h) && (Top(q.stack) == Initial || Top(q.stack) == Terminal)
    requires !Round(q, rest).go
    ensures rest == []
  {
  }

  lemma {:induction false} SameEndFromRest(m: Machine<PState>, p: PState, s: Bytes, t: Bytes)
    requires Sound(m) && Stable(m) && m.ok(p)
    ensures var h := Halt(m, p, s);
      && Run(m, p, s).ending == End(m.step(h.q, h.rest)).ending && Run(m, p, s).p == m.step(h.q, h.rest).p
      && Run(m, p, s + t).ending == Run(m, h.q, h.rest + t).ending && Run(m, p, s + t).p == Run(m, h.q, h.rest + t).p
  {
    RunThroughHalt(m, p, s, t);
    RunIsHaltAndStep(m, p, s);
  }

  /** Once a chunk is refused, the longer chunk is refused in the same state. */
  lemma {:induction false} RefusedOnce(m: Machine<PState>, q: PState, rest: Bytes, t: Bytes)
    requires m == Parser() && Sound(m) && StackOk(q.stack) && m.step(q, rest).bad
    ensures Run(m, q, rest + t).ending == Refused && Run(m, q, rest + t).p == m.step(q, rest).p
  {
    assert m.step(q, rest) == Round(q, rest) && m.step(q, rest + t) == Round(q, rest + t);
    RefusedStays(q, rest, t);
  }

  /** A chunk that was overrun is not when one more byte has come. */
  lemma {:induction false} OverrunOnce(m: Machine<PState>, q: PState, rest: Bytes, b: byte)
    requires m == Parser() && Sound(m) && Stable(m) && StackOk(q.stack)
    requires m.step(q, rest).go && m.step(q, rest).used > |rest|
    ensures Run(m, q, rest + [b]).ending != Overrun
  {
    var r := m.step(q, rest);
    assert r == Round(q, rest);
    StepIsSafe(q, rest);
    assert m.step(q, rest + [b]) == r;
    RunGo(m, q, rest + [b], r);
    assert (rest + [b])[r.used..] == [];
    if Run(m, r.p, []).ending == Overrun { OverrunEndsInCR(m, r.p, []); }
  }

  /**
   A chunk is overrun exactly when its last byte is a CR that arrives while the parser waits in, or in
   front of, an inline command.
   */
  lemma {:induction false} OverrunIff(p: PState, s: Bytes, b: byte)
    requires StackOk(p.stack)
    ensures (ParserSound();
             Run(Parser(), p, s + [b]).ending == Overrun
        <==> b == CR && Run(Parser(), p, s).ending == Waiting && AtInline(Halt(Parser(), p, s).q))
  {
    ParserSound();
    ParserStable();
    OverrunIffAt(Parser(), p, s, b);
  }

  lemma {:induction false} OverrunIffAt(m: Machine<PState>, p: PState, s: Bytes, b: byte)
    requires m == Parser() && Sound(m) && Stable(m) && StackOk(p.stack) && m.ok(p)
    ensures Run(m, p, s + [b]).ending == Overrun
       <==> b == CR && Run(m, p, s).ending == Waiting && AtInline(Halt(m, p, s).q)
  {
    if b != CR {
      NoOverrunOtherwise(m, p, s, b);
    } else {
      SameEndFromRest(m, p, s, [CR]);
      OverrunFromRestIff(m, Halt(m, p, s).q, Halt(m, p, s).rest);
    }
  }

  /** The same at the state in which the shorter chunk came to rest, however it did. */
  lemma {:induction false} OverrunFromRestIff(m: Machine<PState>, q: PState, rest: Bytes)
    requires m == Parser() && Sound(m) && Stable(m) && StackOk(q.stack) && !Continues(m.step(q, rest), rest)
    ensures Run(m, q, rest + [CR]).ending == Overrun <==> End(m.step(q, rest)).ending == Waiting && AtInline(q)
  {
    var r := m.step(q, rest);
    if r.bad {
      RefusedOnce(m, q, rest, [CR]);
    } else if r.go {
      OverrunOnce(m, q, rest, CR);
    } else {
      OverrunAtRestIff(m, q, rest);
    }
  }

  lemma {:induction false} NoOverrunOtherwise(m: Machine<PState>, p: PState, s: Bytes, b: byte)
    requires m == Parser() && Sound(m) && m.ok(p) && StackOk(p.stack) && b != CR
    ensures Run(m, p, s + [b]).ending != Overrun
  {
    if Run(m, p, s + [b]).ending == Overrun { OverrunEndsInCR(m, p, s + [b]); }
  }

  // ------------------------------------------------------------- cuts that nobody notices

  /** Whatever follows, reading `s` and then the rest leaves what reading both at once leaves. */
  ghost predicate Unnoticed(m: Machine<PState>, p: PState, s: Bytes)
    requires Sound(m) && m.ok(p)
  {
    forall t :: ReadInTwo(m, p, s, t)
  }

  ghost predicate ReadInTwo(m: Machine<PState>, p: PState, s: Bytes, t: Bytes)
    requires Sound(m) && m.ok(p)
  {
    var f := Feed(p, [], Waiting);
    Read(m, Read(m, f, s), t) == Read(m, f, s + t)
  }

  lemma {:induction false} ReadOnce(m: Machine<PState>, p: PState, s: Bytes)
    requires Sound(m) && m.ok(p)
    ensures var o := Run(m, p, s);
      Read(m, Feed(p, [], Waiting), s) == Feed(o.p, if o.ending == Waiting then s[o.used..] else [], o.ending)
  {
    assert [] + s == s;
  }

  lemma {:induction false} RefusedUnnoticed(m: Machine<PState>, p: PState, s: Bytes)
    requires m == Parser() && Sound(m) && Stable(m) && StackOk(p.stack) && m.ok(p) && Run(m, p, s).ending == Refused
    ensures Unnoticed(m, p, s) && !TornAt(Halt(m, p, s).q, Halt(m, p, s).rest)
  {
    var h := Halt(m, p, s);
    SameEndFromRest(m, p, s, []);
    assert m.step(h.q, h.rest) == Round(h.q, h.rest);
    forall t ensures ReadInTwo(m, p, s, t) {
      SameEndFromRest(m, p, s, t);
      RefusedOnce(m, h.q, h.rest, t);
      ReadOnce(m, p, s);
      ReadOnce(m, p, s + t);
    }
  }

  lemma {:induction false} OverrunNoticed(m: Machine<PState>, p: PState, s: Bytes)
    requires m == Parser() && Sound(m) && Stable(m) && StackOk(p.stack) && m.ok(p) && Run(m, p, s).ending == Overrun
    ensures !Unnoticed(m, p, s)
  {
    OverrunIffAt(m, p, s, LF);
    ReadOnce(m, p, s);
    ReadOnce(m, p, s + [LF]);
    assert !ReadInTwo(m, p, s, [LF]);
  }

  lemma {:induction false} TornNoticed(m: Machine<PState>, p: PState, s: Bytes)
    requires m == Parser() && Sound(m) && Stable(m) && StackOk(p.stack) && m.ok(p)
    requires TornAt(Halt(m, p, s).q, Halt(m, p, s).rest)
    ensures Run(m, p, s).ending == Waiting && !Unnoticed(m, p, s)
  {
    var h := Halt(m, p, s);
    var t := seq(Top(h.q.stack).length + 2 - |h.rest|, _ => 0);
    TornLoses(m, h.q, h.rest, t);
    SameEndFromRest(m, p, s, t);
    RunAtRest(m, h.q, h.rest);
    DiffersFromRest(m, p, s, t);
  }

  /** What differs when resuming from the state at rest differs when reading in two. */
  lemma {:induction false} DiffersFromRest(m: Machine<PState>, p: PState, s: Bytes, t: Bytes)
    requires Sound(m) && Stable(m) && m.ok(p) && Run(m, p, s).ending == Waiting
    requires var h := Halt(m, p, s);
      Run(m, h.q, h.rest).ending == Waiting && Run(m, h.q, h.rest + t).p != Resumed(m, h.q, h.rest, t).p
    ensures !Unnoticed(m, p, s)
  {
    SameEndFromRest(m, p, s, t);
    ResumedFromHalt(m, p, s, t);
    ReadTwoStates(m, p, s, t);
    assert !ReadInTwo(m, p, s, t);
  }

  lemma {:induction false} ReadTwoStates(m: Machine<PState>, p: PState, s: Bytes, t: Bytes)
    requires Sound(m) && m.ok(p) && Run(m, p, s).ending == Waiting
    ensures var f := Feed(p, [], Waiting);
      Read(m, Read(m, f, s), t).p == Resumed(m, p, s, t).p && Read(m, f, s + t).p == Run(m, p, s + t).p
  {
    ReadOnce(m, p, s);
    ReadOnce(m, p, s + t);
  }

  lemma {:induction false} WaitingUnnoticed(m: Machine<PState>, p: PState, s: Bytes)
    requires Sound(m) && m.ok(p) && GoodCut(m, p, s)
    ensures Unnoticed(m, p, s)
  {
    forall t ensures ReadInTwo(m, p, s, t) {
      ReadTwice(m, p, s, t);
    }
  }

  /**
   From any parser state, for any bytes, a cut after `s` goes unnoticed whatever follows, exactly when the
   run over `s` neither passes its end nor stops inside a non-empty payload or its CRLF. `OverrunIff` says
   when it passes its end.
   */
  lemma {:induction false} CutGoesUnnoticedIff(p: PState, s: Bytes)
    requires StackOk(p.stack)
    ensures (ParserSound(); Unnoticed(Parser(), p, s) <==> Run(Parser(), p, s).ending != Overrun && !Torn(p, s))
  {
    ParserSound();
    ParserStable();
    var m := Parser();
    if Torn(p, s) {
      TornNoticed(m, p, s);
    } else if Run(m, p, s).ending == Refused {
      RefusedUnnoticed(m, p, s);
    } else if Run(m, p, s).ending == Overrun {
      OverrunNoticed(m, p, s);
    } else {
      GoodCutIff(p, s);
      WaitingUnnoticed(m, p, s);
    }
  }
}

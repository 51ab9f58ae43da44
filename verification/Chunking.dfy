/**
 Feeding the parser in pieces. A run over a chunk followed by a run over what it left, with the
 next chunk appended, is compared with one run over both chunks.
 */
module Chunking {
  import opened Decimal
  import opened Handler
  import opened Stream
  import opened Resp

  // --------------------------------------------- steps that go on do not look further

  lemma {:induction false} FindPrefix(s: Bytes, t: Bytes, b: byte)
    requires Find(s, b) < |s|
    ensures Find(s + t, b) == Find(s, b)
  {
    LeadingIs(s + t, (x: byte) => x != b, Find(s, b));
  }

  lemma {:induction false} FindPast(s: Bytes, t: Bytes, b: byte)
    requires Find(s, b) == |s|
    ensures Find(s + t, b) == |s| + Find(t, b)
  {
    LeadingIs(s + t, (x: byte) => x != b, |s| + Find(t, b));
  }

  lemma {:induction false} LengthStable(p: PState, s: Bytes, t: Bytes, isArray: bool)
    requires StepLength(p, s, isArray).go
    ensures StepLength(p, s + t, isArray) == StepLength(p, s, isArray)
  {
    StrtolPrefix(s, t);
  }

  lemma {:induction false} BulkStable(p: PState, s: Bytes, t: Bytes, len: int)
    requires len >= -1 && StepBulk(p, s, len).go
    ensures StepBulk(p, s + t, len) == StepBulk(p, s, len)
  {
    if len >= 0 { assert (s + t)[..len] == s[..len]; }
  }

  /** A step that goes on within the chunk is the same step when more bytes follow. */
  lemma {:induction false} StepStable(p: PState, s: Bytes, t: Bytes)
    requires StackOk(p.stack) && Step(p, s).go
    ensures Step(p, s + t) == Step(p, s)
  {
    match Top(p.stack)
    case Simple(kind) =>
      FindPrefix(s, t, CR);
      assert (s + t)[..Find(s, CR)] == s[..Find(s, CR)];
    case ArrayLength => LengthStable(p, s, t, true);
    case BulkLength => LengthStable(p, s, t, false);
    case Bulk(len) => BulkStable(p, s, t, len);
    case Inline =>
      FindPrefix(s, t, CR);
      assert (s + t)[..Find(s, CR)] == s[..Find(s, CR)];
    case _ =>
  }

  lemma {:induction false} LengthRefused(p: PState, s: Bytes, t: Bytes, isArray: bool)
    requires StepLength(p, s, isArray).bad
    ensures StepLength(p, s + t, isArray) == StepLength(p, s, isArray)
  {
    StrtolPrefix(s, t);
  }

  /** Only a length line is refused. */
  lemma {:induction false} RefusedIsLength(p: PState, s: Bytes)
    requires StackOk(p.stack) && Step(p, s).bad
    ensures Top(p.stack) == ArrayLength || Top(p.stack) == BulkLength
  {
  }

  /** A length line that is refused is refused whatever follows. */
  lemma {:induction false} RefusedStays(p: PState, s: Bytes, t: Bytes)
    requires StackOk(p.stack) && Round(p, s).bad
    ensures Round(p, s + t) == Round(p, s)
  {
    RefusedIsLength(p, s);
    LengthRefused(p, s, t, Top(p.stack) == ArrayLength);
  }

  lemma {:induction false} ParserStable()
    ensures Stable(Parser())
  {
    forall p: PState, s: Bytes, t: Bytes | StackOk(p.stack) && Round(p, s).go
      ensures Round(p, s + t) == Round(p, s)
    {
      StepStable(p, s, t);
    }
  }

  // ------------------------------------------------------- resuming from a resting state

  /** The line so far has no CR: the rest of the line comes with the next chunk. */
  lemma {:induction false} SimpleGrows(p: PState, s: Bytes, t: Bytes, kind: SimpleKind)
    requires s != [] && t != [] && Find(s, CR) == |s|
    ensures StepSimple(p, s, kind) == Stop(p.(h := Chars(p.h, s)), |s|)
    ensures var r' := StepSimple(p.(h := Chars(p.h, s)), t, kind);
      StepSimple(p, s + t, kind) == r'.(used := |s| + r'.used)
  {
    var n := Find(t, CR);
    FindPast(s, t, CR);
    assert s[..|s|] == s;
    assert (s + t)[..|s| + n] == s + t[..n];
    assert (p.h.buf + s) + t[..n] == p.h.buf + (s + t[..n]);
  }

  /** The line has its CR but not yet the byte after it, or a wrong one. */
  lemma {:induction false} SimpleAtCR(p: PState, s: Bytes, t: Bytes, kind: SimpleKind, pos: nat)
    requires s != [] && pos == Find(s, CR) < |s| && !StepSimple(p, s, kind).go
    ensures StepSimple(p, s, kind) == Stop(p.(h := Chars(p.h, s[..pos])), pos)
    ensures var r' := StepSimple(p.(h := Chars(p.h, s[..pos])), (s + t)[pos..], kind);
      StepSimple(p, s + t, kind) == r'.(used := pos + r'.used)
  {
    var left := (s + t)[pos..];
    FindPrefix(s, t, CR);
    assert left[0] == CR;
    LeadingIs(left, (x: byte) => x != CR, 0);
    assert (s + t)[..pos] == s[..pos];
    assert left[..0] == [];
    assert (p.h.buf + s[..pos]) + [] == p.h.buf + s[..pos];
    assert |left| >= 2 ==> left[1] == (s + t)[pos + 1];
  }

  lemma {:induction false} SimpleResumes(m: Machine<PState>, q: PState, rest: Bytes, t: Bytes, kind: SimpleKind)
    requires m == Parser() && Sound(m) && StackOk(q.stack) && !Gate(q.h) && Top(q.stack) == Simple(kind)
    requires rest != [] && !StepSimple(q, rest, kind).go
    ensures Run(m, q, rest).ending == Waiting && Run(m, q, rest + t) == Resumed(m, q, rest, t)
  {
    var pos := Find(rest, CR);
    var q' := q.(h := Chars(q.h, rest[..pos]));
    if pos < |rest| {
      SimpleAtCR(q, rest, t, kind, pos);
    } else if t != [] {
      SimpleGrows(q, rest, t, kind);
      assert rest[..pos] == rest && (rest + t)[pos..] == t;
    } else {
      assert rest + t == rest && (rest + t)[pos..] == [];
    }
    StoppedResumes(m, q, rest, t, q', pos);
  }

  /** A stop inside a non-empty bulk payload, or in the CRLF after it. */
  predicate TornAt(q: PState, rest: Bytes)
    requires StackOk(q.stack)
  {
    && !Gate(q.h) && rest != []
    && Top(q.stack).Bulk? && 0 < Top(q.stack).length && |rest| < Top(q.stack).length + 2
  }

  lemma {:induction false} OtherStopsUnchanged(q: PState, rest: Bytes)
    requires StackOk(q.stack) && !TornAt(q, rest) && !Round(q, rest).go && !Round(q, rest).bad
    requires Gate(q.h) || !Top(q.stack).Simple? || rest == []
    ensures Round(q, rest) == Stop(q, 0)
  {
    assert rest[..0] == [] && q.h.buf + [] == q.h.buf;
  }

  lemma {:induction false} RestResumes(m: Machine<PState>, q: PState, rest: Bytes, t: Bytes)
    requires m == Parser() && Sound(m) && StackOk(q.stack) && !TornAt(q, rest)
    requires !m.step(q, rest).go && Run(m, q, rest).ending == Waiting
    ensures Run(m, q, rest + t) == Resumed(m, q, rest, t)
  {
    assert m.step(q, rest) == Round(q, rest);
    if Gate(q.h) || !Top(q.stack).Simple? || rest == [] {
      OtherStopsUnchanged(q, rest);
      UnchangedResumes(m, q, rest, t);
    } else {
      SimpleResumes(m, q, rest, t, Top(q.stack).kind);
    }
  }

  /** With no bytes left, a run from an array or the terminal state comes to rest before an element. */
  lemma {:induction false} RestsBeforeElement(m: Machine<PState>, p: PState)
    requires m == Parser() && Sound(m) && StackOk(p.stack)
    requires Top(p.stack) == Terminal || Top(p.stack) == Initial || Top(p.stack).Array?
    ensures Top(Run(m, p, []).p.stack) == Terminal || Top(Run(m, p, []).p.stack) == Initial || Gate(p.h)
    decreases WeightOf(p)
  {
    var r := m.step(p, []);
    assert r == Round(p, []);
    if !Gate(p.h) && Top(p.stack).Array? {
      ArraySafe(p, [], Top(p.stack).length);
      PoppedOk(p.stack);
      assert Top(r.p.stack) == Terminal || Top(r.p.stack) == Initial || Top(r.p.stack).Array?;
      RunGo(m, p, [], r);
      RestsBeforeElement(m, r.p);
    }
  }

  lemma {:induction false} BulkStops(q: PState, s: Bytes, len: int)
    requires StackOk(q.stack) && !Gate(q.h) && Top(q.stack) == Bulk(len) && 0 < len && 0 < |s| < len + 2
    ensures var r := Round(q, s); !r.go && !r.bad && r.p.stack == q.stack && !Gate(r.p.h)
    ensures Round(q, s).used == if len <= |s| then len else |s|
  {
  }

  lemma {:induction false} BulkCompletes(q: PState, s: Bytes, len: int)
    requires StackOk(q.stack) && !Gate(q.h) && Top(q.stack) == Bulk(len) && 0 < len && |s| == len + 2
    ensures var r := Round(q, s); r.go && r.used == |s| && StackOk(r.p.stack) && !Gate(r.p.h)
    ensures var r := Round(q, s); Top(r.p.stack) == Terminal || Top(r.p.stack).Array?
  {
    PoppedOk(q.stack);
  }

  /** After a torn stop, the bytes that complete the payload do not complete it. */
  lemma {:induction false} TornLoses(m: Machine<PState>, q: PState, rest: Bytes, t: Bytes)
    requires m == Parser() && Sound(m) && StackOk(q.stack) && TornAt(q, rest)
    requires |rest + t| == Top(q.stack).length + 2
    ensures Run(m, q, rest).ending == Waiting && Run(m, q, rest + t).p != Resumed(m, q, rest, t).p
  {
    var len := Top(q.stack).length;
    BulkCompletes(q, rest + t, len);
    var r := m.step(q, rest + t);
    assert r == Round(q, rest + t);
    RunGo(m, q, rest + t, r);
    assert (rest + t)[r.used..] == [];
    RestsBeforeElement(m, r.p);
    assert !Top(Run(m, q, rest + t).p.stack).Bulk?;

    BulkStops(q, rest, len);
    var r1 := m.step(q, rest);
    assert r1 == Round(q, rest);
    var left := rest[r1.used..] + t;
    BulkStops(r1.p, left, len);
    var r2 := m.step(r1.p, left);
    assert r2 == Round(r1.p, left);
    assert Top(Resumed(m, q, rest, t).p.stack).Bulk?;
  }

  // -------------------------------------------------------------------- the theorem

  /** The run over `s` stops inside a non-empty bulk payload or the CRLF after it. */
  ghost predicate Torn(p: PState, s: Bytes)
    requires StackOk(p.stack)
  {
    ParserSound();
    TornAt(Halt(Parser(), p, s).q, Halt(Parser(), p, s).rest)
  }

  /**
   From any parser state, for any bytes, the run over `s` can be resumed whatever follows exactly when it
   waits for more and does not stop inside a non-empty payload or its CRLF.
   */
  lemma {:induction false} GoodCutIff(p: PState, s: Bytes)
    requires StackOk(p.stack)
    ensures (ParserSound(); GoodCut(Parser(), p, s) <==> Run(Parser(), p, s).ending == Waiting && !Torn(p, s))
  {
    ParserSound();
    ParserStable();
    if Run(Parser(), p, s).ending == Waiting {
      GoodCutIffAtHalt(Parser(), p, s);
      GoodRestIff(Parser(), Halt(Parser(), p, s).q, Halt(Parser(), p, s).rest);
    }
  }

  lemma {:induction false} GoodRestIff(m: Machine<PState>, q: PState, rest: Bytes)
    requires m == Parser() && Sound(m) && StackOk(q.stack)
    requires !m.step(q, rest).go && Run(m, q, rest).ending == Waiting
    ensures GoodCut(m, q, rest) <==> !TornAt(q, rest)
  {
    if TornAt(q, rest) {
      var t := seq(Top(q.stack).length + 2 - |rest|, _ => 0);
      TornLoses(m, q, rest, t);
      assert !GoodCut(m, q, rest);
    } else {
      forall t ensures Run(m, q, rest + t) == Resumed(m, q, rest, t) {
        RestResumes(m, q, rest, t);
      }
    }
  }
}

/**
 The RESP parser as a stack machine: one step of each parser state on the bytes at hand, and
 `Run`, the loop of `parser_parse` over one chunk.
 */
module Resp {
  import opened Decimal
  import opened Handler
  import opened Stream

  datatype SimpleKind = StringLine | ErrorLine | IntegerLine

  /** A stack entry: the parser state with the length it counts down. */
  datatype Frame =
    | Terminal | Initial | Simple(kind: SimpleKind) | ArrayLength | BulkLength
    | Bulk(length: int) | Array(length: int) | Inline

  const MAX_DEPTH: nat := 32

  datatype PState = PState(stack: seq<Frame>, h: HState)

  /** `ParseResult`, with the new parser state; a declared length below -1 is refused. */
  type PResult = Result<PState>

  function Init(h: HState): PState { PState([Terminal], h) }

  /** The replication state is set from outside the parser. */
  function WithReplState(f: Feed<PState>, st: Repl): Feed<PState> { f.(p := f.p.(h := f.p.h.(repl := st))) }

  // ----------------------------------------------------------------- the stack

  function Push(stack: seq<Frame>, f: Frame): (r: seq<Frame>)
    ensures |r| <= MAX_DEPTH || r == stack
  {
    if |stack| < MAX_DEPTH then stack + [f] else stack
  }

  function Pop(stack: seq<Frame>): seq<Frame> {
    if |stack| > 1 then stack[..|stack| - 1] else stack
  }

  function Top(stack: seq<Frame>): Frame
    requires stack != []
  {
    stack[|stack| - 1]
  }

  /** An array above which an element is being parsed, with the elements still to come. */
  predicate Open(f: Frame) { f.Array? && f.length >= 0 }

  predicate TopOk(f: Frame) {
    && f != Terminal
    && (f.Array? ==> f.length >= -1)
    && (f.Bulk? ==> f.length >= -1)
  }

  /** The shape of every reachable stack: terminal state, then open arrays, then at most one leaf. */
  predicate StackOk(stack: seq<Frame>) {
    && 1 <= |stack| <= MAX_DEPTH
    && stack[0] == Terminal
    && (forall i :: 0 < i < |stack| - 1 ==> Open(stack[i]))
    && (|stack| > 1 ==> TopOk(Top(stack)))
  }

  // --------------------------------------------------------------- parser states

  function Stop(p: PState, used: nat): PResult { Result(p, false, used, false) }

  function Go(p: PState, used: nat): PResult { Result(p, true, used, false) }

  function Find(s: Bytes, b: byte): (n: nat)
    ensures n <= |s| && b !in s[..n]
    ensures n < |s| ==> s[n] == b
  {
    Leading(s, (x: byte) => x != b)
  }

  /** The handler call made for the first byte of an element. */
  function BeginElement(h: HState, b: byte): HState {
    if b == PLUS then BeginSimple(h) else h
  }

  /** The state pushed for the first byte of an element. */
  function ElementFrame(b: byte): (f: Frame)
    ensures TopOk(f) && !f.Array? && !f.Bulk?
  {
    if b == PLUS then Simple(StringLine)
    else if b == MINUS then Simple(ErrorLine)
    else if b == 58 then Simple(IntegerLine)
    else if b == 36 then BulkLength
    else if b == 42 then ArrayLength
    else Inline
  }

  function StepInitial(p: PState, s: Bytes): PResult
    requires p.stack != []
  {
    if s == [] then Stop(p, 0)
    else
      var below := if Top(p.stack) == Initial then Pop(p.stack) else p.stack;
      var f := ElementFrame(s[0]);
      Go(PState(Push(below, f), BeginElement(p.h, s[0])), if f.Inline? then 0 else 1)
  }

  function StepSimple(p: PState, s: Bytes, kind: SimpleKind): PResult {
    if s == [] then Stop(p, 0)
    else
      var pos := Find(s, CR);
      var h := Chars(p.h, s[..pos]);
      if |s| - pos < 2 || s[pos + 1] != LF then Stop(p.(h := h), pos)
      else Go(PState(Pop(p.stack), if kind.StringLine? then EndSimple(h) else h), pos + 2)
  }

  /** A complete length line: the number and the CRLF after it, with the number in `int` range. */
  predicate LengthLine(s: Bytes) {
    && !Unfinished(s, |s|)
    && s[Strtol(s).end] == CR && s[Strtol(s).end + 1] == LF
    && INT_MIN <= Strtol(s).value <= INT_MAX
  }

  function StepLength(p: PState, s: Bytes, isArray: bool): PResult {
    if s == [] || !LengthLine(s) then Stop(p, 0)
    else
      var n := Strtol(s).value;
      var used := Strtol(s).end + 2;
      if n < -1 then Result(p, false, 0, true)
      else if isArray then Go(PState(Push(Pop(p.stack), Array(n)), BeginArray(p.h)), used)
      else Go(PState(Push(Pop(p.stack), Bulk(n)), BeginBulk(p.h, n)), used)
  }

  function StepBulk(p: PState, s: Bytes, len: int): PResult
    requires len >= -1
  {
    if len == -1 then Go(PState(Pop(p.stack), EndBulk(p.h)), 0)
    else if s == [] then Stop(p, 0)
    else
      var n := if len <= |s| then len else |s|;
      var h := Chars(p.h, s[..n]);
      if n == len && |s| >= n + 2 then Go(PState(Pop(p.stack), EndBulk(h)), n + 2)
      else Stop(p.(h := h), n)
  }

  function StepArray(p: PState, len: int): PResult
    requires p.stack != []
  {
    if len == 0 || len == -1 then Go(PState(Pop(p.stack), EndArray(p.h)), 0)
    else Go(p.(stack := Push(p.stack[|p.stack| - 1 := Array(len - 1)], Initial)), 0)
  }

  predicate Quoted(line: Bytes, i: nat)
    requires i < |line|
  {
    line[i] == 34 || line[i] == 39
  }

  function TokenStart(line: Bytes, i: nat): (r: nat)
    requires i < |line|
    ensures r <= |line|
  {
    if Quoted(line, i) then i + 1 else i
  }

  function TokenEnd(line: Bytes, i: nat): (r: nat)
    requires i < |line|
    ensures TokenStart(line, i) <= r <= |line|
  {
    TokenStart(line, i) + Find(line[TokenStart(line, i)..], if Quoted(line, i) then line[i] else 32)
  }

  /** Where the search goes on: past the delimiter, and after a quoted token one byte further. */
  function TokenNext(line: Bytes, i: nat): (r: nat)
    requires i < |line| && line[i] != 32
    ensures r > i
  {
    (if TokenEnd(line, i) < |line| then TokenEnd(line, i) + 1 else |line|) + (if Quoted(line, i) then 1 else 0)
  }

  /** The tokens of an inline command line from position `i`. */
  function Tokens(line: Bytes, i: nat): (r: seq<Bytes>)
    decreases |line| - i
  {
    if i >= |line| then []
    else if line[i] == 32 then Tokens(line, i + 1)
    else [line[TokenStart(line, i)..TokenEnd(line, i)]] + Tokens(line, TokenNext(line, i))
  }

  /** The handler calls for an inline command line. */
  function InlineCommand(h: HState, line: Bytes): HState {
    EndArray(AddArgs(BeginArray(h), Tokens(line, 0)))
  }

  function StepInline(p: PState, s: Bytes): PResult {
    var pos := Find(s, CR);
    if pos == |s| then Stop(p, 0)
    else Go(PState(Pop(p.stack), InlineCommand(p.h, s[..pos])), pos + 2)
  }

  function Step(p: PState, s: Bytes): PResult
    requires StackOk(p.stack)
  {
    match Top(p.stack)
    case Terminal => StepInitial(p, s)
    case Initial => StepInitial(p, s)
    case Simple(kind) => StepSimple(p, s, kind)
    case ArrayLength => StepLength(p, s, true)
    case BulkLength => StepLength(p, s, false)
    case Bulk(len) => StepBulk(p, s, len)
    case Array(len) => StepArray(p, len)
    case Inline => StepInline(p, s)
  }

  // ------------------------------------------------------------- shape and termination

  function Rank(f: Frame): nat {
    match f
    case Terminal => 2
    case Initial => 2
    case Bulk(_) => 3
    case Inline => 1
    case _ => 0
  }

  function Pending(stack: seq<Frame>): int {
    if stack == [] then 0
    else Pending(stack[..|stack| - 1]) + (if Top(stack).Array? then 4 * (Top(stack).length + 2) else 0)
  }

  /** Decreases with every step that consumes nothing. */
  function Weight(stack: seq<Frame>): int
    requires stack != []
  {
    Pending(stack) + Rank(Top(stack))
  }

  lemma {:induction false} PendingNonNegative(stack: seq<Frame>)
    requires forall i :: 0 <= i < |stack| && stack[i].Array? ==> stack[i].length >= -1
    ensures Pending(stack) >= 0
  {
    if stack != [] { PendingNonNegative(stack[..|stack| - 1]); }
  }

  lemma {:induction false} WeightNonNegative(stack: seq<Frame>)
    requires StackOk(stack)
    ensures Weight(stack) >= 0
  {
    PendingNonNegative(stack);
  }

  lemma {:induction false} PoppedOk(stack: seq<Frame>)
    requires StackOk(stack) && |stack| > 1
    ensures StackOk(Pop(stack)) && |Pop(stack)| == |stack| - 1
    ensures Top(Pop(stack)) == Terminal || Open(Top(Pop(stack)))
  {
  }

  /** A state pushed on an open array or the terminal state: the depth limit is not met. */
  lemma {:induction false} PushedOk(stack: seq<Frame>, f: Frame)
    requires StackOk(stack) && |stack| < MAX_DEPTH && TopOk(f)
    requires Top(stack) == Terminal || Open(Top(stack))
    ensures StackOk(Push(stack, f)) && Top(Push(stack, f)) == f
    ensures Pending(Push(stack, f)) == Pending(stack) + if f.Array? then 4 * (f.length + 2) else 0
  {
    assert (stack + [f])[..|stack|] == stack;
  }

  /** What every step keeps: the shape of the stack; and a step that consumes nothing lowers the weight. */
  ghost predicate StepSafe(p: PState, s: Bytes, r: PResult)
    requires StackOk(p.stack)
  {
    && StackOk(r.p.stack)
    && (!r.go ==> r.used <= |s|)
    && (r.go && r.used == 0 ==> 0 <= Weight(r.p.stack) < Weight(p.stack))
    && (r.used > |s| ==> Top(p.stack).Inline? && s != [] && s[|s| - 1] == CR && r.used == |s| + 1)
  }

  lemma {:induction false} InitialSafe(p: PState, s: Bytes)
    requires StackOk(p.stack) && (Top(p.stack) == Terminal || Top(p.stack) == Initial)
    ensures StepSafe(p, s, StepInitial(p, s))
  {
    if s != [] {
      var below := if Top(p.stack) == Initial then Pop(p.stack) else p.stack;
      if Top(p.stack) == Initial { PoppedOk(p.stack); }
      PushedOk(below, ElementFrame(s[0]));
      WeightNonNegative(Push(below, ElementFrame(s[0])));
    }
  }

  lemma {:induction false} LengthSafe(p: PState, s: Bytes, isArray: bool)
    requires StackOk(p.stack) && (Top(p.stack) == ArrayLength || Top(p.stack) == BulkLength)
    ensures StepSafe(p, s, StepLength(p, s, isArray))
  {
    if s != [] && LengthLine(s) && Strtol(s).value >= -1 {
      PoppedOk(p.stack);
      PushedOk(Pop(p.stack), Array(Strtol(s).value));
      PushedOk(Pop(p.stack), Bulk(Strtol(s).value));
    }
  }

  lemma {:induction false} BulkSafe(p: PState, s: Bytes, len: int)
    requires StackOk(p.stack) && Top(p.stack) == Bulk(len)
    ensures StepSafe(p, s, StepBulk(p, s, len))
  {
    PoppedOk(p.stack);
    WeightNonNegative(Pop(p.stack));
  }

  lemma {:induction false} ArraySafe(p: PState, s: Bytes, len: int)
    requires StackOk(p.stack) && Top(p.stack) == Array(len)
    ensures StepSafe(p, s, StepArray(p, len))
  {
    if len == 0 || len == -1 {
      PoppedOk(p.stack);
      WeightNonNegative(Pop(p.stack));
    } else {
      var n := |p.stack| - 1;
      var stack := p.stack[n := Array(len - 1)];
      assert stack[..n] == p.stack[..n];
      assert StackOk(stack);
      WeightNonNegative(stack);
      if n + 1 < MAX_DEPTH {
        PushedOk(stack, Initial);
        WeightNonNegative(Push(stack, Initial));
      }
    }
  }

  lemma {:induction false} StepIsSafe(p: PState, s: Bytes)
    requires StackOk(p.stack)
    ensures StepSafe(p, s, Step(p, s))
  {
    match Top(p.stack)
    case Terminal => InitialSafe(p, s);
    case Initial => InitialSafe(p, s);
    case Simple(kind) => PoppedOk(p.stack);
    case ArrayLength => LengthSafe(p, s, true);
    case BulkLength => LengthSafe(p, s, false);
    case Bulk(len) => BulkSafe(p, s, len);
    case Array(len) => ArraySafe(p, s, len);
    case Inline => PoppedOk(p.stack);
  }

  /** The pushes for an element and for its length always land, because a state is popped before them. */
  lemma {:induction false} ElementPushLands(p: PState, s: Bytes)
    requires StackOk(p.stack) && (Top(p.stack) == Terminal || Top(p.stack) == Initial) && s != []
    ensures Top(StepInitial(p, s).p.stack) == ElementFrame(s[0])
  {
    if Top(p.stack) == Initial { PoppedOk(p.stack); }
  }

  lemma {:induction false} LengthPushLands(p: PState, s: Bytes, isArray: bool)
    requires StackOk(p.stack) && (Top(p.stack) == ArrayLength || Top(p.stack) == BulkLength)
    requires StepLength(p, s, isArray).go
    ensures Top(StepLength(p, s, isArray).p.stack) == if isArray then Array(Strtol(s).value) else Bulk(Strtol(s).value)
  {
    PoppedOk(p.stack);
  }

  /** The push for the next element of an array is lost exactly at the depth limit. */
  lemma {:induction false} ArrayPushLandsIff(p: PState, len: int)
    requires StackOk(p.stack) && Top(p.stack) == Array(len) && len > 0
    ensures Top(StepArray(p, len).p.stack) == Initial <==> |p.stack| < MAX_DEPTH
  {
  }

  // ------------------------------------------------------------------- the main loop

  /** The replica has seen the full resync line: the parser must leave the rest alone. */
  predicate Gate(h: HState) { h.isMaster && h.repl == FullResync }

  /** One round of the loop in `parser_parse`. */
  function Round(p: PState, s: Bytes): PResult {
    if !StackOk(p.stack) || Gate(p.h) then Stop(p, 0) else Step(p, s)
  }

  function WeightOf(p: PState): nat {
    if p.stack != [] && Weight(p.stack) >= 0 then Weight(p.stack) else 0
  }

  /** `parser_parse` as a stream machine; `Run(Parser(), p, s)` is its run over the chunk `s`. */
  function Parser(): Machine<PState> {
    Machine(Round, (p: PState) => StackOk(p.stack), WeightOf)
  }

  lemma {:induction false} RoundSound(p: PState, s: Bytes)
    requires StackOk(p.stack)
    ensures var r := Round(p, s);
      && StackOk(r.p.stack) && (!r.go ==> r.used <= |s|) && (r.bad ==> !r.go)
      && (r.go && r.used == 0 ==> WeightOf(r.p) < WeightOf(p))
  {
    StepIsSafe(p, s);
    if Step(p, s).bad { BadStops(p, s); }
  }

  lemma {:induction false} BadStops(p: PState, s: Bytes)
    requires StackOk(p.stack) && Step(p, s).bad
    ensures !Step(p, s).go
  {
  }

  /** The parser keeps the stack's shape and stops inside its chunk; its loop terminates. */
  lemma {:induction false} ParserSound()
    ensures Sound(Parser())
  {
    forall p: PState, s: Bytes | StackOk(p.stack)
      ensures var r := Round(p, s);
        && StackOk(r.p.stack) && (!r.go ==> r.used <= |s|) && (r.bad ==> !r.go)
        && (r.go && r.used == 0 ==> WeightOf(r.p) < WeightOf(p))
    {
      RoundSound(p, s);
    }
  }
}

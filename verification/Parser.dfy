/** The parser object: the stack in its fixed array, one method a parser state, and the main loop. */
module Parsers {
  import opened Decimal
  import opened Handler
  import opened Seals
  import opened Stream
  import opened Resp
  import opened CommandHandlers

  class RespParser {
    const stack: array<Frame>
    var top: nat
    const ch: CommandHandler

    constructor (ch: CommandHandler)
      ensures Valid() && fresh(stack) && this.ch == ch && State() == Init(ch.State())
    {
      this.ch := ch;
      stack := new Frame[MAX_DEPTH](_ => Terminal);
      top := 0;
      new;
      stack[0] := Terminal;
      assert stack[..1] == [Terminal];
    }

    predicate Valid()
      reads this, stack
    {
      stack.Length == MAX_DEPTH && top < MAX_DEPTH && StackOk(stack[..top + 1])
    }

    function State(): PState
      requires stack.Length == MAX_DEPTH && top < MAX_DEPTH
      reads this, stack, ch
    {
      PState(stack[..top + 1], ch.State())
    }

    method PushState(f: Frame)
      requires stack.Length == MAX_DEPTH && top < MAX_DEPTH
      modifies this, stack
      ensures top < MAX_DEPTH && stack[..top + 1] == Push(old(stack[..top + 1]), f)
    {
      ghost var s := stack[..top + 1];
      if top < MAX_DEPTH - 1 {
        top := top + 1;
        stack[top] := f;
        assert stack[..top] == s;
      }
    }

    method PopState()
      requires stack.Length == MAX_DEPTH && top < MAX_DEPTH
      modifies this
      ensures top < MAX_DEPTH && stack[..top + 1] == Pop(old(stack[..top + 1]))
    {
      if top > 0 { top := top - 1; }
    }

    /** `r` is what a parse method did: the new state, whether to go on, and the new position. */
    ghost predicate Did(r: PResult, go: bool, begin: nat, newBegin: nat)
      reads this, stack, ch
    {
      && stack.Length == MAX_DEPTH && top < MAX_DEPTH
      && State() == r.p && go == r.go && newBegin == begin + r.used
    }

    method ParseInitial(data: Bytes, begin: nat) returns (go: bool, newBegin: nat)
      requires Valid() && begin <= |data| && (stack[top] == Terminal || stack[top] == Initial)
      modifies this, stack, ch
      ensures Did(StepInitial(old(State()), data[begin..]), go, begin, newBegin)
    {
      if begin == |data| { return false, begin; }
      if stack[top] == Initial { PopState(); }
      if data[begin] == PLUS { ch.OnBeginSimple(); }
      PushState(ElementFrame(data[begin]));
      return true, if ElementFrame(data[begin]).Inline? then begin else begin + 1;
    }

    /** The position of the first `b` at or after `begin`, or the end. */
    static method Scan(data: Bytes, begin: nat, b: byte) returns (pos: nat)
      requires begin <= |data|
      ensures pos == begin + Find(data[begin..], b)
    {
      pos := begin;
      while pos < |data| && data[pos] != b
        invariant begin <= pos <= |data|
        invariant forall i :: begin <= i < pos ==> data[i] != b
      {
        pos := pos + 1;
      }
      LeadingIs(data[begin..], (x: byte) => x != b, pos - begin);
    }

    /** The bytes up to the CR, or to the end, go to the handler. */
    method TakeLine(data: Bytes, begin: nat) returns (pos: nat)
      requires begin <= |data|
      modifies ch
      ensures pos == begin + Find(data[begin..], CR)
      ensures ch.State() == Chars(old(ch.State()), data[begin..][..pos - begin])
    {
      pos := Scan(data, begin, CR);
      assert data[begin..pos] == data[begin..][..pos - begin];
      ch.OnChars(data[begin..pos]);
    }

    method ParseSimple(data: Bytes, begin: nat) returns (go: bool, newBegin: nat)
      requires Valid() && begin <= |data| && stack[top].Simple?
      modifies this, ch
      ensures Did(StepSimple(old(State()), data[begin..], old(stack[top].kind)), go, begin, newBegin)
    {
      if begin == |data| { return false, begin; }
      var kind := stack[top].kind;
      var pos := TakeLine(data, begin);
      if |data| - pos < 2 {
        return false, pos;
      } else if data[pos + 1] == LF {
        EndLine(kind);
        return true, pos + 2;
      } else {
        return false, pos;
      }
    }

    /** The end of a simple line; only strings are handed on. */
    method EndLine(kind: SimpleKind)
      requires Valid()
      modifies this, ch
      ensures top < MAX_DEPTH && State() ==
        var p := old(State()); PState(Pop(p.stack), if kind.StringLine? then EndSimple(p.h) else p.h)
    {
      if kind.StringLine? { ch.OnEndSimple(); }
      PopState();
    }

    method ParseLength(data: Bytes, begin: nat) returns (go: bool, newBegin: nat, bad: bool)
      requires Valid() && begin <= |data| && (stack[top] == ArrayLength || stack[top] == BulkLength)
      modifies this, stack, ch
      ensures Did(StepLength(old(State()), data[begin..], old(stack[top]) == ArrayLength), go, begin, newBegin)
      ensures bad == StepLength(old(State()), data[begin..], old(stack[top]) == ArrayLength).bad
    {
      var s := data[begin..];
      if begin == |data| { return false, begin, false; }
      var length := Strtol(s);
      if length.end == 0 || length.end + 1 >= |s| || length.erange { return false, begin, false; }
      if s[length.end] != CR || s[length.end + 1] != LF { return false, begin, false; }
      if length.value > INT_MAX || length.value < INT_MIN { return false, begin, false; }
      if length.value < -1 { return false, begin, true; }
      OpenLength(length.value);
      return true, begin + length.end + 2, false;
    }

    /** The element whose length line is complete is begun. */
    method OpenLength(length: int)
      requires Valid() && (stack[top] == ArrayLength || stack[top] == BulkLength)
      modifies this, stack, ch
      ensures top < MAX_DEPTH
      ensures State() == var p := old(State());
        if old(stack[top]) == ArrayLength then PState(Push(Pop(p.stack), Array(length)), BeginArray(p.h))
        else PState(Push(Pop(p.stack), Bulk(length)), BeginBulk(p.h, length))
    {
      if stack[top] == ArrayLength {
        PopState();
        ch.OnBeginArray();
        PushState(Array(length));
      } else {
        PopState();
        ch.OnBeginBulk(length);
        PushState(Bulk(length));
      }
    }

    method ParseBulkString(data: Bytes, begin: nat) returns (go: bool, newBegin: nat)
      requires Valid() && begin <= |data| && stack[top].Bulk? && stack[top].length >= -1
      modifies this, ch
      ensures Did(StepBulk(old(State()), data[begin..], old(stack[top].length)), go, begin, newBegin)
    {
      var length := stack[top].length;
      if length == -1 {
        ch.OnEndBulk();
        PopState();
        return true, begin;
      }
      if begin == |data| { return false, begin; }
      var inputLength := |data| - begin;
      var outputLength := if length <= inputLength then length else inputLength;
      assert data[begin..begin + outputLength] == data[begin..][..outputLength];
      ch.OnChars(data[begin..begin + outputLength]);
      length := length - outputLength;
      if length == 0 && inputLength >= outputLength + 2 {
        ch.OnEndBulk();
        PopState();
        return true, begin + outputLength + 2;
      } else {
        return false, begin + outputLength;
      }
    }

    method ParseArray(begin: nat) returns (go: bool, newBegin: nat)
      requires Valid() && stack[top].Array?
      modifies this, stack, ch
      ensures Did(StepArray(old(State()), old(stack[top].length)), go, begin, newBegin)
    {
      var length := stack[top].length;
      if length == 0 || length == -1 {
        ch.OnEndArray();
        PopState();
        return true, begin;
      }
      ghost var before := stack[..top + 1];
      stack[top] := Array(length - 1);
      assert stack[..top + 1] == before[top := Array(length - 1)];
      PushState(Initial);
      return true, begin;
    }

    method ParseInline(data: Bytes, begin: nat) returns (go: bool, newBegin: nat)
      requires Valid() && begin <= |data| && stack[top] == Inline
      modifies this, ch
      ensures Did(StepInline(old(State()), data[begin..]), go, begin, newBegin)
    {
      if begin == |data| { return false, begin; }
      var pos := Scan(data, begin, CR);
      if pos == |data| { return false, begin; }
      assert data[begin..pos] == data[begin..][..pos - begin];
      RunLine(data[begin..pos]);
      return true, pos + 2;
    }

    method RunLine(line: Bytes)
      requires Valid()
      modifies this, ch
      ensures top < MAX_DEPTH && State() == PState(Pop(old(State()).stack), InlineCommand(old(State()).h, line))
    {
      EmitTokens(line);
      PopState();
    }

    method EmitArgument(arg: Bytes)
      modifies ch
      ensures ch.State() == AddArg(old(ch.State()), arg)
    {
      ch.OnBeginBulk(|arg|);
      ch.OnChars(arg);
      ch.OnEndBulk();
    }

    /** One token that starts at `i`: its three handler calls, and where the next one may start. */
    method EmitToken(line: Bytes, i: nat) returns (next: nat)
      requires i < |line| && line[i] != 32
      modifies ch
      ensures next == TokenNext(line, i)
      ensures ch.State() == AddArg(old(ch.State()), line[TokenStart(line, i)..TokenEnd(line, i)])
    {
      var quoted := line[i] == 34 || line[i] == 39;
      var start := if quoted then i + 1 else i;
      var end := Scan(line, start, if quoted then line[i] else 32);
      EmitArgument(line[start..end]);
      next := if end < |line| then end + 1 else end;
      if quoted { next := next + 1; }
    }

    lemma {:induction false} TokensFrom(h: HState, h': HState, line: Bytes, i: nat)
      requires i < |line| && line[i] != 32 && h' == AddArg(h, line[TokenStart(line, i)..TokenEnd(line, i)])
      ensures AddArgs(h', Tokens(line, TokenNext(line, i))) == AddArgs(h, Tokens(line, i))
    {
      var t, ts := line[TokenStart(line, i)..TokenEnd(line, i)], Tokens(line, TokenNext(line, i));
      assert ([t] + ts)[1..] == ts;
    }

    /** The token loop of an inline command, between the calls that open and close the array. */
    method EmitTokens(line: Bytes)
      modifies ch
      ensures ch.State() == InlineCommand(old(ch.State()), line)
    {
      ch.OnBeginArray();
      ghost var h := ch.State();
      var i: nat := 0;
      while i < |line|
        invariant AddArgs(ch.State(), Tokens(line, i)) == AddArgs(h, Tokens(line, 0))
      {
        while i < |line| && line[i] == 32
          invariant AddArgs(ch.State(), Tokens(line, i)) == AddArgs(h, Tokens(line, 0))
        {
          i := i + 1;
        }
        if i >= |line| { break; }
        ghost var before := ch.State();
        var next := EmitToken(line, i);
        TokensFrom(before, ch.State(), line, i);
        i := next;
      }
      ch.OnEndArray();
    }
  
    /** The call through the parse function of the top state. */
    method Dispatch(data: Bytes, begin: nat) returns (go: bool, newBegin: nat, bad: bool)
      requires Valid() && begin <= |data|
      modifies this, stack, ch
      ensures Did(Step(old(State()), data[begin..]), go, begin, newBegin)
      ensures bad == Step(old(State()), data[begin..]).bad
    {
      assert Top(stack[..top + 1]) == stack[top];
      bad := false;
      match stack[top]
      case Terminal => go, newBegin := ParseInitial(data, begin);
      case Initial => go, newBegin := ParseInitial(data, begin);
      case Simple(_) => go, newBegin := ParseSimple(data, begin);
      case ArrayLength => go, newBegin, bad := ParseLength(data, begin);
      case BulkLength => go, newBegin, bad := ParseLength(data, begin);
      case Bulk(_) => go, newBegin := ParseBulkString(data, begin);
      case Array(_) => go, newBegin := ParseArray(begin);
      case Inline => go, newBegin := ParseInline(data, begin);
    }

    /** One round of the loop, with the check for the full resync state in front. */
    method OneRound(data: Bytes, begin: nat, ghost m: Machine<PState>) returns (go: bool, newBegin: nat, bad: bool)
      requires Valid() && begin <= |data| && IsRespMachine(m)
      modifies this, stack, ch
      ensures Valid() && Did(m.step(old(State()), data[begin..]), go, begin, newBegin)
      ensures bad == m.step(old(State()), data[begin..]).bad
    {
      assert Opened(MachineKey);
      StepIsSafe(State(), data[begin..]);
      assert m.step(State(), data[begin..]) == Round(State(), data[begin..]);
      if ch.isMaster && ch.repl == FullResync {
        return false, begin, false;
      }
      go, newBegin, bad := Dispatch(data, begin);
    }

    /** The loop of `parser_parse`. */
    method ParseLoop(data: Bytes, ghost m: Machine<PState>) returns (used: nat, ending: Ending)
      requires Valid() && IsRespMachine(m) && Sound(m) && m.ok(State())
      modifies this, stack, ch
      ensures Valid() && Run(m, old(State()), data) == Outcome(State(), used, ending)
    {
      ghost var p := State();
      used, ending := 0, Waiting;
      assert data[0..] == data;
      var go := true;
      while go
        invariant Valid() && m.ok(State())
        invariant go ==> used <= |data| && Run(m, p, data) == Shift(Run(m, State(), data[used..]), used)
        invariant !go ==> Run(m, p, data) == Outcome(State(), used, ending)
        decreases go, |data| - used, m.weight(State())
      {
        ghost var q := State();
        var newUsed, bad;
        go, newUsed, bad := OneRound(data, used, m);
        RunOneStep(m, q, data, used, newUsed);
        if !go || newUsed > |data| {
          ending := if bad then Refused else if go then Overrun else Waiting;
          go := false;
        }
        used := newUsed;
      }
    }

    /** `parser_parse`: the outcome is the run of the parser machine over the chunk. */
    method Parse(data: Bytes) returns (used: nat, ending: Ending)
      requires Valid()
      modifies this, stack, ch
      ensures Valid() && (ParserSound(); Run(Parser(), old(State()), data)) == Outcome(State(), used, ending)
    {
      ParserSound();
      used, ending := ParseLoop(data, Parser());
    }
  }

  datatype MachineKey = MachineKey

  /** `m` is the parser machine, sealed. */
  ghost predicate IsRespMachine(m: Machine<PState>) {
    forall k: MachineKey {:trigger Opened(k)} :: Opened(k) ==> m == Parser()
  }

  /** What one more step adds to a run. */
  lemma {:induction false} RunOneStep<P(!new)>(m: Machine<P>, q: P, data: Bytes, used: nat, newUsed: nat)
    requires Sound(m) && m.ok(q) && used <= |data| && newUsed == used + m.step(q, data[used..]).used
    ensures var r := m.step(q, data[used..]);
      && m.ok(r.p) && (r.bad ==> !r.go)
      && (r.go && newUsed <= |data| ==> Run(m, q, data[used..]) == Shift(Run(m, r.p, data[newUsed..]), r.used))
      && (r.go && newUsed == used ==> m.weight(r.p) < m.weight(q))
      && (!r.go || newUsed > |data| ==> Run(m, q, data[used..]) == End(r))
  {
    var r := m.step(q, data[used..]);
    if r.go && newUsed <= |data| {
      RunGo(m, q, data[used..], r);
      assert data[used..][r.used..] == data[newUsed..];
    }
  }
}

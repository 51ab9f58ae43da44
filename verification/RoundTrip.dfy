/** The encoding of commands, and the parser undoing it. */
module RoundTrip {
  import opened Decimal
  import opened Handler
  import opened Numerals
  import opened Stream
  import opened Resp
  import opened Chunking

  const CRLF: Bytes := [CR, LF]

  /** What `write_begin_bulk_string`, `write_chars` and `write_end_bulk_string` put out for `arg`. */
  function EncodeBulk(arg: Bytes): Bytes { [36] + Show(|arg|) + CRLF + arg + CRLF }

  function EncodeArgs(args: seq<Bytes>): Bytes {
    if args == [] then [] else EncodeBulk(args[0]) + EncodeArgs(args[1..])
  }

  /** The output of `add_array_reply`. */
  function EncodeCommand(args: seq<Bytes>): Bytes { [42] + Show(|args|) + CRLF + EncodeArgs(args) }

  /** Commands sent one after the other. */
  function EncodeAll(cmds: seq<seq<Bytes>>): Bytes {
    if cmds == [] then [] else EncodeCommand(cmds[0]) + EncodeAll(cmds[1..])
  }

  // --------------------------------------------------- commands with any numerals

  function BulkText(d: Bytes, arg: Bytes): Bytes { [36] + d + CRLF + arg + CRLF }

  function ArgsText(ds: seq<Bytes>, args: seq<Bytes>): Bytes
    requires |ds| == |args|
  {
    if args == [] then [] else BulkText(ds[0], args[0]) + ArgsText(ds[1..], args[1..])
  }

  /** A command whose count is written `d` and whose lengths are written `ds`. */
  function CommandText(d: Bytes, ds: seq<Bytes>, args: seq<Bytes>): Bytes
    requires |ds| == |args|
  {
    [42] + d + CRLF + ArgsText(ds, args)
  }

  ghost predicate CountAll(ds: seq<Bytes>, args: seq<Bytes>) {
    |ds| == |args| && forall i :: 0 <= i < |args| ==> Counts(ds[i], |args[i]|)
  }

  /** The lengths of the arguments as they are printed. */
  function Lengths(args: seq<Bytes>): (ds: seq<Bytes>)
    ensures |ds| == |args|
  {
    if args == [] then [] else [Show(|args[0]|)] + Lengths(args[1..])
  }

  lemma {:induction false} LengthsCount(args: seq<Bytes>)
    requires Fits(args)
    ensures CountAll(Lengths(args), args)
    decreases |args|
  {
    if args != [] {
      ShowCounts(|args[0]|);
      LengthsCount(args[1..]);
    }
  }

  lemma {:induction false} EncodedArgs(args: seq<Bytes>)
    ensures ArgsText(Lengths(args), args) == EncodeArgs(args)
    decreases |args|
  {
    if args != [] {
      EncodedArgs(args[1..]);
      assert Lengths(args)[1..] == Lengths(args[1..]);
    }
  }

  lemma {:induction false} EncodedText(args: seq<Bytes>)
    ensures CommandText(Show(|args|), Lengths(args), args) == EncodeCommand(args)
  {
    EncodedArgs(args);
  }

  /** Counts and lengths that the parser's `int` range admits. */
  ghost predicate Fits(args: seq<Bytes>) {
    |args| <= INT_MAX && forall i :: 0 <= i < |args| ==> |args[i]| <= INT_MAX
  }

  /** The digits `d` mean the count `n`, which the parser's `int` range admits. */
  ghost predicate Counts(d: Bytes, n: nat) { d != [] && AllDigits(d) && Meaning(d) == n <= INT_MAX }

  lemma {:induction false} LengthLineMeans(d: Bytes, n: nat)
    requires Counts(d, n)
    ensures var s := d + CRLF; LengthLine(s) && Strtol(s).value == n && Strtol(s).end + 2 == |s|
  {
    StrtolReads([], [], d, CRLF);
    assert [] + [] + (d + CRLF) == d + CRLF;
  }

  lemma {:induction false} ShowCounts(n: nat)
    requires n <= INT_MAX
    ensures Counts(Show(n), n)
  {
    ShowsTheNumeral(n);
  }

  /** `m` is the parser: its steps are the rounds of the parser's loop. */
  ghost predicate IsParser(m: Machine<PState>) {
    && Sound(m) && Stable(m)
    && (forall p: PState, u: Bytes {:trigger Round(p, u)} ::
          StackOk(p.stack) ==> m.ok(p) && m.step(p, u) == Round(p, u))
  }

  lemma {:induction false} ParserIsParser()
    ensures IsParser(Parser())
  {
    ParserSound();
    ParserStable();
  }

  lemma {:induction false} LeadsByRound(m: Machine<PState>, p: PState, u: Bytes, p': PState)
    requires IsParser(m) && StackOk(p.stack) && Round(p, u) == Go(p', |u|)
    ensures Leads(m, p, u, p')
  {
    LeadsByStep(m, p, u, p');
  }

  /** The state with `f` above `below`. */
  function Over(below: seq<Frame>, f: Frame, h: HState): PState { PState(below + [f], h) }

  /** A stack on which a new element can be parsed. */
  predicate Base(below: seq<Frame>) {
    StackOk(below) && |below| < MAX_DEPTH && (Top(below) == Terminal || Open(Top(below)))
  }

  lemma {:induction false} OverOk(below: seq<Frame>, f: Frame, h: HState)
    requires Base(below) && TopOk(f)
    ensures StackOk(Over(below, f, h).stack)
    ensures Top(Over(below, f, h).stack) == f && Pop(Over(below, f, h).stack) == below
  {
    PushedOk(below, f);
  }

  /** The state after a length line of `n`. */
  function Counted(below: seq<Frame>, h: HState, n: nat, isArray: bool): PState {
    if isArray then Over(below, Array(n), BeginArray(h)) else Over(below, Bulk(n), BeginBulk(h, n))
  }

  lemma {:induction false} LengthStep(p: PState, below: seq<Frame>, s: Bytes, n: nat, isArray: bool)
    requires |below| < MAX_DEPTH && Pop(p.stack) == below
    requires s != [] && LengthLine(s) && Strtol(s).value == n && Strtol(s).end + 2 == |s|
    ensures StepLength(p, s, isArray) == Go(Counted(below, p.h, n, isArray), |s|)
  {
  }

  lemma {:induction false} LeadsCount(m: Machine<PState>, below: seq<Frame>, h: HState, d: Bytes, n: nat, isArray: bool)
    requires IsParser(m) && Base(below) && !Gate(h) && Counts(d, n)
    ensures Leads(m, Over(below, if isArray then ArrayLength else BulkLength, h), d + CRLF,
                  Counted(below, h, n, isArray))
  {
    var f := if isArray then ArrayLength else BulkLength;
    OverOk(below, f, h);
    LengthLineMeans(d, n);
    LengthRound(Over(below, f, h), below, d + CRLF, n, isArray);
    LeadsByRound(m, Over(below, f, h), d + CRLF, Counted(below, h, n, isArray));
  }

  lemma {:induction false} LeadsLength(m: Machine<PState>, below: seq<Frame>, h: HState, n: nat, isArray: bool)
    requires IsParser(m) && Base(below) && !Gate(h) && n <= INT_MAX
    ensures Leads(m, Over(below, if isArray then ArrayLength else BulkLength, h), Show(n) + CRLF,
                  Counted(below, h, n, isArray))
  {
    ShowCounts(n);
    LeadsCount(m, below, h, Show(n), n, isArray);
  }

  lemma {:induction false} LengthRound(p: PState, below: seq<Frame>, s: Bytes, n: nat, isArray: bool)
    requires StackOk(p.stack) && !Gate(p.h) && |below| < MAX_DEPTH && Pop(p.stack) == below
    requires Top(p.stack) == if isArray then ArrayLength else BulkLength
    requires s != [] && LengthLine(s) && Strtol(s).value == n && Strtol(s).end + 2 == |s|
    ensures Round(p, s) == Go(Counted(below, p.h, n, isArray), |s|)
  {
    LengthStep(p, below, s, n, isArray);
  }

  lemma {:induction false} LeadsPayload(m: Machine<PState>, below: seq<Frame>, h: HState, arg: Bytes)
    requires IsParser(m) && Base(below) && !Gate(h)
    ensures Leads(m, Over(below, Bulk(|arg|), h), arg + CRLF, PState(below, EndBulk(Chars(h, arg))))
  {
    OverOk(below, Bulk(|arg|), h);
    assert (arg + CRLF)[..|arg|] == arg;
    LeadsByRound(m, Over(below, Bulk(|arg|), h), arg + CRLF, PState(below, EndBulk(Chars(h, arg))));
  }

  lemma {:induction false} LeadsFirstByte(m: Machine<PState>, p: PState, below: seq<Frame>, b: byte)
    requires IsParser(m) && Base(below) && !Gate(p.h)
    requires p.stack == below + [Initial] || (p.stack == below && Top(below) == Terminal)
    requires b == 36 || b == 42
    ensures Leads(m, p, [b], Over(below, if b == 36 then BulkLength else ArrayLength, p.h))
  {
    if p.stack == below + [Initial] { OverOk(below, Initial, p.h); }
    LeadsByRound(m, p, [b], Over(below, if b == 36 then BulkLength else ArrayLength, p.h));
  }

  lemma {:induction false} LeadsNextElement(m: Machine<PState>, below: seq<Frame>, h: HState, k: nat)
    requires IsParser(m) && Base(below) && !Gate(h) && |below| + 1 < MAX_DEPTH && k > 0
    ensures Base(below + [Array(k - 1)])
    ensures Leads(m, Over(below, Array(k), h), [], Over(below + [Array(k - 1)], Initial, h))
  {
    OverOk(below, Array(k), h);
    OverOk(below, Array(k - 1), h);
    assert (below + [Array(k)])[|below| := Array(k - 1)] == below + [Array(k - 1)];
    LeadsByRound(m, Over(below, Array(k), h), [], Over(below + [Array(k - 1)], Initial, h));
  }

  lemma {:induction false} LeadsArrayEnd(m: Machine<PState>, below: seq<Frame>, h: HState)
    requires IsParser(m) && Base(below) && !Gate(h)
    ensures Leads(m, Over(below, Array(0), h), [], PState(below, EndArray(h)))
  {
    OverOk(below, Array(0), h);
    LeadsByRound(m, Over(below, Array(0), h), [], PState(below, EndArray(h)));
  }

  // --------------------------------------------------------------- whole commands

  lemma {:induction false} LeadsBulk(m: Machine<PState>, below: seq<Frame>, h: HState, d: Bytes, arg: Bytes)
    requires IsParser(m) && Base(below) && !Gate(h) && Counts(d, |arg|)
    ensures Leads(m, Over(below, Initial, h), BulkText(d, arg), PState(below, AddArg(h, arg)))
  {
    var p0, p1 := Over(below, Initial, h), Over(below, BulkLength, h);
    var p2, line := Over(below, Bulk(|arg|), BeginBulk(h, |arg|)), d + CRLF;
    LeadsFirstByte(m, p0, below, 36);
    LeadsCount(m, below, h, d, |arg|, false);
    LeadsPayload(m, below, p2.h, arg);
    LeadsThen(m, p0, [36], p1, line, p2);
    LeadsThen(m, p0, [36] + line, p2, arg + CRLF, PState(below, AddArg(h, arg)));
    assert BulkText(d, arg) == [36] + line + (arg + CRLF);
  }

  /** One element of an array is a bulk string. */
  lemma {:induction false} LeadsElement(m: Machine<PState>, below: seq<Frame>, h: HState, d: Bytes, arg: Bytes, k: nat)
    requires IsParser(m) && Base(below) && |below| + 1 < MAX_DEPTH && !Gate(h) && Counts(d, |arg|)
    ensures Leads(m, Over(below, Array(k + 1), h), BulkText(d, arg), Over(below, Array(k), AddArg(h, arg)))
  {
    var below' := below + [Array(k)];
    LeadsNextElement(m, below, h, k + 1);
    LeadsBulk(m, below', h, d, arg);
    LeadsThen(m, Over(below, Array(k + 1), h), [], Over(below', Initial, h), BulkText(d, arg),
              PState(below', AddArg(h, arg)));
    assert [] + BulkText(d, arg) == BulkText(d, arg);
  }

  lemma {:induction false} LeadsArgs(m: Machine<PState>, below: seq<Frame>, h: HState, ds: seq<Bytes>, args: seq<Bytes>)
    requires IsParser(m) && Base(below) && |below| + 1 < MAX_DEPTH && !Gate(h) && CountAll(ds, args)
    ensures Leads(m, Over(below, Array(|args|), h), ArgsText(ds, args), PState(below, EndArray(AddArgs(h, args))))
    decreases |args|
  {
    if args == [] {
      LeadsArrayEnd(m, below, h);
    } else {
      LeadsElement(m, below, h, ds[0], args[0], |args| - 1);
      LeadsArgs(m, below, AddArg(h, args[0]), ds[1..], args[1..]);
      LeadsArgsCons(m, below, h, ds, args, |args| - 1);
    }
  }

  lemma {:induction false} LeadsArgsCons(m: Machine<PState>, below: seq<Frame>, h: HState, ds: seq<Bytes>,
      args: seq<Bytes>, k: nat)
    requires Sound(m) && |ds| == |args| == k + 1
    requires var h1 := AddArg(h, args[0]);
      && Leads(m, Over(below, Array(k + 1), h), BulkText(ds[0], args[0]), Over(below, Array(k), h1))
      && Leads(m, Over(below, Array(k), h1), ArgsText(ds[1..], args[1..]),
               PState(below, EndArray(AddArgs(h1, args[1..]))))
    ensures Leads(m, Over(below, Array(k + 1), h), ArgsText(ds, args), PState(below, EndArray(AddArgs(h, args))))
  {
    var h1 := AddArg(h, args[0]);
    LeadsThen(m, Over(below, Array(k + 1), h), BulkText(ds[0], args[0]), Over(below, Array(k), h1),
              ArgsText(ds[1..], args[1..]), PState(below, EndArray(AddArgs(h1, args[1..]))));
  }

  lemma {:induction false} LeadsCountLine(m: Machine<PState>, h: HState, d: Bytes, n: nat)
    requires IsParser(m) && !Gate(h) && Counts(d, n)
    ensures Leads(m, Init(h), [42] + (d + CRLF), Over([Terminal], Array(n), BeginArray(h)))
  {
    LeadsFirstByte(m, Init(h), [Terminal], 42);
    LeadsCount(m, [Terminal], h, d, n, true);
    LeadsThen(m, Init(h), [42], Over([Terminal], ArrayLength, h), d + CRLF,
              Over([Terminal], Array(n), BeginArray(h)));
  }

  lemma {:induction false} LeadsHeader(m: Machine<PState>, h: HState, n: nat)
    requires IsParser(m) && !Gate(h) && n <= INT_MAX
    ensures Leads(m, Init(h), [42] + (Show(n) + CRLF), Over([Terminal], Array(n), BeginArray(h)))
  {
    ShowCounts(n);
    LeadsCountLine(m, h, Show(n), n);
  }

  /** The handler state after one command. */
  function Executed(h: HState, args: seq<Bytes>): HState { EndArray(AddArgs(BeginArray(h), args)) }

  /** From the terminal state, the text of one command is consumed whole and executed. */
  lemma {:induction false} LeadsText(m: Machine<PState>, h: HState, d: Bytes, ds: seq<Bytes>, args: seq<Bytes>)
    requires IsParser(m) && !Gate(h) && Counts(d, |args|) && CountAll(ds, args)
    ensures Leads(m, Init(h), CommandText(d, ds, args), Init(Executed(h, args)))
  {
    var header := [42] + (d + CRLF);
    LeadsCountLine(m, h, d, |args|);
    LeadsArgs(m, [Terminal], BeginArray(h), ds, args);
    LeadsThen(m, Init(h), header, Over([Terminal], Array(|args|), BeginArray(h)), ArgsText(ds, args),
              Init(Executed(h, args)));
    assert CommandText(d, ds, args) == header + ArgsText(ds, args);
  }

  /** From the terminal state, one encoded command is consumed whole and executed. */
  lemma {:induction false} LeadsCommand(m: Machine<PState>, h: HState, args: seq<Bytes>)
    requires IsParser(m) && !Gate(h) && Fits(args)
    ensures Leads(m, Init(h), EncodeCommand(args), Init(Executed(h, args)))
  {
    ShowCounts(|args|);
    LengthsCount(args);
    EncodedText(args);
    LeadsText(m, h, Show(|args|), Lengths(args), args);
  }

  function ExecutedAll(h: HState, cmds: seq<seq<Bytes>>): HState
    decreases |cmds|
  {
    if cmds == [] then h else ExecutedAll(Executed(h, cmds[0]), cmds[1..])
  }

  lemma {:induction false} ExecutedAllLogged(h: HState, cmds: seq<seq<Bytes>>)
    ensures SameLog(h.(commands := h.commands + cmds), ExecutedAll(h, cmds))
    decreases |cmds|
  {
    if cmds != [] {
      CommandLogged(h, cmds[0]);
      ExecutedAllLogged(Executed(h, cmds[0]), cmds[1..]);
      assert h.commands + [cmds[0]] + cmds[1..] == h.commands + cmds;
    }
  }

  lemma {:induction false} LeadsAll(m: Machine<PState>, h: HState, cmds: seq<seq<Bytes>>)
    requires IsParser(m) && !Gate(h) && forall i :: 0 <= i < |cmds| ==> Fits(cmds[i])
    ensures Leads(m, Init(h), EncodeAll(cmds), Init(ExecutedAll(h, cmds)))
    decreases |cmds|
  {
    if cmds == [] {
      LeadsNowhere(m, Init(h));
    } else {
      var h' := Executed(h, cmds[0]);
      CommandLogged(h, cmds[0]);
      LeadsCommand(m, h, cmds[0]);
      LeadsAll(m, h', cmds[1..]);
      LeadsThen(m, Init(h), EncodeCommand(cmds[0]), Init(h'), EncodeAll(cmds[1..]), Init(ExecutedAll(h, cmds)));
    }
  }

  lemma {:induction false} LeadsNowhere(m: Machine<PState>, p: PState)
    requires IsParser(m) && StackOk(p.stack)
    ensures Leads(m, p, [], p)
  {
    assert m.ok(p) by { var r := Round(p, []); }
    forall t: Bytes ensures Halt(m, p, [] + t) == Halt(m, p, t) {
      assert [] + t == t;
    }
  }

  /**
   The round trip: any pipelined commands, encoded and parsed in one chunk from the terminal state,
   are consumed to the last byte, leave the stack empty again, and are executed with exactly their
   arguments.
   */
  lemma {:induction false} CommandsRoundTrip(h: HState, cmds: seq<seq<Bytes>>)
    requires !Gate(h) && forall i :: 0 <= i < |cmds| ==> Fits(cmds[i])
    ensures var o := (ParserSound(); Run(Parser(), Init(h), EncodeAll(cmds)));
      && o.used == |EncodeAll(cmds)| && o.ending == Waiting && o.p.stack == [Terminal]
      && o.p.h.commands == h.commands + cmds && o.p.h.replies == h.replies && o.p.h.spilled == h.spilled
  {
    ParserIsParser();
    LeadsAll(Parser(), h, cmds);
    ExecutedAllLogged(h, cmds);
    var p' := Init(ExecutedAll(h, cmds));
    assert EncodeAll(cmds) + [] == EncodeAll(cmds);
    LeadsRun(Parser(), Init(h), EncodeAll(cmds), p', []);
    assert Round(p', []) == Stop(p', 0);
  }

  /**
   A command whose count and lengths are written in any digits that mean them is consumed to the last byte and
   executed with exactly those bytes as its arguments.
   */
  lemma {:induction false} TextParsed(h: HState, d: Bytes, ds: seq<Bytes>, args: seq<Bytes>)
    requires !Gate(h) && Counts(d, |args|) && CountAll(ds, args)
    ensures var o := (ParserSound(); Run(Parser(), Init(h), CommandText(d, ds, args)));
      && o.used == |CommandText(d, ds, args)| && o.ending == Waiting && o.p.stack == [Terminal]
      && o.p.h.commands == h.commands + [args] && o.p.h.replies == h.replies && o.p.h.spilled == h.spilled
  {
    var s, p' := CommandText(d, ds, args), Init(Executed(h, args));
    ParserIsParser();
    LeadsText(Parser(), h, d, ds, args);
    CommandLogged(h, args);
    assert s + [] == s;
    LeadsRun(Parser(), Init(h), s, p', []);
    assert Round(p', []) == Stop(p', 0);
  }
}

/** Commands as they are typed or sent, given as text: inline lines of words, and whole messages byte by byte. */
module WireTexts {
  import opened Decimal
  import opened Handler
  import opened Numerals
  import opened Resp
  import opened RoundTrip
  import opened Seals
  import opened Stream

  // -------------------------------------------------------------------- inline lines

  /** A word of an inline line: letters without blanks, or anything between two equal quotes. */
  datatype Word = Bare(text: Bytes) | Between(text: Bytes, quote: byte)

  predicate WellFormed(w: Word) {
    match w
    case Bare(text) => text != [] && 32 !in text && text[0] != 34 && text[0] != 39
    case Between(text, quote) => (quote == 34 || quote == 39) && quote !in text
  }

  function Written(w: Word): Bytes {
    match w
    case Bare(text) => text
    case Between(text, quote) => [quote] + text + [quote]
  }

  function Blanks(n: nat): (r: Bytes)
    ensures |r| == n
  {
    if n == 0 then [] else [32] + Blanks(n - 1)
  }

  /** The words with the given numbers of blanks before, between and after them. */
  function Line(ws: seq<Word>, gaps: seq<nat>): Bytes
    requires |gaps| == |ws| + 1
  {
    Blanks(gaps[0]) + if ws == [] then [] else Written(ws[0]) + Line(ws[1..], gaps[1..])
  }

  ghost predicate Spaced(ws: seq<Word>, gaps: seq<nat>) {
    && |gaps| == |ws| + 1 && (forall i :: 0 <= i < |ws| ==> WellFormed(ws[i]))
    && forall i :: 0 < i < |ws| ==> gaps[i] > 0
  }

  function Texts(ws: seq<Word>): seq<Bytes> { if ws == [] then [] else [ws[0].text] + Texts(ws[1..]) }

  lemma {:induction false} TokensFrom(line: Bytes, i: nat)
    requires i < |line|
    ensures line[i] == 32 ==> Tokens(line, i) == Tokens(line, i + 1)
    ensures line[i] != 32 ==>
      Tokens(line, i) == [line[TokenStart(line, i)..TokenEnd(line, i)]] + Tokens(line, TokenNext(line, i))
  {
  }

  lemma {:induction false} FindAt(s: Bytes, b: byte, t: Bytes)
    requires b !in s && (t == [] || t[0] == b)
    ensures Find(s + t, b) == |s|
  {
    LeadingIs(s + t, (x: byte) => x != b, |s|);
  }

  lemma {:induction false} BlanksSkipped(line: Bytes, i: nat, n: nat)
    requires i + n <= |line| && forall j :: i <= j < i + n ==> line[j] == 32
    ensures Tokens(line, i) == Tokens(line, i + n)
    decreases n
  {
    if n > 0 {
      TokensFrom(line, i);
      BlanksSkipped(line, i + 1, n - 1);
      assert (i + 1) + (n - 1) == i + n;
    }
  }

  /** The token at `i` is `text`, and the search goes on at `n` or behind the delimiter there. */
  ghost predicate HasToken(line: Bytes, i: nat, text: Bytes, n: nat) {
    && i < |line| && line[i] != 32 && line[TokenStart(line, i)..TokenEnd(line, i)] == text
    && (n >= |line| || line[n] == 32) && (TokenNext(line, i) == n + 1 || TokenNext(line, i) == n >= |line|)
  }

  datatype TokensKey = TokensKey

  /** The same, sealed. */
  ghost function TokenIs(line: Bytes, i: nat, text: Bytes, n: nat): Verdict {
    if forall k: TokensKey {:trigger Opened(k)} :: Opened(k) ==> HasToken(line, i, text, n) then Met else Unmet
  }

  lemma {:induction false} TokenTaken(line: Bytes, i: nat, text: Bytes, n: nat)
    requires HasToken(line, i, text, n)
    ensures Tokens(line, i) == [text] + Tokens(line, n)
  {
    TokensFrom(line, i);
    if n < |line| { TokensFrom(line, n); }
  }

  lemma {:induction false} ByteAt(line: Bytes, i: nat, s: Bytes, k: nat)
    requires i <= |line| && line[i..] == s && k < |s|
    ensures i + k < |line| && line[i + k] == s[k]
  {
  }

  lemma {:induction false} SliceAt(line: Bytes, i: nat, a: Bytes, b: Bytes, c: Bytes)
    requires i <= |line| && line[i..] == a + b + c
    ensures i + |a| + |b| <= |line| && line[i + |a|..i + |a| + |b|] == b && line[i + |a|..] == b + c
  {
    assert line[i + |a|..] == line[i..][|a|..];
    assert line[i + |a|..i + |a| + |b|] == line[i + |a|..][..|b|];
  }

  lemma {:induction false} BareToken(line: Bytes, i: nat, text: Bytes, rest: Bytes)
    requires WellFormed(Bare(text)) && i <= |line| && line[i..] == text + rest && (rest == [] || rest[0] == 32)
    ensures HasToken(line, i, text, i + |text|)
  {
    ByteAt(line, i, text + rest, 0);
    BareEnd(line, i, text, rest);
    if rest != [] { ByteAt(line, i, text + rest, |text|); }
  }

  lemma {:induction false} BareEnd(line: Bytes, i: nat, text: Bytes, rest: Bytes)
    requires WellFormed(Bare(text)) && i < |line| && line[i..] == text + rest && (rest == [] || rest[0] == 32)
    requires line[i] == text[0]
    ensures TokenStart(line, i) == i && TokenEnd(line, i) == i + |text| && line[i..i + |text|] == text
    ensures |line| == i + |text| + |rest|
  {
    FindAt(text, 32, rest);
    assert line[i..i + |text|] == line[i..][..|text|];
  }

  lemma {:induction false} QuotedToken(line: Bytes, i: nat, text: Bytes, quote: byte, rest: Bytes)
    requires WellFormed(Between(text, quote)) && i <= |line| && (rest == [] || rest[0] == 32)
    requires line[i..] == [quote] + text + ([quote] + rest)
    ensures HasToken(line, i, text, i + |text| + 2)
  {
    var s := [quote] + text + ([quote] + rest);
    ByteAt(line, i, s, 0);
    SliceAt(line, i, [quote], text, [quote] + rest);
    FindAt(text, quote, [quote] + rest);
    if rest != [] { ByteAt(line, i, s, |text| + 2); }
  }

  lemma {:induction false} WordToken(line: Bytes, i: nat, w: Word, rest: Bytes) returns (n: nat)
    requires WellFormed(w) && i <= |line| && line[i..] == Written(w) + rest && (rest == [] || rest[0] == 32)
    ensures TokenIs(line, i, w.text, n) == Met && n == i + |Written(w)|
  {
    n := i + |Written(w)|;
    match w
    case Bare(text) => BareToken(line, i, text, rest);
    case Between(text, quote) =>
      assert Written(w) + rest == [quote] + text + ([quote] + rest);
      QuotedToken(line, i, text, quote, rest);
  }

  lemma {:induction false} BlanksAre(n: nat)
    ensures forall i :: 0 <= i < n ==> Blanks(n)[i] == 32
  {
    if n > 0 { BlanksAre(n - 1); }
  }

  lemma {:induction false} GapAt(line: Bytes, i: nat, n: nat, rest: Bytes)
    requires i <= |line| && line[i..] == Blanks(n) + rest
    ensures i + n <= |line| && line[i + n..] == rest && forall j :: i <= j < i + n ==> line[j] == 32
  {
    BlanksAre(n);
    assert line[i + n..] == line[i..][n..];
    forall j | i <= j < i + n
      ensures line[j] == 32
    {
      ByteAt(line, i, Blanks(n) + rest, j - i);
    }
  }

  lemma {:induction false} TailDelimited(ws: seq<Word>, gaps: seq<nat>)
    requires Spaced(ws, gaps) && ws != []
    ensures var tail := Line(ws[1..], gaps[1..]); tail == [] || tail[0] == 32
  {
    BlanksAre(gaps[1]);
  }

  /** `f` gives the tokens of the line from each position, sealed. */
  ghost function TokensOf(f: nat -> seq<Bytes>, line: Bytes): Verdict {
    if forall k: TokensKey {:trigger Opened(k)} :: Opened(k) ==> forall i :: f(i) == Tokens(line, i) then Met else Unmet
  }

  lemma {:induction false} DropAt(line: Bytes, i: nat, a: Bytes, b: Bytes)
    requires i <= |line| && line[i..] == a + b
    ensures i + |a| <= |line| && line[i + |a|..] == b
  {
    assert line[i + |a|..] == line[i..][|a|..];
  }

  lemma {:induction false} GapAndWord(line: Bytes, i: nat, j: nat, w: Word, tail: Bytes) returns (n: nat)
    requires WellFormed(w) && (tail == [] || tail[0] == 32)
    requires i <= j && i <= |line| && line[i..] == Blanks(j - i) + (Written(w) + tail)
    ensures j <= |line| && (forall k :: i <= k < j ==> line[k] == 32)
    ensures TokenIs(line, j, w.text, n) == Met && n <= |line| && line[n..] == tail
  {
    GapAt(line, i, j - i, Written(w) + tail);
    DropAt(line, j, Written(w), tail);
    n := WordToken(line, j, w, tail);
  }

  lemma {:induction false} FirstAt(f: nat -> seq<Bytes>, line: Bytes, i: nat, j: nat, w: Word, tail: Bytes)
    returns (n: nat)
    requires TokensOf(f, line) == Met && WellFormed(w) && (tail == [] || tail[0] == 32)
    requires i <= j && i <= |line| && line[i..] == Blanks(j - i) + (Written(w) + tail)
    ensures n <= |line| && line[n..] == tail && f(i) == [w.text] + f(n)
  {
    n := GapAndWord(line, i, j, w, tail);
    FirstTaken(f, line, i, j, w.text, n);
  }

  lemma {:induction false} FirstOf(f: nat -> seq<Bytes>, line: Bytes, i: nat, ws: seq<Word>, gaps: seq<nat>)
    returns (n: nat)
    requires TokensOf(f, line) == Met && Spaced(ws, gaps) && i <= |line| && line[i..] == Line(ws, gaps) && ws != []
    ensures n <= |line| && line[n..] == Line(ws[1..], gaps[1..]) && f(i) == [ws[0].text] + f(n)
  {
    TailDelimited(ws, gaps);
    n := FirstAt(f, line, i, i + gaps[0], ws[0], Line(ws[1..], gaps[1..]));
  }

  lemma {:induction false} FirstTaken(f: nat -> seq<Bytes>, line: Bytes, i: nat, j: nat, text: Bytes, n: nat)
    requires TokensOf(f, line) == Met && i <= j <= |line| && (forall k :: i <= k < j ==> line[k] == 32)
    requires TokenIs(line, j, text, n) == Met
    ensures f(i) == [text] + f(n)
  {
    assert Opened(TokensKey);
    BlanksSkipped(line, i, j - i);
    TokenTaken(line, j, text, n);
    assert f(i) == Tokens(line, i) && f(n) == Tokens(line, n);
  }

  lemma {:induction false} NoneOf(f: nat -> seq<Bytes>, line: Bytes, i: nat, gap: nat)
    requires TokensOf(f, line) == Met && i <= |line| && line[i..] == Blanks(gap)
    ensures f(i) == []
  {
    assert Opened(TokensKey);
    assert Blanks(gap) + [] == Blanks(gap);
    GapAt(line, i, gap, []);
    BlanksSkipped(line, i, gap);
    assert f(i) == Tokens(line, i);
  }

  lemma {:induction false} WordsFrom(f: nat -> seq<Bytes>, line: Bytes, i: nat, ws: seq<Word>, gaps: seq<nat>)
    requires TokensOf(f, line) == Met && Spaced(ws, gaps) && i <= |line| && line[i..] == Line(ws, gaps)
    ensures f(i) == Texts(ws)
    decreases |ws|
  {
    if ws == [] {
      assert Line(ws, gaps) == Blanks(gaps[0]);
      NoneOf(f, line, i, gaps[0]);
    } else {
      var n := FirstOf(f, line, i, ws, gaps);
      WordsFrom(f, line, n, ws[1..], gaps[1..]);
    }
  }

  /** The tokens of a line are its words, however many blanks there are around them. */
  lemma {:induction false} TokensAreWords(ws: seq<Word>, gaps: seq<nat>)
    requires Spaced(ws, gaps)
    ensures Tokens(Line(ws, gaps), 0) == Texts(ws)
  {
    var line := Line(ws, gaps);
    var f := (i: nat) => Tokens(line, i);
    assert line[0..] == line && TokensOf(f, line) == Met;
    WordsFrom(f, line, 0, ws, gaps);
  }

  /** The bytes that begin anything but an inline line. */
  predicate Marks(b: byte) { b == 43 || b == 45 || b == 58 || b == 36 || b == 42 }

  lemma {:induction false} InlineRounds(h: HState, line: Bytes)
    requires !Gate(h) && CR !in line && !Marks((line + CRLF)[0])
    ensures var s, p := line + CRLF, PState([Terminal, Inline], h);
      && Round(Init(h), s) == Go(p, 0) && StackOk(p.stack)
      && Round(p, s) == Go(Init(InlineCommand(h, line)), |s|)
  {
    var s := line + CRLF;
    assert Push([Terminal], Inline) == [Terminal, Inline];
    FindAt(line, CR, CRLF);
    assert s[..|line|] == line && Pop([Terminal, Inline]) == [Terminal];
  }

  /** A line that begins no other element is executed as the command of its words. */
  lemma {:induction false} InlineParsed(h: HState, ws: seq<Word>, gaps: seq<nat>)
    requires !Gate(h) && Spaced(ws, gaps) && CR !in Line(ws, gaps) && !Marks((Line(ws, gaps) + CRLF)[0])
    ensures var o := (ParserSound(); Run(Parser(), Init(h), Line(ws, gaps) + CRLF));
      && o.used == |Line(ws, gaps)| + 2 && o.ending == Waiting && o.p.stack == [Terminal]
      && o.p.h.commands == h.commands + [Texts(ws)]
  {
    ParserSound();
    var m, line := Parser(), Line(ws, gaps);
    var s, p, p' := line + CRLF, PState([Terminal, Inline], h), Init(InlineCommand(h, line));
    InlineRounds(h, line);
    TokensAreWords(ws, gaps);
    CommandLogged(h, Texts(ws));
    RunGo(m, Init(h), s, m.step(Init(h), s));
    assert s[0..] == s && s[|s|..] == [];
    RunGo(m, p, s, m.step(p, s));
    assert m.step(p', []) == Stop(p', 0);
  }

  // ------------------------------------------------------------- errors and integers

  lemma {:induction false} IgnoredRounds(h: HState, b: byte, line: Bytes)
    requires !Gate(h) && (b == 45 || b == 58) && CR !in line
    ensures var p := PState([Terminal, Simple(if b == 45 then ErrorLine else IntegerLine)], h);
      && Round(Init(h), [b]) == Go(p, 1) && StackOk(p.stack)
      && Round(p, line + CRLF) == Go(Init(Chars(h, line)), |line| + 2)
  {
    var f := Simple(if b == 45 then ErrorLine else IntegerLine);
    var s := line + CRLF;
    assert Push([Terminal], f) == [Terminal, f] && Pop([Terminal, f]) == [Terminal];
    FindAt(line, CR, CRLF);
    assert s[..|line|] == line && s[|line| + 1] == LF;
  }

  /** A line that begins with `-` or `:` is read to its end and nothing comes of it. */
  lemma {:induction false} OtherLinesIgnored(h: HState, b: byte, line: Bytes)
    requires !Gate(h) && (b == 45 || b == 58) && CR !in line
    ensures var o := (ParserSound(); Run(Parser(), Init(h), [b] + (line + CRLF)));
      && o.used == |line| + 3 && o.ending == Waiting && o.p.stack == [Terminal]
      && o.p.h.commands == h.commands && o.p.h.replies == h.replies && o.p.h.repl == h.repl
  {
    ParserIsParser();
    var m, p, p' := Parser(), PState([Terminal, Simple(if b == 45 then ErrorLine else IntegerLine)], h),
                    Init(Chars(h, line));
    IgnoredRounds(h, b, line);
    LeadsByRound(m, Init(h), [b], p);
    LeadsByRound(m, p, line + CRLF, p');
    LeadsThen(m, Init(h), [b], p, line + CRLF, p');
    LeadsRun(m, Init(h), [b] + (line + CRLF), p', []);
    assert [b] + (line + CRLF) + [] == [b] + (line + CRLF) && Round(p', []) == Stop(p', 0);
  }

  // --------------------------------------------------------------------- null lengths

  lemma {:induction false} OneDigit(d: byte)
    requires IsDigit(d)
    ensures Meaning([d]) == d - 48
  {
    assert PlaceSum([d], 1) == PlaceSum([d], 0) + (d as int - 48) * Pow10(0);
  }

  lemma {:induction false} MinusOne()
    ensures var s := [45, 49, 13, 10]; LengthLine(s) && Strtol(s).value == -1 && Strtol(s).end == 2
  {
    OneDigit(49);
    StrtolReads([], [45], [49], CRLF);
    assert [] + [45] + ([49] + CRLF) == [45, 49, 13, 10];
  }

  lemma {:induction false} MinusOneRound(p: PState, below: seq<Frame>, isArray: bool)
    requires StackOk(p.stack) && !Gate(p.h) && |below| < MAX_DEPTH && Pop(p.stack) == below
    requires Top(p.stack) == if isArray then ArrayLength else BulkLength
    ensures Round(p, [45, 49, 13, 10])
      == Go(if isArray then Over(below, Array(-1), BeginArray(p.h)) else Over(below, Bulk(-1), BeginBulk(p.h, -1)), 4)
  {
    MinusOne();
  }

  lemma {:induction false} LeadsVia(m: Machine<PState>, p0: PState, b: byte, p1: PState, u: Bytes, p2: PState,
      p3: PState)
    requires Sound(m) && Leads(m, p0, [b], p1) && Leads(m, p1, u, p2) && Leads(m, p2, [], p3)
    ensures Leads(m, p0, [b] + u, p3)
  {
    LeadsThen(m, p0, [b], p1, u, p2);
    LeadsThen(m, p0, [b] + u, p2, [], p3);
    assert [b] + u + [] == [b] + u;
  }

  /** `$-1` as an element adds an empty argument. */
  lemma {:induction false} NullBulkElement(m: Machine<PState>, below: seq<Frame>, h: HState)
    requires IsParser(m) && Base(below) && !Gate(h)
    ensures Leads(m, Over(below, Initial, h), [36] + [45, 49, 13, 10], PState(below, EndBulk(BeginBulk(h, -1))))
  {
    var p0, p1, p2 := Over(below, Initial, h), Over(below, BulkLength, h), Over(below, Bulk(-1), BeginBulk(h, -1));
    var p3 := PState(below, EndBulk(BeginBulk(h, -1)));
    LeadsFirstByte(m, p0, below, 36);
    OverOk(below, BulkLength, h);
    MinusOneRound(p1, below, false);
    LeadsByRound(m, p1, [45, 49, 13, 10], p2);
    OverOk(below, Bulk(-1), BeginBulk(h, -1));
    LeadsByRound(m, p2, [], p3);
    LeadsVia(m, p0, 36, p1, [45, 49, 13, 10], p2, p3);
  }

  lemma {:induction false} NullArrayLength(m: Machine<PState>, below: seq<Frame>, h: HState)
    requires IsParser(m) && Base(below) && !Gate(h)
    ensures Leads(m, Over(below, ArrayLength, h), [45, 49, 13, 10], Over(below, Array(-1), BeginArray(h)))
  {
    OverOk(below, ArrayLength, h);
    MinusOneRound(Over(below, ArrayLength, h), below, true);
    LeadsByRound(m, Over(below, ArrayLength, h), [45, 49, 13, 10], Over(below, Array(-1), BeginArray(h)));
  }

  lemma {:induction false} NullArrayEnd(m: Machine<PState>, below: seq<Frame>, h: HState)
    requires IsParser(m) && Base(below) && !Gate(h)
    ensures Leads(m, Over(below, Array(-1), h), [], PState(below, EndArray(h)))
  {
    OverOk(below, Array(-1), h);
    LeadsByRound(m, Over(below, Array(-1), h), [], PState(below, EndArray(h)));
  }

  lemma {:induction false} NullArrayLeads(m: Machine<PState>, h: HState)
    requires IsParser(m) && !Gate(h)
    ensures Leads(m, Init(h), [42] + [45, 49, 13, 10], Init(Executed(h, [])))
  {
    var p1, p2 := Over([Terminal], ArrayLength, h), Over([Terminal], Array(-1), BeginArray(h));
    var p3 := Init(Executed(h, []));
    LeadsFirstByte(m, Init(h), [Terminal], 42);
    NullArrayLength(m, [Terminal], h);
    NullArrayEnd(m, [Terminal], BeginArray(h));
    LeadsVia(m, Init(h), 42, p1, [45, 49, 13, 10], p2, p3);
  }

  /** `*-1` is the command without arguments. */
  lemma {:induction false} NullArrayParsed(h: HState)
    requires !Gate(h)
    ensures var o := (ParserSound(); Run(Parser(), Init(h), [42] + [45, 49, 13, 10]));
      && o.used == 5 && o.ending == Waiting && o.p.stack == [Terminal] && o.p.h.commands == h.commands + [[]]
  {
    ParserIsParser();
    var s: Bytes, p := [42] + [45, 49, 13, 10], Init(Executed(h, []));
    NullArrayLeads(Parser(), h);
    CommandLogged(h, []);
    assert s + [] == s;
    LeadsRun(Parser(), Init(h), s, p, []);
    assert Round(p, []) == Stop(p, 0);
  }

  // --------------------------------------------------------------- messages, literally

  lemma {:induction false} TwoArgs(d1: Bytes, d2: Bytes, a: Bytes, b: Bytes)
    ensures ArgsText([d1, d2], [a, b]) == BulkText(d1, a) + BulkText(d2, b)
  {
    assert [d1, d2][1..] == [d2] && [a, b][1..] == [b];
    assert ArgsText([d2], [b]) == BulkText(d2, b) + ArgsText([], []);
  }

  /** A message as it goes over the wire: a count of 2, then lengths of 4 and of 12. */
  function Message(a: Bytes, b: Bytes): Bytes {
    [42, 50, 13, 10] + [36, 52, 13, 10] + a + [13, 10] + [36, 49, 50, 13, 10] + b + [13, 10]
  }

  lemma {:induction false} MessageText(a: Bytes, b: Bytes)
    ensures CommandText([50], [[52], [49, 50]], [a, b]) == Message(a, b)
  {
    TwoArgs([52], [49, 50], a, b);
    assert CommandText([50], [[52], [49, 50]], [a, b])
      == [42] + [50] + CRLF + (([36] + [52] + CRLF + a + CRLF) + ([36] + [49, 50] + CRLF + b + CRLF));
  }

  lemma {:induction false} MessageCounts(a: Bytes, b: Bytes)
    requires |a| == 4 && |b| == 12
    ensures Counts([50], 2) && CountAll([[52], [49, 50]], [a, b])
  {
    OneDigit(50);
    OneDigit(52);
    Twelve();
  }

  /** `*2 $4 <4 bytes> $12 <12 bytes>` is the command of those two arguments. */
  lemma {:induction false} MessageParsed(h: HState, a: Bytes, b: Bytes)
    requires !Gate(h) && |a| == 4 && |b| == 12
    ensures var o := (ParserSound(); Run(Parser(), Init(h), Message(a, b)));
      && o.used == |Message(a, b)| && o.ending == Waiting && o.p.stack == [Terminal]
      && o.p.h.commands == h.commands + [[a, b]]
  {
    MessageText(a, b);
    MessageCounts(a, b);
    TextParsed(h, [50], [[52], [49, 50]], [a, b]);
  }
}

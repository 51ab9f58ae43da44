/** Which option lists SET accepts, said of the list as a whole: the words in it and which of them clash. */
module SetWords {
  import opened Decimal
  import opened Numerals
  import opened SetOptions
  import opened Wrappers

  datatype Word = OnlyNew | OnlyOld | OldValue | KeepTime | Time(option: Bytes, text: Bytes) | Other

  /** The options by their names. */
  lemma {:induction false} OptionNames()
    ensures NX == Text("NX") && XX == Text("XX") && GET == Text("GET") && KEEPTTL == Text("KEEPTTL")
    ensures EX == Text("EX") && PX == Text("PX") && EXAT == Text("EXAT") && PXAT == Text("PXAT")
  {
  }

  /** A number may have blanks before it and a sign, must have a digit, must end the text, and must fit 64 bits. */
  lemma {:induction false} IntegersParsed(blanks: Bytes, sign: Bytes, d: Bytes, rest: Bytes)
    requires Blank(blanks) && (sign == [] || sign == [43] || sign == [45])
    requires d != [] && AllDigits(d) && (rest == [] || !IsDigit(rest[0]))
    ensures var v := if sign == [45] then -Meaning(d) else Meaning(d);
      ParseInteger(blanks + sign + (d + rest))
        == if rest == [] && -0x8000_0000_0000_0000 <= v <= 0x7fff_ffff_ffff_ffff then Some(v) else None
  {
    StrtolReads(blanks, sign, d, rest);
  }

  lemma {:induction false} NoDigitNoInteger(blanks: Bytes, sign: Bytes, t: Bytes)
    requires Blank(blanks) && (sign == [] || sign == [43] || sign == [45]) && (t == [] || !IsDigit(t[0]))
    requires sign == [] ==> t == [] || (!IsSpace(t[0]) && t[0] != 43 && t[0] != 45)
    ensures ParseInteger(blanks + sign + t) == None
  {
    StrtolReadsNothing(blanks, sign, t);
  }

  /** The first word; an expiry option takes the argument behind it, if there is one. */
  function FirstWord(args: seq<Bytes>): Word
    requires args != []
  {
    if args[0] == NX then OnlyNew
    else if args[0] == XX then OnlyOld
    else if args[0] == GET then OldValue
    else if args[0] == KEEPTTL then KeepTime
    else if TakesTime(args[0]) && |args| > 1 then Time(args[0], args[1])
    else Other
  }

  function AfterFirst(args: seq<Bytes>): seq<Bytes>
    requires args != []
  {
    if FirstWord(args).Time? then args[2..] else args[1..]
  }

  function Words(args: seq<Bytes>): seq<Word>
    decreases |args|
  {
    if args == [] then [] else [FirstWord(args)] + Words(AfterFirst(args))
  }

  /** The moment a word sets, if it can be read. */
  function Moment(w: Word, now: int): Option<int> {
    if !w.Time? then None
    else match ParseInteger(w.text) case None => None case Some(v) => Some(ExpirationOf(w.option, v, now))
  }

  /** A word that sets a deadline; one at zero counts as none. */
  predicate Sets(w: Word, now: int) { Moment(w, now) != None && Moment(w, now) != Some(0) }

  /** Two words of which the second may not come behind the first. */
  predicate Clash(a: Word, b: Word, now: int) {
    || (a == OnlyNew && b == OnlyOld) || (a == OnlyOld && b == OnlyNew)
    || (Sets(a, now) && (b.Time? || b == KeepTime)) || (a == KeepTime && b.Time?)
  }

  ghost predicate Clashes(ws: seq<Word>, i: nat, now: int)
    requires i < |ws|
  {
    exists j :: 0 <= j < i && Clash(ws[j], ws[i], now)
  }

  predicate Unreadable(w: Word) { w.Time? && ParseInteger(w.text) == None }

  ghost predicate Bad(ws: seq<Word>, i: nat, now: int)
    requires i < |ws|
  {
    Clashes(ws, i, now) || Unreadable(ws[i])
  }

  /** The first word that cannot stand. */
  ghost predicate FirstBad(ws: seq<Word>, i: nat, now: int)
    requires i < |ws|
  {
    Bad(ws, i, now) && forall j :: 0 <= j < i ==> !Bad(ws, j, now)
  }

  /** The options that words amount to. */
  ghost predicate Described(ws: seq<Word>, o: Options, now: int) {
    && (o.nx <==> OnlyNew in ws) && (o.xx <==> OnlyOld in ws) && (o.get <==> OldValue in ws)
    && (o.keepttl <==> KeepTime in ws)
    && (o.expiration != 0 <==> exists i :: 0 <= i < |ws| && Sets(ws[i], now))
    && (forall i :: 0 <= i < |ws| && Sets(ws[i], now) ==> Moment(ws[i], now) == Some(o.expiration))
  }

  /** What is decided of a list of words. */
  ghost predicate Decides(ws: seq<Word>, r: Outcome, now: int) {
    match r
    case Accepted(o) => (forall i :: 0 <= i < |ws| ==> !Bad(ws, i, now)) && Described(ws, o, now)
    case SyntaxError => exists i :: 0 <= i < |ws| && FirstBad(ws, i, now) && Clashes(ws, i, now)
    case ValueError => exists i :: 0 <= i < |ws| && FirstBad(ws, i, now) && !Clashes(ws, i, now)
  }

  // ------------------------------------------------------------------------- word by word

  function Take(o: Options, w: Word, now: int): Outcome {
    match w
    case OnlyNew => if o.xx then SyntaxError else Accepted(o.(nx := true))
    case OnlyOld => if o.nx then SyntaxError else Accepted(o.(xx := true))
    case OldValue => Accepted(o.(get := true))
    case KeepTime => if o.expiration != 0 then SyntaxError else Accepted(o.(keepttl := true))
    case Time(_, _) =>
      if o.expiration != 0 || o.keepttl then SyntaxError
      else if Unreadable(w) then ValueError
      else Accepted(o.(expiration := Moment(w, now).value))
    case Other => Accepted(o)
  }

  lemma {:induction false} ParseTakes(args: seq<Bytes>, o: Options, now: int)
    requires args != []
    ensures Parse(args, o, now)
      == match Take(o, FirstWord(args), now)
         case Accepted(o') => Parse(AfterFirst(args), o', now)
         case e => e
  {
  }

  lemma {:induction false} ClashIsRefused(done: seq<Word>, o: Options, w: Word, now: int, j: nat)
    requires Described(done, o, now) && j < |done| && Clash(done[j], w, now)
    ensures Take(o, w, now) == SyntaxError
  {
    assert done[j] in done;
  }

  lemma {:induction false} RefusedIsClash(done: seq<Word>, o: Options, w: Word, now: int) returns (j: nat)
    requires Described(done, o, now) && Take(o, w, now) == SyntaxError
    ensures j < |done| && Clash(done[j], w, now)
  {
    if w == OnlyNew {
      j :| j < |done| && done[j] == OnlyOld;
    } else if w == OnlyOld {
      j :| j < |done| && done[j] == OnlyNew;
    } else if o.expiration != 0 {
      j :| j < |done| && Sets(done[j], now);
    } else {
      j :| j < |done| && done[j] == KeepTime;
    }
  }

  /** A word clashes with those before it exactly where it is refused. */
  lemma {:induction false} TakeDecides(ws: seq<Word>, i: nat, o: Options, now: int)
    requires i < |ws| && Described(ws[..i], o, now)
    ensures Clashes(ws, i, now) <==> Take(o, ws[i], now) == SyntaxError
    ensures !Clashes(ws, i, now) && Unreadable(ws[i]) <==> Take(o, ws[i], now) == ValueError
  {
    if Clashes(ws, i, now) {
      var j: nat :| j < i && Clash(ws[j], ws[i], now);
      ClashIsRefused(ws[..i], o, ws[i], now, j);
    }
    if Take(o, ws[i], now) == SyntaxError {
      var j := RefusedIsClash(ws[..i], o, ws[i], now);
      assert Clash(ws[j], ws[i], now);
    }
  }

  lemma {:induction false} TakeDescribes(ws: seq<Word>, i: nat, o: Options, now: int)
    requires i < |ws| && Described(ws[..i], o, now) && Take(o, ws[i], now).Accepted?
    ensures Described(ws[..i + 1], Take(o, ws[i], now).options, now)
  {
    var done, w := ws[..i], ws[i];
    assert ws[..i + 1] == done + [w];
    DescribedMore(done, o, w, Take(o, w, now).options, now);
  }

  lemma {:induction false} DescribedMore(done: seq<Word>, o: Options, w: Word, o': Options, now: int)
    requires Described(done, o, now) && Take(o, w, now) == Accepted(o')
    ensures Described(done + [w], o', now)
  {
    var ws := done + [w];
    assert ws[|done|] == w && forall j :: 0 <= j < |done| ==> ws[j] == done[j];
    if w.Time? {
      assert forall j :: 0 <= j < |done| ==> !Sets(done[j], now);
    }
  }

  lemma {:induction false} DecidedFrom(args: seq<Bytes>, o: Options, now: int, ws: seq<Word>, i: nat)
    requires i <= |ws| && ws[i..] == Words(args) && Described(ws[..i], o, now)
    requires forall j :: 0 <= j < i ==> !Bad(ws, j, now)
    ensures Decides(ws, Parse(args, o, now), now)
    decreases |args|
  {
    if args == [] {
      assert ws[..i] == ws;
    } else {
      assert ws[i] == FirstWord(args) && ws[i..][1..] == ws[i + 1..] == Words(AfterFirst(args));
      ParseTakes(args, o, now);
      TakeDecides(ws, i, o, now);
      match Take(o, ws[i], now)
      case Accepted(o') =>
        TakeDescribes(ws, i, o, now);
        DecidedFrom(AfterFirst(args), o', now, ws, i + 1);
      case SyntaxError => assert FirstBad(ws, i, now);
      case ValueError => assert FirstBad(ws, i, now);
    }
  }

  /**
   An option list is accepted exactly if no word in it clashes with an earlier one and every time can be read, and
   then with the options that its words describe. Otherwise the first word at fault decides: a clash is a syntax
   error, and a time that cannot be read an error of its own.
   */
  lemma {:induction false} WordsDecide(args: seq<Bytes>, now: int)
    ensures Decides(Words(args), Parse(args, NO_OPTIONS, now), now)
  {
    assert Words(args)[0..] == Words(args);
    DecidedFrom(args, NO_OPTIONS, now, Words(args), 0);
  }

  /** No list is decided in two ways. */
  lemma {:induction false} OneDecision(ws: seq<Word>, r: Outcome, r': Outcome, now: int)
    requires Decides(ws, r, now) && Decides(ws, r', now)
    ensures r.Accepted? <==> r'.Accepted?
    ensures r == SyntaxError <==> r' == SyntaxError
    ensures r == ValueError <==> r' == ValueError
  {
    if !r.Accepted? && !r'.Accepted? {
      var i :| 0 <= i < |ws| && FirstBad(ws, i, now) && (r == SyntaxError <==> Clashes(ws, i, now));
      var j :| 0 <= j < |ws| && FirstBad(ws, j, now) && (r' == SyntaxError <==> Clashes(ws, j, now));
      assert i == j;
    }
  }
}

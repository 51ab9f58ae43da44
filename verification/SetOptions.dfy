/** The options of SET: the parsing loop, and what every accepted option list amounts to. */
module SetOptions {
  import opened Decimal
  import opened RdbStrings
  import opened Wrappers

  const NX: Bytes := [0x4E, 0x58]
  const XX: Bytes := [0x58, 0x58]
  const GET: Bytes := [0x47, 0x45, 0x54]
  const KEEPTTL: Bytes := [0x4B, 0x45, 0x45, 0x50, 0x54, 0x54, 0x4C]
  const EX: Bytes := [0x45, 0x58]
  const PX: Bytes := [0x50, 0x58]
  const EXAT: Bytes := [0x45, 0x58, 0x41, 0x54]
  const PXAT: Bytes := [0x50, 0x58, 0x41, 0x54]

  datatype Options = Options(expiration: int, nx: bool, xx: bool, keepttl: bool, get: bool)

  const NO_OPTIONS := Options(0, false, false, false, false)

  datatype Outcome = Accepted(options: Options) | SyntaxError | ValueError

  /** `parse_integer`: the whole string is a number that fits a `long`. */
  function ParseInteger(s: Bytes): Option<int> {
    var r := Strtol(s);
    if r.end == 0 || r.end < |s| || r.erange then None else Some(r.value)
  }

  /** A number in the 64 bits of a `long long`. */
  function Wrap64(v: int): int { Signed(Unsigned(v, 0x1_0000_0000_0000_0000), 0x1_0000_0000_0000_0000) }

  predicate TakesTime(option: Bytes) { option == EX || option == PX || option == EXAT || option == PXAT }

  /** The expiration an option sets: seconds or milliseconds, from now or from the epoch. */
  function ExpirationOf(option: Bytes, v: int, now: int): int {
    if option == EX then Wrap64(now + v * 1000)
    else if option == PX then Wrap64(now + v)
    else if option == EXAT then Wrap64(v * 1000)
    else Wrap64(v)
  }

  /** The options on top of `o`. An expiry option without an argument is passed over, as is any other word. */
  function Parse(args: seq<Bytes>, o: Options, now: int): Outcome
    decreases |args|
  {
    if args == [] then Accepted(o)
    else if args[0] == NX then if o.xx then SyntaxError else Parse(args[1..], o.(nx := true), now)
    else if args[0] == XX then if o.nx then SyntaxError else Parse(args[1..], o.(xx := true), now)
    else if args[0] == GET then Parse(args[1..], o.(get := true), now)
    else if args[0] == KEEPTTL then
      if o.expiration != 0 then SyntaxError else Parse(args[1..], o.(keepttl := true), now)
    else if TakesTime(args[0]) && |args| > 1 then
      if o.expiration != 0 || o.keepttl then SyntaxError
      else
        var v := ParseInteger(args[1]);
        if v == None then ValueError
        else Parse(args[2..], o.(expiration := ExpirationOf(args[0], v.value, now)), now)
    else Parse(args[1..], o, now)
  }

  /** `parse_set_options` */
  method ParseSetOptions(args: seq<Bytes>, now: int) returns (r: Outcome)
    ensures r == Parse(args, NO_OPTIONS, now)
  {
    var o := NO_OPTIONS;
    var i := 0;
    assert args[0..] == args;
    while i < |args|
      invariant 0 <= i <= |args|
      invariant Parse(args, NO_OPTIONS, now) == Parse(args[i..], o, now)
    {
      assert args[i..][1..] == args[i + 1..];
      if args[i] == NX {
        if o.xx { return SyntaxError; }
        o := o.(nx := true);
      } else if args[i] == XX {
        if o.nx { return SyntaxError; }
        o := o.(xx := true);
      } else if args[i] == GET {
        o := o.(get := true);
      } else if args[i] == KEEPTTL {
        if o.expiration != 0 { return SyntaxError; }
        o := o.(keepttl := true);
      } else if TakesTime(args[i]) && i + 1 < |args| {
        if o.expiration != 0 || o.keepttl { return SyntaxError; }
        assert args[i..][2..] == args[i + 2..];
        var v := ParseInteger(args[i + 1]);
        if v == None { return ValueError; }
        o := o.(expiration := ExpirationOf(args[i], v.value, now));
        i := i + 1;
      }
      i := i + 1;
    }
    r := Accepted(o);
  }

  lemma {:induction false} Wrap64Range(v: int)
    ensures -0x8000_0000_0000_0000 <= Wrap64(v) < 0x8000_0000_0000_0000
  {
  }

  ghost predicate Coherent(o: Options) {
    && !(o.nx && o.xx) && (o.keepttl ==> o.expiration == 0)
    && -0x8000_0000_0000_0000 <= o.expiration < 0x8000_0000_0000_0000
  }

  /** No word of letters is a number. */
  lemma {:induction false} NamesAreNoNumbers(s: Bytes)
    requires s in {NX, XX, GET, KEEPTTL}
    ensures ParseInteger(s) == None
  {
  }

  /** What the options `r` say of the words `args` on top of `o`. */
  ghost predicate Reflects(args: seq<Bytes>, o: Options, r: Options) {
    && Coherent(r)
    && (r.nx <==> o.nx || NX in args) && (r.xx <==> o.xx || XX in args)
    && (r.get <==> o.get || GET in args) && (r.keepttl <==> o.keepttl || KEEPTTL in args)
  }

  /** One more word in front: a flag's own word sets it, any other leaves it. */
  lemma {:induction false} ReflectsCons(a: Bytes, args: seq<Bytes>, o: Options, o': Options, r: Options)
    requires Reflects(args, o', r)
    requires (o'.nx <==> o.nx || a == NX) && (o'.xx <==> o.xx || a == XX)
    requires (o'.get <==> o.get || a == GET) && (o'.keepttl <==> o.keepttl || a == KEEPTTL)
    ensures Reflects([a] + args, o, r)
  {
  }

  /**
   In every accepted option list NX and XX exclude each other, KEEPTTL excludes a time, and each flag is set
   exactly if its word occurs, wherever it stands.
   */
  lemma {:induction false} AcceptedOptions(args: seq<Bytes>, o: Options, now: int)
    requires Coherent(o) && Parse(args, o, now).Accepted?
    ensures Reflects(args, o, Parse(args, o, now).options)
    decreases |args|
  {
    if args != [] {
      var a, tail := args[0], args[1..];
      assert args == [a] + tail;
      if TakesTime(a) && |args| > 1 {
        AcceptedTime(args, o, now);
      } else {
        var o' := if a == NX then o.(nx := true) else if a == XX then o.(xx := true)
                  else if a == GET then o.(get := true) else if a == KEEPTTL then o.(keepttl := true) else o;
        AcceptedOptions(tail, o', now);
        ReflectsCons(a, tail, o, o', Parse(args, o, now).options);
      }
    }
  }

  lemma {:induction false} ExpirationRange(option: Bytes, v: int, now: int)
    ensures -0x8000_0000_0000_0000 <= ExpirationOf(option, v, now) < 0x8000_0000_0000_0000
  {
    Wrap64Range(now + v * 1000);
    Wrap64Range(now + v);
    Wrap64Range(v * 1000);
    Wrap64Range(v);
  }

  lemma {:induction false} AcceptedTime(args: seq<Bytes>, o: Options, now: int)
    requires Coherent(o) && Parse(args, o, now).Accepted? && |args| > 1 && TakesTime(args[0])
    ensures Reflects(args, o, Parse(args, o, now).options)
    decreases |args|, 0
  {
    var v, tail := ParseInteger(args[1]), args[2..];
    var o' := o.(expiration := ExpirationOf(args[0], v.value, now));
    ExpirationRange(args[0], v.value, now);
    AcceptedOptions(tail, o', now);
    var r := Parse(args, o, now).options;
    if args[1] in {NX, XX, GET, KEEPTTL} { NamesAreNoNumbers(args[1]); }
    ReflectsCons(args[1], tail, o', o', r);
    ReflectsCons(args[0], [args[1]] + tail, o, o', r);
    assert args == [args[0]] + ([args[1]] + tail);
  }
}

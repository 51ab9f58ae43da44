/** Bytes, and decimal numbers as the C library prints (`%d`, `%ld`) and reads (`strtol`) them. */
module Decimal {
  type byte = b: int | 0 <= b < 256
  type Bytes = seq<byte>

  const CR: byte := 13
  const LF: byte := 10
  const PLUS: byte := 43
  const MINUS: byte := 45

  const LONG_MAX: int := 0x7fff_ffff_ffff_ffff
  const LONG_MIN: int := -0x8000_0000_0000_0000
  const INT_MAX: int := 0x7fff_ffff
  const INT_MIN: int := -0x8000_0000

  /** The bytes of a text. */
  function Text(s: string): (r: Bytes)
    ensures |r| == |s| && forall i :: 0 <= i < |s| ==> r[i] == (s[i] as int) % 256
  {
    seq(|s|, i requires 0 <= i < |s| => (s[i] as int) % 256)
  }

  predicate IsDigit(b: byte) { 48 <= b <= 57 }

  /** `isspace` in the C locale. */
  predicate IsSpace(b: byte) { b == 32 || 9 <= b <= 13 }

  ghost predicate AllDigits(s: Bytes) {
    forall i :: 0 <= i < |s| ==> IsDigit(s[i])
  }

  // ------------------------------------------------------------------ printing

  function Digits(n: nat): (r: Bytes)
    ensures |r| >= 1 && AllDigits(r)
  {
    if n < 10 then [48 + n] else Digits(n / 10) + [48 + n % 10]
  }

  /** The text of `%ld`. */
  function Show(v: int): (r: Bytes)
    ensures |r| >= 1
  {
    if v < 0 then [MINUS] + Digits(-v) else Digits(v)
  }

  // ------------------------------------------------------------------- reading

  function Leading(s: Bytes, p: byte -> bool): (n: nat)
    ensures n <= |s|
    ensures forall i :: 0 <= i < n ==> p(s[i])
    ensures n < |s| ==> !p(s[n])
  {
    if |s| > 0 && p(s[0]) then 1 + Leading(s[1..], p) else 0
  }

  function NumberOf(s: Bytes): int {
    if s == [] then 0 else 10 * NumberOf(s[..|s| - 1]) + (s[|s| - 1] as int - 48)
  }

  /** What `strtol` reports: the value, how far it read, and whether it set ERANGE. */
  datatype Parsed = Parsed(value: int, end: nat, erange: bool)

  function Clamp(v: int, end: nat): Parsed {
    if v > LONG_MAX then Parsed(LONG_MAX, end, true)
    else if v < LONG_MIN then Parsed(LONG_MIN, end, true)
    else Parsed(v, end, false)
  }

  /** Length of the leading blanks and sign. */
  function SignEnd(s: Bytes): (j: nat)
    ensures j <= |s|
  {
    var i := Leading(s, IsSpace);
    if i < |s| && (s[i] == PLUS || s[i] == MINUS) then i + 1 else i
  }

  /** The outcome for a sign part of length `j` followed by `n` digits. */
  function Convert(s: Bytes, j: nat, n: nat): Parsed
    requires j + n <= |s|
  {
    if n == 0 then Parsed(0, 0, false)
    else if j > 0 && s[j - 1] == MINUS then Clamp(-NumberOf(s[j..j + n]), j + n)
    else Clamp(NumberOf(s[j..j + n]), j + n)
  }

  /** `strtol(s, &end, 10)` on the text `s`; its end stands for any byte that is no digit. */
  function Strtol(s: Bytes): (r: Parsed)
    ensures r.end <= |s|
  {
    Convert(s, SignEnd(s), Leading(s[SignEnd(s)..], IsDigit))
  }

  // -------------------------------------------------------------------- lemmas

  lemma {:induction false} LeadingIs(s: Bytes, p: byte -> bool, n: nat)
    requires n <= |s| && (forall i :: 0 <= i < n ==> p(s[i])) && (n < |s| ==> !p(s[n]))
    ensures Leading(s, p) == n
  {
  }

  lemma {:induction false} NumberOfDigits(n: nat)
    ensures NumberOf(Digits(n)) == n
  {
    if n >= 10 {
      NumberOfDigits(n / 10);
      var d := Digits(n);
      assert d[..|d| - 1] == Digits(n / 10);
    }
  }

  lemma {:induction false} SignEndOf(sign: Bytes, d: Bytes, rest: Bytes)
    requires sign == [] || sign == [MINUS]
    requires d != [] && AllDigits(d)
    ensures SignEnd(sign + d + rest) == |sign|
  {
    var s := sign + d + rest;
    assert s[|sign|] == d[0];
    LeadingIs(s, IsSpace, 0);
  }

  lemma {:induction false} StrtolOfDigits(sign: Bytes, d: Bytes, rest: Bytes)
    requires sign == [] || sign == [MINUS]
    requires d != [] && AllDigits(d) && (rest == [] || !IsDigit(rest[0]))
    ensures Strtol(sign + d + rest) == Clamp(if sign == [] then NumberOf(d) else -NumberOf(d), |sign| + |d|)
  {
    var s, j := sign + d + rest, |sign|;
    SignEndOf(sign, d, rest);
    assert s[j..] == d + rest;
    LeadingIs(d + rest, IsDigit, |d|);
    assert Strtol(s) == Convert(s, j, |d|);
    assert s[j..j + |d|] == d;
  }

  /** Reading a printed number gives it back and stops at the first byte after it. */
  lemma {:induction false} StrtolOfShow(v: int, rest: Bytes)
    requires LONG_MIN <= v <= LONG_MAX
    requires rest == [] || !IsDigit(rest[0])
    ensures Strtol(Show(v) + rest) == Parsed(v, |Show(v)|, false)
  {
    var n := if v < 0 then -v else v;
    var sign: Bytes := if v < 0 then [MINUS] else [];
    assert Show(v) == sign + Digits(n);
    StrtolOfDigits(sign, Digits(n), rest);
    NumberOfDigits(n);
  }

  /** A number that ends inside `s` is read the same when more bytes follow. */
  lemma {:induction false} StrtolPrefix(s: Bytes, t: Bytes)
    requires 0 < Strtol(s).end < |s|
    ensures Strtol(s + t) == Strtol(s)
  {
    SignEndPrefix(s, t);
    var j := SignEnd(s);
    var n := Leading(s[j..], IsDigit);
    assert (s + t)[j..] == s[j..] + t;
    LeadingIs((s + t)[j..], IsDigit, n);
    ConvertPrefix(s, t, j, n);
  }

  lemma {:induction false} ConvertPrefix(s: Bytes, t: Bytes, j: nat, n: nat)
    requires j + n <= |s|
    ensures Convert(s + t, j, n) == Convert(s, j, n)
  {
    assert (s + t)[j..j + n] == s[j..j + n];
  }

  lemma {:induction false} SignEndPrefix(s: Bytes, t: Bytes)
    requires SignEnd(s) < |s|
    ensures SignEnd(s + t) == SignEnd(s)
  {
    LeadingIs(s + t, IsSpace, Leading(s, IsSpace));
  }

  lemma {:induction false} SignEndPast(s: Bytes, t: Bytes)
    requires SignEnd(s) == |s|
    ensures SignEnd(s + t) >= |s|
  {
    var i := Leading(s, IsSpace);
    if i < |s| {
      LeadingIs(s + t, IsSpace, i);
    }
  }

  lemma {:induction false} StrtolRunsOn(s: Bytes, t: Bytes)
    requires SignEnd(s) < |s| && AllDigits(s[SignEnd(s)..])
    ensures Strtol(s).end == |s| && Strtol(s + t).end >= |s|
  {
    SignEndPrefix(s, t);
    var j := SignEnd(s);
    assert (s + t)[j..] == s[j..] + t;
    LeadingIs(s[j..], IsDigit, |s| - j);
    var n := Leading(s[j..] + t, IsDigit);
    assert Strtol(s + t) == Convert(s + t, j, n);
  }

  lemma {:induction false} StrtolNone(s: Bytes, t: Bytes)
    requires SignEnd(s) < |s| && !IsDigit(s[SignEnd(s)])
    ensures Strtol(s).end == 0 && Strtol(s + t).end == 0
  {
    SignEndPrefix(s, t);
  }

  lemma {:induction false} StrtolBlank(s: Bytes, t: Bytes)
    requires SignEnd(s) == |s|
    ensures Strtol(s).end == 0 && (Strtol(s + t).end == 0 || Strtol(s + t).end >= |s|)
  {
    SignEndPast(s, t);
  }

  /** The text `s` does not show a number with two bytes after it, so its reader must wait or give up. */
  predicate Unfinished(s: Bytes, n: nat) {
    Strtol(s).end == 0 || Strtol(s).end + 1 >= n || Strtol(s).erange
  }

  /** `strtol` may read past the `|s|` bytes received; what lies there never changes the outcome. */
  lemma {:induction false} StrtolIgnoresTail(s: Bytes, t: Bytes)
    ensures Unfinished(s + t, |s|) == Unfinished(s, |s|)
    ensures !Unfinished(s, |s|) ==> Strtol(s + t) == Strtol(s)
  {
    var j := SignEnd(s);
    if j == |s| {
      StrtolBlank(s, t);
    } else if !IsDigit(s[j]) {
      StrtolNone(s, t);
    } else if Leading(s[j..], IsDigit) < |s| - j {
      StrtolPrefix(s, t);
    } else {
      StrtolRunsOn(s, t);
    }
  }
}

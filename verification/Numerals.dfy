/** Decimal numerals by place value, and what `strtol` and `%ld` mean in those terms. */
module Numerals {
  import opened Decimal

  function Pow10(n: nat): nat { if n == 0 then 1 else 10 * Pow10(n - 1) }

  /** The first `n` digits of `s`, each times the power of ten of its place. */
  function PlaceSum(s: Bytes, n: nat): int
    requires n <= |s|
  {
    if n == 0 then 0 else PlaceSum(s, n - 1) + (s[n - 1] as int - 48) * Pow10(|s| - n)
  }

  /** The number that a string of digits means. */
  function Meaning(s: Bytes): int { PlaceSum(s, |s|) }

  lemma {:induction false} OnePlaceUp(s: Bytes, n: nat)
    requires n < |s|
    ensures PlaceSum(s, n) == 10 * PlaceSum(s[..|s| - 1], n)
    decreases n
  {
    if n > 0 {
      OnePlaceUp(s, n - 1);
      var d, p: int := s[n - 1] as int - 48, Pow10(|s| - 1 - n);
      assert d * (10 * p) == 10 * (d * p);
    }
  }

  /** Adding digit by digit gives the sum by places. */
  lemma {:induction false} NumberIsMeaning(s: Bytes)
    ensures NumberOf(s) == Meaning(s)
    decreases |s|
  {
    if s != [] {
      OnePlaceUp(s, |s| - 1);
      NumberIsMeaning(s[..|s| - 1]);
    }
  }

  lemma {:induction false} NumberBound(s: Bytes)
    requires AllDigits(s)
    ensures 0 <= NumberOf(s) < Pow10(|s|)
    decreases |s|
  {
    if s != [] { NumberBound(s[..|s| - 1]); }
  }

  lemma {:induction false} Pow10Grows(m: nat, n: nat)
    requires m <= n
    ensures Pow10(m) <= Pow10(n)
    decreases n
  {
    if m < n { Pow10Grows(m, n - 1); }
  }

  // ------------------------------------------------------------------------ printing

  /** A numeral as it is printed: digits, of which the first is 0 only if it is the only one. */
  ghost predicate Plain(s: Bytes) { s != [] && AllDigits(s) && (|s| > 1 ==> s[0] != 48) }

  lemma {:induction false} PlainIsPositive(s: Bytes)
    requires Plain(s) && s[0] != 48
    ensures NumberOf(s) > 0
    decreases |s|
  {
    if |s| > 1 {
      PlainIsPositive(s[..|s| - 1]);
    } else {
      assert NumberOf(s) == 10 * NumberOf(s[..0]) + (s[0] as int - 48);
    }
  }

  lemma {:induction false} DigitsArePlain(n: nat)
    ensures Plain(Digits(n)) && (n > 0 ==> Digits(n)[0] != 48)
  {
    if n >= 10 { DigitsArePlain(n / 10); }
  }

  lemma {:induction false} PlainIsDigits(s: Bytes)
    requires Plain(s)
    ensures NumberOf(s) >= 0 && s == Digits(NumberOf(s))
    decreases |s|
  {
    var k := |s| - 1;
    var front, d := s[..k], s[k] as int - 48;
    NumberBound(s);
    if k == 0 {
      assert NumberOf(s) == 10 * NumberOf(front) + d && front == [];
    } else {
      PlainIsPositive(front);
      PlainIsDigits(front);
      assert NumberOf(s) == 10 * NumberOf(front) + d;
      assert s == front + [s[k]];
    }
  }

  /** What is printed for a number is the one plain numeral that means it. */
  lemma {:induction false} PrintsTheNumeral(s: Bytes, n: nat)
    ensures Plain(s) && Meaning(s) == n <==> s == Digits(n)
  {
    if Plain(s) && Meaning(s) == n {
      NumberIsMeaning(s);
      PlainIsDigits(s);
    }
    if s == Digits(n) {
      DigitsArePlain(n);
      NumberOfDigits(n);
      NumberIsMeaning(s);
    }
  }

  lemma {:induction false} ShowsTheNumeral(v: int)
    ensures v >= 0 ==> Plain(Show(v)) && Meaning(Show(v)) == v
    ensures v < 0 ==> Show(v)[0] == 45 && Plain(Show(v)[1..]) && Meaning(Show(v)[1..]) == -v
  {
    var n: nat := if v < 0 then -v else v;
    PrintsTheNumeral(Digits(n), n);
    if v < 0 { assert Show(v)[1..] == Digits(n); }
  }

  // ------------------------------------------------------------------------- reading

  /** Blanks, tabs, line ends, vertical tabs and form feeds. */
  ghost predicate Blank(s: Bytes) {
    forall i :: 0 <= i < |s| ==> s[i] == 32 || s[i] == 9 || s[i] == 10 || s[i] == 11 || s[i] == 12 || s[i] == 13
  }

  /** `v`, or the nearest number that fits 64 bits, which is reported as an error. */
  function Saturated(v: int, end: nat): Parsed {
    Parsed(if v > 0x7fff_ffff_ffff_ffff then 0x7fff_ffff_ffff_ffff
           else if v < -0x8000_0000_0000_0000 then -0x8000_0000_0000_0000 else v,
           end, v > 0x7fff_ffff_ffff_ffff || v < -0x8000_0000_0000_0000)
  }

  lemma {:induction false} SignAfterBlanks(blanks: Bytes, sign: Bytes, t: Bytes)
    requires Blank(blanks) && (sign == [] || sign == [43] || sign == [45])
    requires sign == [] ==> t == [] || (!IsSpace(t[0]) && t[0] != 43 && t[0] != 45)
    ensures SignEnd(blanks + sign + t) == |blanks| + |sign|
  {
    var s := blanks + sign + t;
    assert sign == [] && t != [] ==> s[|blanks|] == t[0];
    LeadingIs(s, IsSpace, |blanks|);
  }

  lemma {:induction false} ConvertReads(s: Bytes, j: nat, d: Bytes, negative: bool)
    requires d != [] && j + |d| <= |s| && s[j..j + |d|] == d && (negative <==> j > 0 && s[j - 1] == MINUS)
    ensures Convert(s, j, |d|) == Saturated(if negative then -Meaning(d) else Meaning(d), j + |d|)
  {
    NumberIsMeaning(d);
  }

  lemma {:induction false} DigitsAfterSign(s: Bytes, j: nat, d: Bytes, rest: Bytes)
    requires SignEnd(s) == j && s[j..] == d + rest && AllDigits(d) && (rest == [] || !IsDigit(rest[0]))
    ensures Strtol(s) == Convert(s, j, |d|) && s[j..j + |d|] == d
  {
    LeadingIs(d + rest, IsDigit, |d|);
    assert s[j..j + |d|] == s[j..][..|d|];
  }

  /** Blanks, a sign, digits and whatever follows: the digits are read to their end and mean what they mean. */
  lemma {:induction false} StrtolReads(blanks: Bytes, sign: Bytes, d: Bytes, rest: Bytes)
    requires Blank(blanks) && (sign == [] || sign == [43] || sign == [45])
    requires d != [] && AllDigits(d) && (rest == [] || !IsDigit(rest[0]))
    ensures Strtol(blanks + sign + (d + rest))
      == Saturated(if sign == [45] then -Meaning(d) else Meaning(d), |blanks| + |sign| + |d|)
  {
    var s, j := blanks + sign + (d + rest), |blanks| + |sign|;
    SignAfterBlanks(blanks, sign, d + rest);
    SignByte(blanks, sign, d + rest);
    assert s[j..] == d + rest;
    DigitsAfterSign(s, j, d, rest);
    ConvertReads(s, j, d, sign == [45]);
  }

  lemma {:induction false} SignByte(blanks: Bytes, sign: Bytes, t: Bytes)
    requires Blank(blanks) && (sign == [] || sign == [43] || sign == [45])
    ensures var s, j := blanks + sign + t, |blanks| + |sign|; j > 0 && s[j - 1] == MINUS <==> sign == [45]
  {
    var s, j := blanks + sign + t, |blanks| + |sign|;
    if sign == [] && j > 0 { assert s[j - 1] == blanks[j - 1]; }
    if sign != [] { assert s[j - 1] == sign[0]; }
  }

  /** Without a digit there, nothing is read. */
  lemma {:induction false} StrtolReadsNothing(blanks: Bytes, sign: Bytes, t: Bytes)
    requires Blank(blanks) && (sign == [] || sign == [43] || sign == [45]) && (t == [] || !IsDigit(t[0]))
    requires sign == [] ==> t == [] || (!IsSpace(t[0]) && t[0] != 43 && t[0] != 45)
    ensures Strtol(blanks + sign + t) == Parsed(0, 0, false)
  {
    var s, j := blanks + sign + t, |blanks| + |sign|;
    SignAfterBlanks(blanks, sign, t);
    assert s[j..] == t;
    LeadingIs(t, IsDigit, 0);
  }

  /** A text that is a numeral, as it stands. */
  lemma {:induction false} StrtolOfNumeral(d: Bytes)
    requires d != [] && AllDigits(d)
    ensures Strtol(d) == Saturated(Meaning(d), |d|)
  {
    StrtolReads([], [], d, []);
    assert [] + [] + (d + []) == d;
  }

  /** Twelve. */
  lemma {:induction false} Twelve()
    ensures Meaning([49, 50]) == 12 && Show(12) == [49, 50] && Strtol([49, 50, 13, 10]) == Parsed(12, 2, false)
  {
    var d := [49, 50];
    assert Pow10(0) == 1 && Pow10(1) == 10;
    assert PlaceSum(d, 1) == 10 && PlaceSum(d, 2) == 12;
    PrintsTheNumeral(d, 12);
    StrtolReads([], [], d, [13, 10]);
    assert [] + [] + (d + [13, 10]) == [49, 50, 13, 10];
  }
}

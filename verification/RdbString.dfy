/** Length-prefixed and integer-encoded strings of a snapshot, and the file they are read from and written to. */
module RdbStrings {
  import opened Bits
  import opened Decimal
  import opened Handler
  import opened Wrappers

  // ------------------------------------------------------------- integers as bytes

  function Pow256(n: nat): nat { if n == 0 then 1 else 256 * Pow256(n - 1) }

  /** The `n` low bytes of `v`, least significant first. */
  function Le(v: nat, n: nat): (r: Bytes)
    ensures |r| == n
  {
    if n == 0 then [] else [v % 256] + Le(v / 256, n - 1)
  }

  function FromLe(s: Bytes): nat {
    if s == [] then 0 else s[0] + 256 * FromLe(s[1..])
  }

  /** The four bytes of `v`, most significant first. */
  function Be4(v: nat): (r: Bytes)
    ensures |r| == 4
  {
    [v / 0x100_0000 % 256, v / 0x1_0000 % 256, v / 0x100 % 256, v % 256]
  }

  function FromBe4(s: Bytes): nat
    requires |s| == 4
  {
    ((s[0] as int * 256 + s[1]) * 256 + s[2]) * 256 + s[3]
  }

  /** `u`, taken modulo `m`, as a two's complement number of that width. */
  function Signed(u: nat, m: nat): int { if 2 * u >= m then u - m else u }

  function Unsigned(v: int, m: nat): nat
    requires m > 0
  {
    v % m
  }

  lemma {:induction false} FromLeOfLe(v: nat, n: nat)
    requires v < Pow256(n)
    ensures FromLe(Le(v, n)) == v
  {
    if n > 0 {
      FromLeOfLe(v / 256, n - 1);
      assert Le(v, n)[1..] == Le(v / 256, n - 1);
    }
  }

  lemma {:induction false} SignedOfUnsigned(v: int, m: nat)
    requires m > 0 && 0 <= m + 2 * v < 2 * m
    ensures Unsigned(v, m) < m && Signed(Unsigned(v, m), m) == v
  {
    if v < 0 {
      ModUnique(v, m, -1, v + m);
    } else {
      ModUnique(v, m, 0, v);
    }
  }

  lemma {:induction false} Be4RoundTrip(v: nat)
    requires v < 0x1_0000_0000
    ensures FromBe4(Be4(v)) == v
  {
    var a, b, c := v / 0x100, v / 0x1_0000, v / 0x100_0000;
    assert b == a / 256 && c == b / 256;
  }

  // ------------------------------------------------------------------- encoding

  /** The whole string is a number for `strtoll`, in 32-bit range. The empty string is one: zero. */
  predicate IsInteger(str: Bytes) {
    Strtol(str).end == |str| && INT_MIN <= Strtol(str).value <= INT_MAX
  }

  /** The output of `write_rdb_string`. */
  function EncodeString(str: Bytes): (r: Bytes) {
    var v := Strtol(str).value;
    if IsInteger(str) && -128 <= v <= 127 then [0xC0] + Le(Unsigned(v, 0x100), 1)
    else if IsInteger(str) && -32768 <= v <= 32767 then [0xC1] + Le(Unsigned(v, 0x1_0000), 2)
    else if IsInteger(str) then [0xC2] + Le(Unsigned(v, 0x1_0000_0000), 4)
    else EncodeRaw(str)
  }

  /** The length prefix: 6 bits, 14 bits or 32 bits of length behind a two-bit type. */
  function RawHeader(len: nat): (r: Bytes) {
    if len <= 63 then [len]
    else if len <= 16383 then [64 + len / 256, len % 256]
    else [0x80] + Be4(len)
  }

  function EncodeRaw(str: Bytes): (r: Bytes) { RawHeader(|str|) + str }

  // ------------------------------------------------------------------- decoding

  /** What a read leaves: the string, if one was read, and the bytes after the cursor. */
  datatype Read = Read(value: Option<Bytes>, rest: Bytes)

  function Fail(rest: Bytes): Read { Read(None, rest) }

  /** `fread` of `len` bytes, used as a C string; a negative length cannot be allocated and reads nothing. */
  function TakeString(s: Bytes, len: int): Read {
    if len < 0 then Fail(s)
    else if len <= |s| then Read(Some(CStr(s[..len])), s[len..])
    else Fail([])
  }

  /** The four length bytes; a byte 0xFF looks like the end of the file to the signed comparison. */
  function TakeLength(s: Bytes, k: nat, acc: nat): Read
    decreases k
  {
    if k == 0 then TakeString(s, Signed(acc, 0x1_0000_0000))
    else if s == [] then Fail([])
    else if s[0] == 255 then Fail(s[1..])
    else TakeLength(s[1..], k - 1, acc * 256 + s[0])
  }

  lemma {:induction false} LengthStep(s: Bytes, k: nat, acc: nat)
    requires k > 0
    ensures s == [] ==> TakeLength(s, k, acc) == Fail([])
    ensures s != [] && s[0] == 255 ==> TakeLength(s, k, acc) == Fail(s[1..])
    ensures s != [] && s[0] != 255 ==> TakeLength(s, k, acc) == TakeLength(s[1..], k - 1, acc * 256 + s[0])
  {
  }

  function TakeInteger(s: Bytes, n: nat): Read {
    if |s| < n then Fail([])
    else Read(Some(Show(Signed(FromLe(s[..n]), Pow256(n)))), s[n..])
  }

  /** `read_rdb_string` */
  function DecodeString(s: Bytes): Read {
    if s == [] then Fail([])
    else
      var low, rest := s[0] % 64, s[1..];
      match s[0] / 64
      case 0 => TakeString(rest, low)
      case 1 => if rest == [] then Fail([]) else TakeString(rest[1..], low * 256 + rest[0])
      case 2 => TakeLength(rest, 4, 0)
      case _ =>
        if low == 0 then TakeInteger(rest, 1)
        else if low == 1 then TakeInteger(rest, 2)
        else if low == 2 then TakeInteger(rest, 4)
        else Fail(rest)
  }

  // ------------------------------------------------------------------ round trip

  /** What a string becomes on its way through a snapshot. */
  function Normal(str: Bytes): Bytes {
    if IsInteger(str) then Show(Strtol(str).value) else str
  }

  /** The length bytes of a long string do not contain 0xFF. */
  predicate Readable(str: Bytes) {
    IsInteger(str) || |str| <= 16383 || 255 !in Be4(|str|)
  }

  lemma {:induction false} IntegerRoundTrip(v: int, n: nat, suffix: Bytes)
    requires n == 1 || n == 2 || n == 4
    requires 0 <= Pow256(n) + 2 * v < 2 * Pow256(n)
    ensures TakeInteger(Le(Unsigned(v, Pow256(n)), n) + suffix, n) == Read(Some(Show(v)), suffix)
  {
    var u := Unsigned(v, Pow256(n));
    assert Pow256(1) == 256 && Pow256(2) == 65536 && Pow256(4) == 0x1_0000_0000;
    SignedOfUnsigned(v, Pow256(n));
    FromLeOfLe(u, n);
    assert (Le(u, n) + suffix)[..n] == Le(u, n) && (Le(u, n) + suffix)[n..] == suffix;
  }

  lemma {:induction false} StringTaken(str: Bytes, suffix: Bytes)
    requires 0 !in str
    ensures TakeString(str + suffix, |str|) == Read(Some(str), suffix)
  {
    assert (str + suffix)[..|str|] == str && (str + suffix)[|str|..] == suffix;
  }

  /** The number that length bytes build up behind `acc`. */
  function Accumulated(b: Bytes, acc: nat): nat {
    if b == [] then acc else Accumulated(b[1..], acc * 256 + b[0])
  }

  lemma {:induction false} BytesTaken(b: Bytes, t: Bytes, acc: nat)
    ensures 255 in b ==> TakeLength(b + t, |b|, acc).value == None
    ensures 255 !in b ==> TakeLength(b + t, |b|, acc) == TakeString(t, Signed(Accumulated(b, acc), 0x1_0000_0000))
    decreases |b|
  {
    if b == [] {
      assert b + t == t;
    } else {
      assert b + t == [b[0]] + (b[1..] + t) && b == [b[0]] + b[1..];
      LengthHead(b[0], b[1..] + t, |b|, acc);
      BytesTaken(b[1..], t, acc * 256 + b[0]);
    }
  }

  lemma {:induction false} AccumulatedIsBe4(b: Bytes)
    requires |b| == 4
    ensures Accumulated(b, 0) == FromBe4(b)
  {
    var x1: nat := b[0] as int;
    var x2: nat := x1 * 256 + b[1];
    var x3: nat := x2 * 256 + b[2];
    var x4: nat := x3 * 256 + b[3];
    assert Accumulated(b, 0) == Accumulated(b[1..], x1);
    assert Accumulated(b[1..], x1) == Accumulated(b[2..], x2) by { assert b[1..][1..] == b[2..]; }
    assert Accumulated(b[2..], x2) == Accumulated(b[3..], x3) by { assert b[2..][1..] == b[3..]; }
    assert Accumulated(b[3..], x3) == Accumulated(b[4..], x4) by { assert b[3..][1..] == b[4..]; }
  }

  lemma {:induction false} LengthHead(c: byte, t: Bytes, k: nat, acc: nat)
    requires k > 0
    ensures if c == 255 then TakeLength([c] + t, k, acc).value == None
      else TakeLength([c] + t, k, acc) == TakeLength(t, k - 1, acc * 256 + c)
  {
    assert ([c] + t)[1..] == t;
  }

  lemma {:induction false} ShortRoundTrip(str: Bytes, suffix: Bytes)
    requires 0 !in str && |str| <= 63
    ensures DecodeString(EncodeRaw(str) + suffix) == Read(Some(str), suffix)
  {
    StringTaken(str, suffix);
    assert (EncodeRaw(str) + suffix)[1..] == str + suffix;
  }

  lemma {:induction false} MediumRoundTrip(str: Bytes, suffix: Bytes)
    requires 0 !in str && 63 < |str| <= 16383
    ensures DecodeString(EncodeRaw(str) + suffix) == Read(Some(str), suffix)
  {
    var s, t := EncodeRaw(str) + suffix, [|str| % 256] + (str + suffix);
    StringTaken(str, suffix);
    assert s[1..] == t && t[1..] == str + suffix;
    assert s[0] / 64 == 1 && s[0] % 64 == |str| / 256;
  }

  lemma {:induction false} LongRoundTrip(str: Bytes, suffix: Bytes)
    requires 0 !in str && 16383 < |str| <= INT_MAX
    ensures var r := DecodeString(EncodeRaw(str) + suffix);
      if 255 !in Be4(|str|) then r == Read(Some(str), suffix) else r.value == None
  {
    var s, b := EncodeRaw(str) + suffix, Be4(|str|);
    assert s == [0x80] + (b + (str + suffix));
    BytesTaken(b, str + suffix, 0);
    AccumulatedIsBe4(b);
    Be4RoundTrip(|str|);
    StringTaken(str, suffix);
    assert DecodeString(s) == TakeLength(b + (str + suffix), 4, 0);
  }

  /** A raw string comes back exactly when its length bytes are readable. */
  lemma {:induction false} RawRoundTrip(str: Bytes, suffix: Bytes)
    requires 0 !in str && |str| <= INT_MAX
    ensures var r := DecodeString(EncodeRaw(str) + suffix);
      if |str| <= 16383 || 255 !in Be4(|str|) then r == Read(Some(str), suffix) else r.value == None
  {
    if |str| <= 63 {
      ShortRoundTrip(str, suffix);
    } else if |str| <= 16383 {
      MediumRoundTrip(str, suffix);
    } else {
      LongRoundTrip(str, suffix);
    }
  }

  /**
   Strings delimit themselves: reading what was written leaves exactly the bytes that follow and
   yields the string in normal form, if and only if the length bytes are readable.
   */
  lemma {:induction false} StringRoundTrip(str: Bytes, suffix: Bytes)
    requires 0 !in str && |str| <= INT_MAX
    ensures DecodeString(EncodeString(str) + suffix) == Read(Some(Normal(str)), suffix) <==> Readable(str)
  {
    if IsInteger(str) {
      IntegerStringRoundTrip(str, suffix);
    } else {
      RawRoundTrip(str, suffix);
    }
  }

  lemma {:induction false} IntegerStringRoundTrip(str: Bytes, suffix: Bytes)
    requires IsInteger(str)
    ensures DecodeString(EncodeString(str) + suffix) == Read(Some(Show(Strtol(str).value)), suffix)
  {
    var b, n := IntegerEncoded(str);
    var le := Le(Unsigned(Strtol(str).value, Pow256(n)), n);
    assert [b] + le + suffix == [b] + (le + suffix);
    IntegerRoundTrip(Strtol(str).value, n, suffix);
    IntegerDecoded(b, n, le + suffix);
  }

  lemma {:induction false} IntegerEncoded(str: Bytes) returns (b: byte, n: nat)
    requires IsInteger(str)
    ensures (b == 0xC0 && n == 1) || (b == 0xC1 && n == 2) || (b == 0xC2 && n == 4)
    ensures var v := Strtol(str).value;
      0 <= Pow256(n) + 2 * v < 2 * Pow256(n) && EncodeString(str) == [b] + Le(Unsigned(v, Pow256(n)), n)
  {
    var v := Strtol(str).value;
    assert Pow256(1) == 256 && Pow256(2) == 65536 && Pow256(4) == 0x1_0000_0000;
    n := if -128 <= v <= 127 then 1 else if -32768 <= v <= 32767 then 2 else 4;
    b := if n == 1 then 0xC0 else if n == 2 then 0xC1 else 0xC2;
  }

  lemma {:induction false} IntegerDecoded(b: byte, n: nat, t: Bytes)
    requires (b == 0xC0 && n == 1) || (b == 0xC1 && n == 2) || (b == 0xC2 && n == 4)
    ensures DecodeString([b] + t) == TakeInteger(t, n)
  {
    assert ([b] + t)[1..] == t;
  }

  lemma {:induction false} ShowIsInteger(v: int)
    requires INT_MIN <= v <= INT_MAX
    ensures IsInteger(Show(v)) && Strtol(Show(v)).value == v && 0 !in Show(v)
  {
    StrtolOfShow(v, []);
    assert Show(v) + [] == Show(v);
  }

  /** A second pass changes nothing; and a string is kept exactly if it is no integer or is one in plain form. */
  lemma {:induction false} NormalIdempotent(str: Bytes)
    ensures Normal(Normal(str)) == Normal(str)
    ensures Normal(str) == str <==> (IsInteger(str) ==> str == Show(Strtol(str).value))
    ensures 0 !in str ==> 0 !in Normal(str)
  {
    if IsInteger(str) { ShowIsInteger(Strtol(str).value); }
  }
}

/** Which bytes of a snapshot mean what: lengths, integers, times, and a file byte by byte. */
module RdbBytes {
  import opened Decimal
  import opened Framing
  import opened Handler
  import opened Numerals
  import opened RdbStrings
  import opened Snapshot
  import opened Store
  import opened Wrappers

  // ------------------------------------------------------------------------ integers

  /** The first `n` bytes of `s`, each times the power of 256 of its place; the first byte is the lowest. */
  function ByteSum(s: Bytes, n: nat): nat
    requires n <= |s|
  {
    if n == 0 then 0 else ByteSum(s, n - 1) + s[n - 1] * Pow256(n - 1)
  }

  /** The number that little-endian bytes mean. */
  function LittleEndian(s: Bytes): nat { ByteSum(s, |s|) }

  lemma {:induction false} OneByteDown(s: Bytes, n: nat)
    requires n < |s|
    ensures ByteSum(s, n + 1) == s[0] + 256 * ByteSum(s[1..], n)
    decreases n
  {
    if n == 0 {
      assert ByteSum(s, 1) == ByteSum(s, 0) + s[0] * Pow256(0);
    } else {
      OneByteDown(s, n - 1);
      var b, p: int := s[n] as int, Pow256(n - 1);
      assert s[1..][n - 1] == s[n] && Pow256(n) == 256 * p;
      assert b * (256 * p) == 256 * (b * p);
    }
  }

  lemma {:induction false} FromLeIsSum(s: Bytes)
    ensures FromLe(s) == LittleEndian(s)
    decreases |s|
  {
    if s != [] {
      OneByteDown(s, |s| - 1);
      FromLeIsSum(s[1..]);
    }
  }

  /** The bytes written for a number mean it. */
  lemma {:induction false} LeMeans(v: nat, n: nat)
    requires v < Pow256(n)
    ensures LittleEndian(Le(v, n)) == v
  {
    FromLeOfLe(v, n);
    FromLeIsSum(Le(v, n));
  }

  // ------------------------------------------------------------------------- lengths

  /** A C string of `n` bytes taken off the front of `t`, if there are so many. */
  function Took(t: Bytes, n: nat): Read {
    if n <= |t| then Read(Some(CStr(t[..n])), t[n..]) else Read(None, [])
  }

  /** The number that four big-endian bytes mean. */
  function BigEndian(b: Bytes): nat
    requires |b| == 4
  {
    b[0] as int * 0x100_0000 + b[1] as int * 0x1_0000 + b[2] as int * 0x100 + b[3] as int
  }

  /** The bytes before a string: one, two or five, of which the two top bits of the first say how many. */
  lemma {:induction false} HeaderMeans(len: nat)
    requires len < 0x1_0000_0000
    ensures var r := RawHeader(len);
      && (len <= 63 ==> |r| == 1 && r[0] == len)
      && (63 < len <= 16383 ==> |r| == 2 && 256 * (r[0] as int) + r[1] == 0x4000 + len)
      && (16383 < len ==>
            |r| == 5 && r[0] == 0x80 && BigEndian(r[1..]) == len)
  {
    if len > 16383 {
      Be4RoundTrip(len);
      assert RawHeader(len)[1..] == Be4(len);
    }
  }

  lemma {:induction false} ShortLength(a: byte, t: Bytes)
    requires a < 0x40
    ensures DecodeString([a] + t) == Took(t, a)
  {
    assert ([a] + t)[1..] == t;
  }

  lemma {:induction false} MediumLength(a: byte, b: byte, t: Bytes)
    requires 0x40 <= a < 0x80
    ensures DecodeString([a, b] + t) == Took(t, 256 * a + b - 0x4000)
  {
    var s := [a, b] + t;
    assert s[0] == a && s[1..] == [b] + t && ([b] + t)[1..] == t;
    assert a / 64 == 1 && a % 64 == a - 64;
    assert DecodeString(s) == TakeString(t, (a - 64) as int * 256 + b);
  }

  /** Four bytes, the first the highest, in 32 signed bits; a byte 0xFF among them is taken for the end of the file. */
  lemma {:induction false} LongLength(a: byte, b: Bytes, t: Bytes)
    requires 0x80 <= a < 0xC0 && |b| == 4
    ensures var r := DecodeString([a] + (b + t));
      if 255 in b || BigEndian(b) >= 0x8000_0000 then r.value == None else r == Took(t, BigEndian(b))
  {
    var s := [a] + (b + t);
    assert s[1..] == b + t && s[0] / 64 == 2;
    BytesTaken(b, t, 0);
    AccumulatedIsBe4(b);
  }

  /** One, two or four bytes, the first the lowest, in two's complement; the string is the number's numeral. */
  lemma {:induction false} IntegerRead(a: byte, b: Bytes, t: Bytes)
    requires (a == 0xC0 && |b| == 1) || (a == 0xC1 && |b| == 2) || (a == 0xC2 && |b| == 4)
    ensures var u, m := LittleEndian(b), Pow256(|b|);
      DecodeString([a] + (b + t)) == Read(Some(Show(if 2 * u >= m then u - m else u)), t)
  {
    assert ([a] + (b + t))[1..] == b + t && (b + t)[..|b|] == b && (b + t)[|b|..] == t;
    FromLeIsSum(b);
  }

  lemma {:induction false} NoSuchEncoding(a: byte, t: Bytes)
    requires a >= 0xC3
    ensures DecodeString([a] + t).value == None
  {
  }

  /** A text that begins with no digit, blank or sign is written raw and read back as it is. */
  lemma {:induction false} WordsAreRaw(s: Bytes)
    requires s != [] && !IsDigit(s[0]) && !IsSpace(s[0]) && s[0] != PLUS && s[0] != MINUS
    ensures !IsInteger(s) && EncodeString(s) == RawHeader(|s|) + s && Normal(s) == s
  {
    StrtolReadsNothing([], [], s);
    assert [] + [] + s == s;
  }

  /** A number in plain decimals is written in as few bytes as its range needs, and beyond 32 bits as text. */
  lemma {:induction false} IntegerWritten(v: int)
    requires LONG_MIN <= v <= LONG_MAX
    ensures var r := EncodeString(Show(v));
      && (-128 <= v <= 127 ==> |r| == 2 && r[0] == 0xC0 && LittleEndian(r[1..]) == v % 0x100)
      && (-32768 <= v <= 32767 && !(-128 <= v <= 127) ==>
            |r| == 3 && r[0] == 0xC1 && LittleEndian(r[1..]) == v % 0x1_0000)
      && (INT_MIN <= v <= INT_MAX && !(-32768 <= v <= 32767) ==>
            |r| == 5 && r[0] == 0xC2 && LittleEndian(r[1..]) == v % 0x1_0000_0000)
      && (!(INT_MIN <= v <= INT_MAX) ==> r == RawHeader(|Show(v)|) + Show(v))
  {
    StrtolOfShow(v, []);
    assert Show(v) + [] == Show(v);
    assert Pow256(1) == 0x100 && Pow256(2) == 0x1_0000 && Pow256(4) == 0x1_0000_0000;
    if INT_MIN <= v <= INT_MAX {
      var n := if -128 <= v <= 127 then 1 else if -32768 <= v <= 32767 then 2 else 4;
      LeMeans(v % Pow256(n), n);
      assert EncodeString(Show(v))[1..] == Le(v % Pow256(n), n);
    }
  }

  // -------------------------------------------------------------------------- records

  /** A time in seconds is turned into milliseconds in 32 bits. */
  lemma {:induction false} SecondsHead(b: Bytes, typ: byte, t: Bytes)
    requires |b| == 4
    ensures ReadHead([0xFD] + b + [typ] + t) == Head(typ, LittleEndian(b) * 1000 % 0x1_0000_0000, t)
  {
    var s := [0xFD] + b + [typ] + t;
    assert s[1..5] == b && s[5..] == [typ] + t && ([typ] + t)[1..] == t;
    FromLeIsSum(b);
  }

  /** A time in milliseconds is taken as it is, in 64 signed bits. */
  lemma {:induction false} MillisecondsHead(b: Bytes, typ: byte, t: Bytes)
    requires |b| == 8
    ensures var u := LittleEndian(b);
      ReadHead([0xFC] + b + [typ] + t)
        == Head(typ, if u >= 0x8000_0000_0000_0000 then u - 0x1_0000_0000_0000_0000 else u, t)
  {
    var s := [0xFC] + b + [typ] + t;
    assert s[1..9] == b && s[9..] == [typ] + t && ([typ] + t)[1..] == t;
    assert Pow256(4) == 0x1_0000_0000 && Pow256(8) == 0x1_0000_0000_0000_0000;
    FromLeIsSum(b);
  }

  lemma {:induction false} PlainHead(typ: byte, t: Bytes)
    requires typ != 0xFC && typ != 0xFD
    ensures ReadHead([typ] + t) == Head(typ, 0, t)
  {
    assert ([typ] + t)[1..] == t;
  }

  /** A record of another type is passed over by its type byte alone. */
  lemma {:induction false} OtherTypePassed(typ: byte, t: Bytes, db: Db)
    requires typ != 0x00 && typ != 0xFC && typ != 0xFD
    ensures LoadPair([typ] + t, db) == Taken(true, t, db)
  {
    PlainHead(typ, t);
  }

  /** What ends a load: the end opcode, the end of the file, or a database index with its byte. */
  lemma {:induction false} WaysToEnd(x: byte, t: Bytes, db: Db)
    ensures LoadSections([], db) == Loaded(0, db) && LoadSections([0xFF] + t, db) == Loaded(0, db)
    ensures LoadSections([0xFE, x] + t, db) == Loaded(0, db) && LoadSections([0xFE], db) == Loaded(1, db)
    ensures LoadSections([0xFA], db) == LoadSections([0xFB], db) == LoadSections([0xFB, x], db) == Loaded(1, db)
  {
    assert [0xFA][1..] == [];
  }

  /** A record that is cut off before its type byte fails. */
  lemma {:induction false} CutRecordFails(a: byte, b: Bytes, db: Db)
    requires (a == 0xFD && |b| < 4) || (a == 0xFC && |b| < 8)
    ensures LoadPair([], db) == Taken(false, [], db) && LoadPair([a] + b, db) == Taken(false, [], db)
  {
  }

  /** A metadata section ends at its first string of no known encoding, behind that byte. */
  lemma {:induction false} UnreadableMetadata(a: byte, t: Bytes)
    requires a >= 0xC3 && a != 0xFE
    ensures SkipMeta([a] + t) == Some(t) && SkipMeta([]) == None
  {
    var s := [a] + t;
    assert s[0] / 64 == 3 && s[0] % 64 >= 3 && s[1..] == t;
    DecodeShrinks(s);
  }

  // ---------------------------------------------------------------- a file, literally

  const FOO: Bytes := [0x66, 0x6F, 0x6F]
  const K: Bytes := [0x6B]
  const THREE_HUNDRED: Bytes := [0x33, 0x30, 0x30]

  lemma {:induction false} ThreeHundred()
    ensures Meaning(THREE_HUNDRED) == 300 && Show(300) == THREE_HUNDRED && LittleEndian([0x2C, 0x01]) == 300
  {
    var d := THREE_HUNDRED;
    assert Pow10(0) == 1 && Pow10(1) == 10 && Pow10(2) == 100;
    assert PlaceSum(d, 1) == 300 && PlaceSum(d, 2) == 300 && PlaceSum(d, 3) == 300;
    PrintsTheNumeral(d, 300);
    assert Pow256(0) == 1 && Pow256(1) == 256;
    assert ByteSum([0x2C, 0x01], 1) == 0x2C && ByteSum([0x2C, 0x01], 2) == 300;
  }

  /** A metadata section with one pair. */
  lemma {:induction false} MetadataSkipped(t: Bytes)
    ensures SkipMeta([3, 0x76, 0x65, 0x72] + ([0xC0, 7] + ([0xFE] + t))) == Some(t)
  {
    var s2 := [0xFE] + t;
    var s1 := [0xC0, 7] + s2;
    var s := [3, 0x76, 0x65, 0x72] + s1;
    assert s == [3] + ([0x76, 0x65, 0x72] + s1) && s1 == [0xC0] + ([7] + s2) && s2[1..] == t;
    ShortLength(3, [0x76, 0x65, 0x72] + s1);
    assert ([0x76, 0x65, 0x72] + s1)[3..] == s1;
    IntegerRead(0xC0, [7], s2);
    DecodeShrinks(s);
    DecodeShrinks(s1);
  }

  /** A string of 300 bytes behind the length bytes 41 2C. */
  lemma {:induction false} LongValueLoaded(v: Bytes, t: Bytes, db: Db)
    requires |v| == 300 && 0 !in v
    ensures LoadPair([0x00] + ([3] + FOO + ([0x41, 0x2C] + (v + t))), db) == Taken(true, t, Set(db, FOO, Str(v), 0))
  {
    var s := [0x41, 0x2C] + (v + t);
    PlainHead(0x00, [3] + FOO + s);
    assert [3] + FOO + s == [3] + (FOO + s) && (FOO + s)[..3] == FOO && (FOO + s)[3..] == s;
    ShortLength(3, FOO + s);
    MediumLength(0x41, 0x2C, v + t);
    assert (v + t)[..300] == v && (v + t)[300..] == t;
  }

  lemma {:induction false} NumberPairRead(t: Bytes)
    ensures ReadKeyValue([1] + K + ([0xC1] + ([0x2C, 0x01] + t))) == KeyValue(K, THREE_HUNDRED, t)
  {
    var s := [0xC1] + ([0x2C, 0x01] + t);
    assert [1] + K + s == [1] + (K + s) && (K + s)[..1] == K && (K + s)[1..] == s;
    ShortLength(1, K + s);
    ThreeHundred();
    assert Pow256(2) == 65536;
    IntegerRead(0xC1, [0x2C, 0x01], t);
  }

  lemma {:induction false} PairBy(s: Bytes, db: Db, expiration: int, rest: Bytes, key: Bytes, value: Bytes, t: Bytes)
    requires ReadHead(s) == Head(0, expiration, rest) && ReadKeyValue(rest) == KeyValue(key, value, t)
    ensures LoadPair(s, db) == Taken(true, t, Set(db, key, Str(value), expiration))
  {
  }

  /** The integer 300 in two bytes, to live up to ten thousand seconds after the epoch. */
  lemma {:induction false} TimedNumberLoaded(t: Bytes, db: Db)
    ensures LoadPair([0xFD] + [0x10, 0x27, 0, 0] + [0x00] + ([1] + K + ([0xC1] + ([0x2C, 0x01] + t))), db)
      == Taken(true, t, Set(db, K, Str(THREE_HUNDRED), 10_000_000))
  {
    var s := [1] + K + ([0xC1] + ([0x2C, 0x01] + t));
    TenThousand();
    SecondsHead([0x10, 0x27, 0, 0], 0x00, s);
    NumberPairRead(t);
    PairBy([0xFD] + [0x10, 0x27, 0, 0] + [0x00] + s, db, 10_000_000, s, K, THREE_HUNDRED, t);
  }

  lemma {:induction false} TenThousand()
    ensures LittleEndian([0x10, 0x27, 0, 0]) == 10_000
  {
    var b: Bytes := [0x10, 0x27, 0, 0];
    assert Pow256(0) == 1 && Pow256(1) == 256 && Pow256(2) == 65536;
    assert ByteSum(b, 1) == 0x10 && ByteSum(b, 2) == 10_000 && ByteSum(b, 3) == 10_000;
  }

  /** The records of the file. */
  function SampleTable(v: Bytes): Bytes {
    [0x00] + ([3] + FOO + ([0x41, 0x2C] +
      (v + ([0xFD] + [0x10, 0x27, 0, 0] + [0x00] + ([1] + K + ([0xC1] + ([0x2C, 0x01] + [0xFF])))))))
  }

  /** A file with one pair of metadata and two records. */
  function SampleFile(v: Bytes): Bytes {
    [0x52, 0x45, 0x44, 0x49, 0x53, 0x30, 0x30, 0x31, 0x32]
      + ([0xFA] + ([3, 0x76, 0x65, 0x72] + ([0xC0, 7] + ([0xFE] + ([0xFB, 2, 1] + SampleTable(v))))))
  }

  lemma {:induction false} SampleTableLoads(v: Bytes)
    requires |v| == 300 && 0 !in v
    ensures Repeat(LoadPair, 2, SampleTable(v), map[])
      == Taken(true, [0xFF], map[FOO := Entry(Str(v), 0), K := Entry(Str(THREE_HUNDRED), 10_000_000)])
  {
    var t := [0xFD] + [0x10, 0x27, 0, 0] + [0x00] + ([1] + K + ([0xC1] + ([0x2C, 0x01] + [0xFF])));
    var db := Set(map[], FOO, Str(v), 0);
    LongValueLoaded(v, t, map[]);
    TimedNumberLoaded([0xFF], db);
    RepeatOnce(LoadPair, 2, SampleTable(v), map[]);
    RepeatOnce(LoadPair, 1, t, db);
  }

  lemma {:induction false} MagicThen(s: Bytes, db: Db)
    ensures LoadBytes([0x52, 0x45, 0x44, 0x49, 0x53, 0x30, 0x30, 0x31, 0x32] + s, db) == LoadSections(s, db)
  {
    var f := [0x52, 0x45, 0x44, 0x49, 0x53, 0x30, 0x30, 0x31, 0x32] + s;
    assert f[..9] == MAGIC && f[9..] == s;
  }

  lemma {:induction false} MetadataThen(s: Bytes, t: Bytes, db: Db)
    requires SkipMeta(s) == Some(t)
    ensures LoadSections([0xFA] + s, db) == LoadSections(t, db)
  {
    assert ([0xFA] + s)[1..] == s;
  }

  lemma {:induction false} TableThen(n: byte, e: byte, s: Bytes, db: Db, t: Bytes, db': Db)
    requires Repeat(LoadPair, n, s, db) == Taken(true, t, db')
    ensures LoadSections([0xFB, n, e] + s, db) == LoadSections(t, db')
  {
    assert ([0xFB, n, e] + s)[3..] == s;
  }

  /** What the file loads as. */
  lemma {:induction false} SampleFileLoads(v: Bytes)
    requires |v| == 300 && 0 !in v
    ensures LoadBytes(SampleFile(v), map[])
      == Loaded(0, map[FOO := Entry(Str(v), 0), K := Entry(Str(THREE_HUNDRED), 10_000_000)])
  {
    var db: Db := map[FOO := Entry(Str(v), 0), K := Entry(Str(THREE_HUNDRED), 10_000_000)];
    var s := [0xFB, 2, 1] + SampleTable(v);
    var m := [3, 0x76, 0x65, 0x72] + ([0xC0, 7] + ([0xFE] + s));
    MagicThen([0xFA] + m, map[]);
    MetadataSkipped(s);
    MetadataThen(m, s, map[]);
    SampleTableLoads(v);
    TableThen(2, 1, SampleTable(v), map[], [0xFF], db);
    WaysToEnd(0, [], db);
    assert [0xFF] + [] == [0xFF];
  }

  lemma {:induction false} LeOnce(v: nat, n: nat, low: byte, high: nat)
    requires n > 0 && v == 256 * high + low
    ensures Le(v, n) == [low] + Le(high, n - 1)
  {
    assert v % 256 == low && v / 256 == high;
  }

  function Zeros(n: nat): Bytes { if n == 0 then [] else [0] + Zeros(n - 1) }

  lemma {:induction false} ZerosWritten(n: nat)
    ensures Le(0, n) == Zeros(n)
  {
    if n > 0 { ZerosWritten(n - 1); }
  }

  lemma {:induction false} ThousandWritten()
    ensures ExpiryBytes(1000) == [0xFC, 0xE8, 3] + Zeros(6)
  {
    ThousandBytes();
    assert [0xFC] + ([0xE8, 3] + Zeros(6)) == [0xFC, 0xE8, 3] + Zeros(6);
  }

  lemma {:induction false} ThousandBytes()
    ensures Le(1000, 8) == [0xE8, 3] + Zeros(6)
  {
    LeOnce(1000, 8, 0xE8, 3);
    LeOnce(3, 7, 3, 0);
    ZerosWritten(6);
    assert [0xE8] + ([3] + Zeros(6)) == [0xE8, 3] + Zeros(6);
  }

  lemma {:induction false} ThreeHundredWritten()
    ensures EncodeString(THREE_HUNDRED) == [0xC1, 0x2C, 0x01]
  {
    ThreeHundred();
    StrtolOfNumeral(THREE_HUNDRED);
    LeOnce(300, 2, 0x2C, 1);
    LeOnce(1, 1, 1, 0);
  }

  lemma {:induction false} RecordIs(p: Pair, time: Bytes, key: Bytes, value: Bytes)
    requires p.1.value.Str? && ExpiryBytes(p.1.expiration) == time
    requires EncodeString(p.0) == key && EncodeString(p.1.value.s) == value
    ensures Record(p) == time + ([0x00] + key + value)
  {
  }

  lemma {:induction false} RawIs(s: Bytes, header: Bytes)
    requires s != [] && s[0] >= 0x61 && RawHeader(|s|) == header
    ensures EncodeString(s) == header + s
  {
    WordsAreRaw(s);
  }

  /** The records of a long string and of a number with a time. */
  lemma {:induction false} SampleRecords(v: Bytes)
    requires |v| == 300 && v[0] == 0x61
    ensures Record((FOO, Entry(Str(v), 0))) == [] + ([0x00] + ([3] + FOO) + ([0x41, 0x2C] + v))
    ensures Record((K, Entry(Str(THREE_HUNDRED), 1000)))
      == ([0xFC, 0xE8, 3] + Zeros(6)) + ([0x00] + ([1] + K) + [0xC1, 0x2C, 0x01])
  {
    RawIs(FOO, [3]);
    RawIs(v, [0x41, 0x2C]);
    RawIs(K, [1]);
    ThousandWritten();
    ThreeHundredWritten();
    RecordIs((FOO, Entry(Str(v), 0)), [], [3] + FOO, [0x41, 0x2C] + v);
    RecordIs((K, Entry(Str(THREE_HUNDRED), 1000)), [0xFC, 0xE8, 3] + Zeros(6), [1] + K, [0xC1, 0x2C, 0x01]);
  }

  lemma {:induction false} TwoRecords(p: Pair, q: Pair, a: Bytes, b: Bytes)
    requires Record(p) == a && Record(q) == b
    ensures SaveBytes([p, q], 2, 1)
      == [0x52, 0x45, 0x44, 0x49, 0x53, 0x30, 0x30, 0x31, 0x32] + [0xFA, 0xFE, 0xFB, 2, 1] + (a + b) + [0xFF]
  {
    FlatTwo(Record, p, q);
    SamplePreamble();
  }

  lemma {:induction false} SamplePreamble()
    ensures Preamble(2, 1)
      == [0x52, 0x45, 0x44, 0x49, 0x53, 0x30, 0x30, 0x31, 0x32] + [0xFA, 0xFE, 0xFB, 2, 1]
  {
  }

  /** What a store of two entries is saved as. */
  lemma {:induction false} SampleSaved(v: Bytes)
    requires |v| == 300 && v[0] == 0x61
    ensures SaveBytes([(FOO, Entry(Str(v), 0)), (K, Entry(Str(THREE_HUNDRED), 1000))], 2, 1)
      == [0x52, 0x45, 0x44, 0x49, 0x53, 0x30, 0x30, 0x31, 0x32] + [0xFA, 0xFE, 0xFB, 2, 1]
         + (([] + ([0x00] + ([3] + FOO) + ([0x41, 0x2C] + v)))
            + (([0xFC, 0xE8, 3] + Zeros(6)) + ([0x00] + ([1] + K) + [0xC1, 0x2C, 0x01])))
         + [0xFF]
  {
    SampleRecords(v);
    TwoRecords((FOO, Entry(Str(v), 0)), (K, Entry(Str(THREE_HUNDRED), 1000)),
               [] + ([0x00] + ([3] + FOO) + ([0x41, 0x2C] + v)),
               ([0xFC, 0xE8, 3] + Zeros(6)) + ([0x00] + ([1] + K) + [0xC1, 0x2C, 0x01]));
  }
}

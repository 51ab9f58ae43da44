/**
 A record cannot be loaded from fewer bytes than it is saved in. So a store that is too large for the one-byte
 count never comes back whole, whatever its records mean when they are read on as sections.
 */
module LargeSnapshots {
  import opened Decimal
  import opened Framing
  import opened Handler
  import Numerals
  import RdbBytes
  import opened RdbStrings
  import opened Snapshot
  import opened SnapshotTrip
  import opened Store

  // ------------------------------------------------------------- the cost of a string

  /** The number at the front of a text has no more digits than the text has bytes. */
  lemma {:induction false} ValueBound(v: Bytes)
    ensures 0 - Numerals.Pow10(|v|) < Strtol(v).value < Numerals.Pow10(|v|)
  {
    var j := SignEnd(v);
    var n := Leading(v[j..], IsDigit);
    Numerals.NumberBound(v[j..j + n]);
    Numerals.Pow10Grows(n, |v|);
  }

  lemma {:induction false} IntegerLength(v: Bytes)
    requires IsInteger(v)
    ensures |EncodeString(v)|
      == if -128 <= Strtol(v).value <= 127 then 2 else if -32768 <= Strtol(v).value <= 32767 then 3 else 5
  {
  }

  lemma {:induction false} RawLength(v: Bytes)
    requires !IsInteger(v)
    ensures |EncodeString(v)| == |RawHeader(|v|)| + |v|
  {
  }

  /** Integers never take more than the raw form would, except for the empty string. */
  lemma {:induction false} EncodedLength(v: Bytes)
    requires v != []
    ensures |EncodeString(v)| <= |RawHeader(|v|)| + |v|
  {
    if IsInteger(v) {
      IntegerLength(v);
      ValueBound(v);
      assert Numerals.Pow10(1) == 10 && Numerals.Pow10(2) == 100 && Numerals.Pow10(3) == 1000;
    } else {
      RawLength(v);
    }
  }

  lemma {:induction false} ShownLength(x: int, n: nat)
    requires n == 1 || n == 2 || n == 4
    requires 0 <= Pow256(n) + 2 * x < 2 * Pow256(n)
    ensures |EncodeString(Show(x))| <= 1 + n
  {
    assert Pow256(1) == 256 && Pow256(2) == 65536 && Pow256(4) == 0x1_0000_0000;
    ShowIsInteger(x);
    IntegerLength(Show(x));
  }

  /** The fewest bytes a string can be read from: those it is written in, but one for the empty string. */
  function StringCost(v: Bytes): nat { if v == [] then 1 else |EncodeString(v)| }

  lemma {:induction false} FromLeBound(s: Bytes)
    ensures FromLe(s) < Pow256(|s|)
    decreases |s|
  {
    if s != [] { FromLeBound(s[1..]); }
  }

  lemma {:induction false} IntegerCost(s: Bytes, n: nat)
    requires n == 1 || n == 2 || n == 4
    requires TakeInteger(s, n).value.Some?
    ensures var r := TakeInteger(s, n); StringCost(r.value.value) <= 1 + |s| - |r.rest|
  {
    FromLeBound(s[..n]);
    ShownLength(Signed(FromLe(s[..n]), Pow256(n)), n);
  }

  lemma {:induction false} TakenLength(s: Bytes, len: int)
    requires TakeString(s, len).value.Some?
    ensures var r := TakeString(s, len); |r.value.value| <= len == |s| - |r.rest|
  {
    CStrIsPrefix(s[..len]);
  }

  lemma {:induction false} LengthCost(s: Bytes, k: nat, acc: nat)
    requires TakeLength(s, k, acc).value.Some?
    ensures var r := TakeLength(s, k, acc); |r.value.value| + k <= |s| - |r.rest|
    decreases k
  {
    if k == 0 {
      TakenLength(s, Signed(acc, 0x1_0000_0000));
    } else {
      LengthStep(s, k, acc);
      LengthCost(s[1..], k - 1, acc * 256 + s[0]);
    }
  }

  lemma {:induction false} HeaderLength(v: Bytes)
    ensures |RawHeader(|v|)| == if |v| <= 63 then 1 else if |v| <= 16383 then 2 else 5
  {
  }

  lemma {:induction false} RawCost(v: Bytes, header: nat)
    requires |RawHeader(|v|)| <= header
    ensures StringCost(v) <= header + |v|
  {
    if v != [] { EncodedLength(v); }
  }

  lemma {:induction false} ShortCost(s: Bytes)
    requires s != [] && s[0] / 64 == 0 && DecodeString(s).value.Some?
    ensures var r := DecodeString(s); StringCost(r.value.value) <= |s| - |r.rest|
  {
    var v := DecodeString(s).value.value;
    TakenLength(s[1..], s[0] % 64);
    HeaderLength(v);
    RawCost(v, 1);
  }

  lemma {:induction false} MediumCost(s: Bytes)
    requires s != [] && s[0] / 64 == 1 && DecodeString(s).value.Some?
    ensures var r := DecodeString(s); StringCost(r.value.value) <= |s| - |r.rest|
  {
    var v, t := DecodeString(s).value.value, s[1..];
    assert s[0] % 64 <= 63;
    TakenLength(t[1..], s[0] as int % 64 * 256 + t[0]);
    HeaderLength(v);
    RawCost(v, 2);
  }

  lemma {:induction false} LongCost(s: Bytes)
    requires s != [] && s[0] / 64 == 2 && DecodeString(s).value.Some?
    ensures var r := DecodeString(s); StringCost(r.value.value) <= |s| - |r.rest|
  {
    var v := DecodeString(s).value.value;
    LengthCost(s[1..], 4, 0);
    HeaderLength(v);
    RawCost(v, 5);
  }

  /** A string that was read took at least its cost. */
  lemma {:induction false} DecodeCost(s: Bytes)
    requires DecodeString(s).value.Some?
    ensures var r := DecodeString(s); StringCost(r.value.value) <= |s| - |r.rest|
  {
    if s[0] / 64 == 0 {
      ShortCost(s);
    } else if s[0] / 64 == 1 {
      MediumCost(s);
    } else if s[0] / 64 == 2 {
      LongCost(s);
    } else {
      IntegerCost(s[1..], if s[0] % 64 == 0 then 1 else if s[0] % 64 == 1 then 2 else 4);
    }
  }

  // ------------------------------------------------------------- the cost of an entry

  /** The times that a record can also give in four bytes of seconds, wrapped around in 32 bits. */
  predicate ShortTime(expiration: int) { 0 < expiration < 0x1_0000_0000 && expiration % 8 == 0 }

  function TimeCost(expiration: int): nat {
    if expiration <= 0 then 0 else if ShortTime(expiration) then 5 else 9
  }

  lemma {:induction false} SecondsAreShort(x: nat)
    ensures 0 <= x * 1000 % 0x1_0000_0000 < 0x1_0000_0000 && x * 1000 % 0x1_0000_0000 % 8 == 0
  {
    var q := x * 1000 / 0x1_0000_0000;
    assert x * 1000 % 0x1_0000_0000 == 8 * (125 * x - 0x2000_0000 * q);
  }

  lemma {:induction false} HeadCost(s: Bytes)
    requires ReadHead(s).Head? && ReadHead(s).typ == 0
    ensures TimeCost(ReadHead(s).expiration) + 1 <= |s| - |ReadHead(s).rest|
  {
    if s[0] == 0xFD { SecondsAreShort(FromLe(s[1..5])); }
  }

  /** The fewest bytes an entry can be loaded from. */
  function Cost(p: Pair): nat {
    match p.1.value
    case Str(v) => TimeCost(p.1.expiration) + 1 + StringCost(p.0) + StringCost(v)
    case ListOf(_) => 0
  }

  lemma {:induction false} KeyValueCost(s: Bytes)
    requires ReadKeyValue(s).KeyValue?
    ensures var kv := ReadKeyValue(s); StringCost(kv.key) + StringCost(kv.value) <= |s| - |kv.rest|
  {
    DecodeCost(s);
    DecodeCost(DecodeString(s).rest);
  }

  /** Each record that is loaded sets at most one entry, for at least its cost. */
  lemma {:induction false} PairCost(s: Bytes, db: Db) returns (p: Pair)
    requires LoadPair(s, db).ok
    ensures var r := LoadPair(s, db);
      |r.rest| < |s| && (r.state == db || (r.state == PutPair(db, p) && Cost(p) <= |s| - |r.rest|))
  {
    PairShrinks(s, db);
    var h := ReadHead(s);
    if h.typ == 0 {
      var kv := ReadKeyValue(h.rest);
      p := (kv.key, Entry(Str(kv.value), h.expiration));
      HeadCost(s);
      KeyValueCost(h.rest);
    } else {
      p := ([], Entry(Str([]), 0));
    }
  }

  // -------------------------------------------------------------- what can be present

  /** The cost of those of the entries that the store holds. */
  function Present(es: seq<Pair>, db: Db): nat {
    if es == [] then 0
    else (if es[0].0 in db && db[es[0].0] == es[0].1 then Cost(es[0]) else 0) + Present(es[1..], db)
  }

  lemma {:induction false} PresentElsewhere(es: seq<Pair>, db: Db, p: Pair)
    requires forall i :: 0 <= i < |es| ==> es[i].0 != p.0
    ensures Present(es, PutPair(db, p)) == Present(es, db)
    decreases |es|
  {
    if es != [] { PresentElsewhere(es[1..], db, p); }
  }

  /** Setting one entry makes at most that entry present. */
  lemma {:induction false} PresentPut(es: seq<Pair>, db: Db, p: Pair)
    requires DistinctKeys(es)
    ensures Present(es, PutPair(db, p)) <= Present(es, db) + Cost(p)
    decreases |es|
  {
    if es != [] {
      if es[0].0 == p.0 {
        PresentElsewhere(es[1..], db, p);
      } else {
        PresentPut(es[1..], db, p);
      }
    }
  }

  lemma {:induction false} PairPresent(es: seq<Pair>, s: Bytes, db: Db)
    requires DistinctKeys(es) && LoadPair(s, db).ok
    ensures var r := LoadPair(s, db);
      Present(es, r.state) <= Present(es, db) + |s| - |r.rest| && |r.state| <= |db| + 1
  {
    var p := PairCost(s, db);
    PresentPut(es, db, p);
  }

  /** A table of `n` records makes present no more than its bytes, and no more than `n` keys. */
  lemma {:induction false} TablePresent(es: seq<Pair>, n: nat, s: Bytes, db: Db)
    requires DistinctKeys(es) && Repeat(LoadPair, n, s, db).ok
    ensures var r := Repeat(LoadPair, n, s, db);
      |r.rest| <= |s| && Present(es, r.state) <= Present(es, db) + |s| - |r.rest| && |r.state| <= |db| + n
    decreases n
  {
    if n > 0 {
      var p := LoadPair(s, db);
      PairPresent(es, s, db);
      PairShrinks(s, db);
      TablePresent(es, n - 1, p.rest, p.state);
    }
  }

  /** Sections leave the store as it is, or else spend three bytes on the head of a table. */
  lemma {:induction false} SectionsPresent(es: seq<Pair>, s: Bytes, db: Db)
    requires DistinctKeys(es) && LoadSections(s, db).code == 0
    ensures var db' := LoadSections(s, db).db; db' == db || Present(es, db') + 3 <= Present(es, db) + |s|
    decreases |s|
  {
    if s != [] {
      if s[0] == 0xFA {
        SectionsPresent(es, SkipMeta(s[1..]).value, db);
      } else if s[0] == 0xFB {
        var p := Repeat(LoadPair, s[1], s[3..], db);
        TablePresent(es, s[1], s[3..], db);
        SectionsPresent(es, p.rest, p.state);
      } else if s[0] != 0xFE && s[0] != 0xFF {
        SectionsPresent(es, s[1..], db);
      }
    }
  }

  // ------------------------------------------------------------------- large stores

  lemma {:induction false} CountPut(es: seq<Pair>, db: Db)
    requires DistinctKeys(es) && forall i :: 0 <= i < |es| ==> es[i].0 !in db
    ensures |PutAll(es, db)| == |db| + |es|
    decreases |es|
  {
    if es != [] { CountPut(es[1..], PutPair(db, es[0])); }
  }

  /** An entry whose value and time cannot be loaded from fewer bytes than they are saved in. */
  predicate Dear(p: Pair) { IsString(p) ==> p.1.value.s != [] && !ShortTime(p.1.expiration) }

  lemma {:induction false} RecordCost(p: Pair)
    requires Storable(p) && Dear(p)
    ensures |Record(p)| <= Cost(p) + (if p.0 == [] then 1 else 0)
  {
  }

  /** A store that holds all the entries holds as much as their records, up to a byte for an empty key. */
  lemma {:induction false} AllPresent(es: seq<Pair>, db: Db)
    requires DistinctKeys(es) && All(Storable, es) && All(Dear, es)
    requires forall p :: p in es ==> p.0 in db && db[p.0] == p.1
    ensures |Flat(Record, es)| <= Present(es, db) + 1
    ensures (forall p :: p in es ==> p.0 != []) ==> |Flat(Record, es)| <= Present(es, db)
    decreases |es|
  {
    if es != [] {
      assert es[0] in es && Storable(es[0]) && Dear(es[0]);
      RecordCost(es[0]);
      AllPresent(es[1..], db);
      FlatCons(Record, es);
      if es[0].0 == [] { assert forall p :: p in es[1..] ==> p.0 != []; }
    }
  }

  /** What the table of a snapshot and the bytes behind it can bring back, with `n` records counted. */
  lemma {:induction false} TableFalls(es: seq<Pair>, n: nat, t: Bytes)
    requires DistinctKeys(es) && AfterTable(Repeat(LoadPair, n, t, map[])).code == 0
    ensures var db := AfterTable(Repeat(LoadPair, n, t, map[])).db; |db| <= n || Present(es, db) + 3 <= |t|
  {
    var p := Repeat(LoadPair, n, t, map[]);
    NothingPresent(es);
    TablePresent(es, n, t, map[]);
    SectionsPresent(es, p.rest, p.state);
  }

  lemma {:induction false} NothingPresent(es: seq<Pair>)
    ensures Present(es, map[]) == 0
    decreases |es|
  {
    if es != [] { NothingPresent(es[1..]); }
  }

  /** More than 255 entries never come back whole. */
  lemma {:induction false} LargeNeverLoads(es: seq<Pair>, n: byte, expiryCount: int)
    requires DistinctKeys(es) && All(Storable, es) && All(Dear, es) && |es| > 255 && n == |es| % 256
    ensures LoadBytes(SaveBytes(es, |es|, expiryCount), map[]) != Loaded(0, PutAll(es, map[]))
  {
    var t, db := Flat(Record, es) + [0xFF], PutAll(es, map[]);
    SaveSplits(es, |es|, expiryCount);
    CountedByte(|es|, n, expiryCount);
    PreambleLoaded(n, expiryCount, t);
    if AfterTable(Repeat(LoadPair, n, t, map[])) == Loaded(0, db) {
      TableFalls(es, n, t);
      CountPut(es, map[]);
      HoldsAll(es);
      AllPresent(es, db);
    }
  }

  lemma {:induction false} HoldsAll(es: seq<Pair>)
    requires DistinctKeys(es)
    ensures forall p :: p in es ==> p.0 in PutAll(es, map[]) && PutAll(es, map[])[p.0] == p.1
  {
    forall p | p in es
      ensures p.0 in PutAll(es, map[]) && PutAll(es, map[])[p.0] == p.1
    {
      var i: nat :| i < |es| && es[i] == p;
      PutAllHolds(es, map[], i);
    }
  }

  /**
   A saved store is loaded as the same store, with success, exactly if it has at most 255 entries and a snapshot
   keeps every one of them. Of larger stores only those are covered whose values and times have no shorter form.
   */
  lemma {:induction false} SnapshotRoundTripIff(es: seq<Pair>, expiryCount: int)
    requires DistinctKeys(es) && All(Storable, es) && (|es| > 255 ==> All(Dear, es))
    ensures LoadBytes(SaveBytes(es, |es|, expiryCount), map[]) == Loaded(0, PutAll(es, map[]))
       <==> |es| <= 255 && All(Kept, es)
  {
    if |es| <= 255 {
      SmallRoundTripIff(es, expiryCount);
    } else {
      LargeNeverLoads(es, |es| % 256, expiryCount);
    }
  }

  // -------------------------------------------------------------------- an example

  predicate PlainRecord(p: Pair) { Plain(Record(p)) }

  lemma {:induction false} PlainRecords(es: seq<Pair>)
    requires All(PlainRecord, es)
    ensures Plain(Flat(Record, es))
    decreases |es|
  {
    if es != [] {
      assert PlainRecord(es[0]);
      PlainRecords(es[1..]);
      FlatCons(Record, es);
    }
  }

  /** With 256 entries, or a multiple of that, none is counted: all are lost, and success is reported. */
  lemma {:induction false} AllLost(es: seq<Pair>, expiryCount: int)
    requires es != [] && |es| % 256 == 0 && All(Storable, es) && All(Kept, es) && All(PlainRecord, es)
    ensures LoadBytes(SaveBytes(es, |es|, expiryCount), map[]) == Loaded(0, map[])
  {
    AllKept(es);
    PlainRecords(es);
    assert es[0..] == es && es[..0] == [];
    KeysLost(es, 0, expiryCount);
  }

  /** Three letters and one letter. */
  function Sample(i: nat): Pair
    requires i < 256
  {
    ([65, 65 + i / 16, 65 + i % 16], Entry(Str([65]), 0))
  }

  const SAMPLES: seq<Pair> := seq(256, i requires 0 <= i < 256 => Sample(i))

  lemma {:induction false} LettersAreRaw(s: Bytes)
    requires s != [] && s[0] == 65 && |s| <= 63
    ensures EncodeString(s) == [|s|] + s && Normal(s) == s && Readable(s)
  {
    RdbBytes.WordsAreRaw(s);
  }

  lemma {:induction false} SampleIsKept(i: nat)
    requires i < 256
    ensures Storable(Sample(i)) && Kept(Sample(i)) && PlainRecord(Sample(i))
  {
    LettersAreRaw(Sample(i).0);
    LettersAreRaw([65]);
    assert Record(Sample(i)) == [0x00, 3, 65, 65 + i / 16, 65 + i % 16, 1, 65];
  }

  /** 256 entries that a snapshot keeps one by one: saved together, none of them comes back. */
  lemma {:induction false} SamplesLost()
    ensures |SAMPLES| == 256 && DistinctKeys(SAMPLES) && All(Storable, SAMPLES) && All(Kept, SAMPLES)
    ensures LoadBytes(SaveBytes(SAMPLES, 256, 0), map[]) == Loaded(0, map[])
  {
    forall p | p in SAMPLES
      ensures Storable(p) && Kept(p) && PlainRecord(p)
    {
      var i: nat :| i < 256 && p == Sample(i);
      SampleIsKept(i);
    }
    forall i, j | 0 <= i < j < 256
      ensures SAMPLES[i].0 != SAMPLES[j].0
    {
      assert SAMPLES[i].0[1] == 65 + i / 16 && SAMPLES[i].0[2] == 65 + i % 16;
      assert SAMPLES[j].0[1] == 65 + j / 16 && SAMPLES[j].0[2] == 65 + j % 16;
    }
    AllLost(SAMPLES, 0);
  }
}

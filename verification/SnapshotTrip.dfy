/** Loading what was saved: which entries come back, and as what. */
module SnapshotTrip {
  import opened Decimal
  import opened Framing
  import opened RdbStrings
  import opened Store
  import opened Snapshot
  import opened Wrappers

  /**
   An entry as the store can hold it: C strings, times in 63 bits. Nothing ever gives a list an expiration.
   */
  predicate Storable(p: Pair) {
    && 0 !in p.0 && |p.0| <= INT_MAX && p.1.expiration < 0x8000_0000_0000_0000
    && match p.1.value { case Str(s) => 0 !in s && |s| <= INT_MAX case ListOf(_) => p.1.expiration <= 0 }
  }

  predicate IsString(p: Pair) { p.1.value.Str? }

  predicate ReadablePair(p: Pair) { IsString(p) && Readable(p.0) && Readable(p.1.value.s) }

  function Strings(es: seq<Pair>): (r: seq<Pair>)
    ensures |r| <= |es|
  {
    if es == [] then [] else if IsString(es[0]) then [es[0]] + Strings(es[1..]) else Strings(es[1..])
  }

  /** The entry a string record is loaded as. */
  function NormalPair(p: Pair): Pair {
    match p.1.value
    case Str(s) => (Normal(p.0), Entry(Str(Normal(s)), if p.1.expiration > 0 then p.1.expiration else 0))
    case ListOf(_) => p
  }

  function PutNormal(db: Db, p: Pair): Db { PutPair(db, NormalPair(p)) }

  /** The records before the first that cannot be read back are set in order, in normal form. */
  function Restored(strs: seq<Pair>): Db { Fold(PutNormal, GoodPrefix(ReadablePair, strs), map[]) }

  // ------------------------------------------------------------------- one record

  lemma {:induction false} HeadLoaded(expiration: int, t: Bytes)
    requires expiration < 0x8000_0000_0000_0000
    ensures ReadHead(ExpiryBytes(expiration) + ([0x00] + t)) == Head(0, if expiration > 0 then expiration else 0, t)
  {
    var s := ExpiryBytes(expiration) + ([0x00] + t);
    if expiration > 0 {
      assert Pow256(4) == 0x1_0000_0000 && Pow256(8) == 0x1_0000_0000_0000_0000;
      FromLeOfLe(expiration, 8);
      assert s[1..9] == Le(expiration, 8) && s[9..] == [0x00] + t;
    }
    assert ([0x00] + t)[1..] == t;
  }

  /** A string is read back in normal form, or not at all. */
  lemma {:induction false} StringLoaded(str: Bytes, t: Bytes)
    requires 0 !in str && |str| <= INT_MAX
    ensures Readable(str) ==> DecodeString(EncodeString(str) + t) == Read(Some(Normal(str)), t)
    ensures !Readable(str) ==> DecodeString(EncodeString(str) + t).value == None
  {
    StringRoundTrip(str, t);
    if !Readable(str) { RawRoundTrip(str, t); }
  }

  lemma {:induction false} RecordSplits(p: Pair, t: Bytes)
    requires IsString(p)
    ensures Record(p) + t
      == ExpiryBytes(p.1.expiration) + ([0x00] + (EncodeString(p.0) + (EncodeString(p.1.value.s) + t)))
  {
    Regroup(ExpiryBytes(p.1.expiration), [0x00], EncodeString(p.0), EncodeString(p.1.value.s), t);
  }

  lemma {:induction false} Regroup(a: Bytes, b: Bytes, c: Bytes, d: Bytes, t: Bytes)
    ensures a + (b + c + d) + t == a + (b + (c + (d + t)))
  {
  }

  lemma {:induction false} PairLoaded(p: Pair, t: Bytes, db: Db)
    requires Storable(p) && IsString(p)
    ensures LoadPair(Record(p) + t, db)
      == if ReadablePair(p) then Taken(true, t, PutNormal(db, p)) else Taken(false, [], db)
  {
    var u := EncodeString(p.1.value.s) + t;
    RecordSplits(p, t);
    HeadLoaded(p.1.expiration, EncodeString(p.0) + u);
    StringLoaded(p.0, u);
    StringLoaded(p.1.value.s, t);
  }

  predicate StorableString(p: Pair) { Storable(p) && IsString(p) }

  lemma {:induction false} LoadPairReads()
    ensures Reads(LoadPair, Record, StorableString, ReadablePair, PutNormal)
  {
    forall p, t, db | StorableString(p)
      ensures ReadsOne(LoadPair, Record, ReadablePair, PutNormal, p, t, db)
    {
      PairLoaded(p, t, db);
    }
  }

  // ------------------------------------------------------------------ all records

  lemma {:induction false} RecordsOfStrings(es: seq<Pair>)
    requires All(Storable, es)
    ensures Flat(Record, es) == Flat(Record, Strings(es))
    decreases |es|
  {
    if es != [] {
      RecordsOfStrings(es[1..]);
      FlatCons(Record, es);
      assert Storable(es[0]);
      if IsString(es[0]) {
        FlatCons(Record, Strings(es));
        assert Strings(es)[1..] == Strings(es[1..]);
      }
    }
  }

  lemma {:induction false} StringsStorable(es: seq<Pair>)
    requires All(Storable, es)
    ensures All(StorableString, Strings(es))
    decreases |es|
  {
    if es != [] {
      StringsStorable(es[1..]);
      assert Storable(es[0]);
    }
  }

  /** Lists are counted and not written: the loop then reads on into the end opcode. */
  lemma {:induction false} PastTheEnd(n: nat, db: Db)
    ensures Repeat(LoadPair, n, [0xFF], db) == Taken(n <= 1, if n == 0 then [0xFF] else [], db)
  {
    if n > 0 {
      assert LoadPair([0xFF], db) == Taken(true, [], db);
      if n > 1 { assert LoadPair([], db) == Taken(false, [], db); }
    }
  }

  /** The outcome of the pair loop with `n` counted over `strs` and the end opcode. */
  ghost predicate LoopOutcome(p: Taken<Db>, strs: seq<Pair>, n: nat)
    requires |strs| <= n
  {
    && p.state == Restored(strs)
    && (p.ok <==> All(ReadablePair, strs) && n - |strs| <= 1)
    && (p.ok ==> p.rest == if n == |strs| then [0xFF] else [])
  }

  lemma {:induction false} ReadablePairsLoaded(strs: seq<Pair>, n: nat)
    requires All(StorableString, strs) && |strs| <= n && All(ReadablePair, strs)
    ensures LoopOutcome(Repeat(LoadPair, n, Flat(Record, strs) + [0xFF], map[]), strs, n)
  {
    LoadPairReads();
    RepeatPast(LoadPair, Record, StorableString, ReadablePair, PutNormal, strs, n, [0xFF], map[]);
    GoodPrefixIsAll(ReadablePair, strs);
    PastTheEnd(n - |strs|, Restored(strs));
  }

  lemma {:induction false} UnreadablePairsLoaded(strs: seq<Pair>, n: nat)
    requires All(StorableString, strs) && |strs| <= n && !All(ReadablePair, strs)
    ensures LoopOutcome(Repeat(LoadPair, n, Flat(Record, strs) + [0xFF], map[]), strs, n)
  {
    LoadPairReads();
    RepeatFails(LoadPair, Record, StorableString, ReadablePair, PutNormal, strs, n, [0xFF], map[]);
  }

  /** The pair loop on what was saved for at most `n` string entries. */
  lemma {:induction false} PairsLoaded(strs: seq<Pair>, n: nat)
    requires All(StorableString, strs) && |strs| <= n
    ensures LoopOutcome(Repeat(LoadPair, n, Flat(Record, strs) + [0xFF], map[]), strs, n)
  {
    if All(ReadablePair, strs) {
      ReadablePairsLoaded(strs, n);
    } else {
      UnreadablePairsLoaded(strs, n);
    }
  }

  // ---------------------------------------------------------------- the whole file

  /** The table section: counts, then pairs, then whatever follows. */
  function AfterTable(p: Taken<Db>): Loaded {
    if p.ok then LoadSections(p.rest, p.state) else Loaded(1, p.state)
  }

  lemma {:induction false} TableLoaded(n: byte, e: byte, t: Bytes, db: Db)
    ensures LoadSections([0xFB, n, e] + t, db) == AfterTable(Repeat(LoadPair, n, t, db))
  {
    assert ([0xFB, n, e] + t)[3..] == t;
  }

  lemma {:induction false} PreambleLoaded(n: byte, expiryCount: int, t: Bytes)
    ensures LoadBytes(Preamble(n, expiryCount) + t, map[]) == AfterTable(Repeat(LoadPair, n, t, map[]))
  {
    var e: byte := expiryCount % 256;
    var s, u := Preamble(n, expiryCount) + t, [0xFB, n, e] + t;
    assert s[..9] == MAGIC && s[9..] == [0xFA] + ([0xFE] + u);
    assert ([0xFA] + ([0xFE] + u))[1..] == [0xFE] + u && ([0xFE] + u)[1..] == u;
    assert SkipMeta([0xFE] + u) == Some(u);
    TableLoaded(n, e, t, map[]);
  }

  /** The outcome of a load that reads all the records counted, or all there are: `n` counted, `strs` met. */
  ghost function Outcome(strs: seq<Pair>, n: nat): Loaded
    requires |strs| <= n
  {
    Loaded(if All(ReadablePair, strs) && n - |strs| <= 1 then 0 else 1, Restored(strs))
  }

  lemma {:induction false} EndLoaded(db: Db)
    ensures LoadSections([0xFF], db) == Loaded(0, db) && LoadSections([], db) == Loaded(0, db)
  {
  }

  lemma {:induction false} TailLoaded(strs: seq<Pair>, n: nat)
    requires All(StorableString, strs) && |strs| <= n
    ensures AfterTable(Repeat(LoadPair, n, Flat(Record, strs) + [0xFF], map[])) == Outcome(strs, n)
  {
    PairsLoaded(strs, n);
    EndLoaded(Restored(strs));
  }

  /** More records than counted: the loop ends among them, and what is left is read as sections. */
  lemma {:induction false} PairsCut(strs: seq<Pair>, n: nat, t: Bytes)
    requires All(StorableString, strs) && |strs| == n
    ensures AfterTable(Repeat(LoadPair, n, Flat(Record, strs) + t, map[]))
      == if All(ReadablePair, strs) then LoadSections(t, Restored(strs)) else Outcome(strs, n)
  {
    LoadPairReads();
    if All(ReadablePair, strs) {
      RepeatPast(LoadPair, Record, StorableString, ReadablePair, PutNormal, strs, n, t, map[]);
      GoodPrefixIsAll(ReadablePair, strs);
    } else {
      RepeatFails(LoadPair, Record, StorableString, ReadablePair, PutNormal, strs, n, t, map[]);
    }
  }

  /** The bytes behind the records that are counted. */
  ghost function Leftover(strs: seq<Pair>, n: nat): Bytes
    requires n <= |strs|
  {
    Flat(Record, strs[n..]) + [0xFF]
  }

  lemma {:induction false} LeftoverSplits(strs: seq<Pair>, n: nat)
    requires n <= |strs|
    ensures Flat(Record, strs) + [0xFF] == Flat(Record, strs[..n]) + Leftover(strs, n)
  {
    FlatSplit(Record, strs, n);
  }

  /** What becomes of the string entries `strs` when `n` records are counted. */
  ghost function LoadedAs(strs: seq<Pair>, n: nat): Loaded {
    if n >= |strs| then Outcome(strs, n)
    else if All(ReadablePair, strs[..n]) then LoadSections(Leftover(strs, n), Restored(strs[..n]))
    else Outcome(strs[..n], n)
  }

  lemma {:induction false} CountedLoaded(strs: seq<Pair>, n: nat)
    requires All(StorableString, strs)
    ensures AfterTable(Repeat(LoadPair, n, Flat(Record, strs) + [0xFF], map[])) == LoadedAs(strs, n)
  {
    if n >= |strs| {
      TailLoaded(strs, n);
    } else {
      LeftoverSplits(strs, n);
      PairsCut(strs[..n], n, Leftover(strs, n));
    }
  }

  lemma {:induction false} SavedAs(es: seq<Pair>, n: byte, expiryCount: int)
    requires All(Storable, es) && n == |es| % 256
    ensures SaveBytes(es, |es|, expiryCount) == Preamble(n, expiryCount) + (Flat(Record, Strings(es)) + [0xFF])
  {
    RecordsOfStrings(es);
    SaveSplits(es, |es|, expiryCount);
    CountedByte(|es|, n, expiryCount);
  }

  lemma {:induction false} CountedByte(count: nat, n: byte, expiryCount: int)
    requires n == count % 256
    ensures Preamble(count, expiryCount) == Preamble(n, expiryCount)
  {
    assert n % 256 == n;
  }

  /**
   Every saved store, of any size. Only the number of entries modulo 256 is counted in the file. If more string
   entries than that were saved, the first of them come back and what is left behind them is read on as
   sections; otherwise all string entries come back, and success is reported exactly if at most one list was
   counted. Strings come back in normal form, up to the first that cannot be read, which is reported.
   */
  lemma {:induction false} SnapshotLoads(es: seq<Pair>, n: byte, expiryCount: int)
    requires All(Storable, es) && n == |es| % 256
    ensures LoadBytes(SaveBytes(es, |es|, expiryCount), map[]) == LoadedAs(Strings(es), n)
  {
    var t := Flat(Record, Strings(es)) + [0xFF];
    StringsStorable(es);
    SavedAs(es, n, expiryCount);
    PreambleLoaded(n, expiryCount, t);
    CountedLoaded(Strings(es), n);
  }

  /** With at most 255 entries the count is exact. */
  lemma {:induction false} SmallSnapshotLoads(es: seq<Pair>, expiryCount: int)
    requires |es| <= 255 && All(Storable, es)
    ensures LoadBytes(SaveBytes(es, |es|, expiryCount), map[])
      == Loaded(if All(ReadablePair, Strings(es)) && |es| - |Strings(es)| <= 1 then 0 else 1, Restored(Strings(es)))
  {
    SnapshotLoads(es, |es|, expiryCount);
  }

  // ------------------------------------------------------- records read as sections

  /** Bytes that are no opcode of a section. */
  predicate Plain(s: Bytes) { forall i :: 0 <= i < |s| ==> s[i] !in {0xFA, 0xFB, 0xFE, 0xFF} }

  /** The section loop passes over bytes that are no opcode. */
  lemma {:induction false} PlainSkipped(s: Bytes, t: Bytes, db: Db)
    requires Plain(s)
    ensures LoadSections(s + t, db) == LoadSections(t, db)
    decreases |s|
  {
    if s == [] {
      assert s + t == t;
    } else {
      assert (s + t)[1..] == s[1..] + t;
      PlainSkipped(s[1..], t, db);
    }
  }

  /** With records left over that contain no opcode, the keys in them are lost and success is reported. */
  lemma {:induction false} KeysLost(es: seq<Pair>, n: byte, expiryCount: int)
    requires All(Storable, es) && n == |es| % 256 && n < |Strings(es)|
    requires All(ReadablePair, Strings(es)[..n]) && Plain(Flat(Record, Strings(es)[n..]))
    ensures LoadBytes(SaveBytes(es, |es|, expiryCount), map[]) == Loaded(0, Restored(Strings(es)[..n]))
  {
    var db := Restored(Strings(es)[..n]);
    SnapshotLoads(es, n, expiryCount);
    PlainSkipped(Flat(Record, Strings(es)[n..]), [0xFF], db);
    EndLoaded(db);
  }

  /** A table opcode among the bytes left over is read as a table: what follows it is loaded as further entries. */
  lemma {:induction false} LeftoverTable(s: Bytes, n: byte, e: byte, t: Bytes, db: Db)
    requires Plain(s)
    ensures LoadSections(s + ([0xFB, n, e] + t), db) == AfterTable(Repeat(LoadPair, n, t, db))
  {
    PlainSkipped(s, [0xFB, n, e] + t, db);
    TableLoaded(n, e, t, db);
  }

  lemma {:induction false} SaveSplits(es: seq<Pair>, keyCount: nat, expiryCount: int)
    ensures SaveBytes(es, keyCount, expiryCount) == Preamble(keyCount, expiryCount) + (Flat(Record, es) + [0xFF])
  {
  }

  /** An entry that a snapshot keeps as it is. */
  predicate Kept(p: Pair) {
    ReadablePair(p) && Normal(p.0) == p.0 && Normal(p.1.value.s) == p.1.value.s && p.1.expiration >= 0
  }

  lemma {:induction false} AllKept(es: seq<Pair>)
    requires All(Kept, es)
    ensures Strings(es) == es && All(ReadablePair, es)
    decreases |es|
  {
    if es != [] {
      var tail := es[1..];
      assert Kept(es[0]) && ReadablePair(es[0]);
      AllKept(tail);
      assert es == [es[0]] + tail;
    }
  }

  function Normals(xs: seq<Pair>): (r: seq<Pair>)
    ensures |r| == |xs| && forall i :: 0 <= i < |xs| ==> r[i] == NormalPair(xs[i])
  {
    if xs == [] then [] else [NormalPair(xs[0])] + Normals(xs[1..])
  }

  lemma {:induction false} FoldNormals(xs: seq<Pair>, db: Db)
    ensures Fold(PutNormal, xs, db) == PutAll(Normals(xs), db)
    decreases |xs|
  {
    if xs != [] {
      FoldNormals(xs[1..], PutNormal(db, xs[0]));
      assert Normals(xs)[1..] == Normals(xs[1..]);
    }
  }

  lemma {:induction false} KeptNormals(es: seq<Pair>)
    requires All(Kept, es)
    ensures Normals(es) == es
  {
    forall i | 0 <= i < |es|
      ensures Normals(es)[i] == es[i]
    {
      assert Kept(es[i]);
    }
  }

  /** An entry found again under its key after loading is in normal form. */
  lemma {:induction false} FoundMeansNormal(p: Pair, strs: seq<Pair>)
    requires p.0 in Restored(strs) && Restored(strs)[p.0] == p.1
    ensures IsString(p) && Normal(p.0) == p.0 && Normal(p.1.value.s) == p.1.value.s && p.1.expiration >= 0
  {
    var xs := GoodPrefix(ReadablePair, strs);
    FoldNormals(xs, map[]);
    var j := PutAllOrigin(Normals(xs), map[], p.0);
    GoodPrefixFrom(ReadablePair, strs);
    NormalOfNormal(xs[j], p);
  }

  lemma {:induction false} NormalOfNormal(q: Pair, p: Pair)
    requires ReadablePair(q) && NormalPair(q) == p
    ensures IsString(p) && Normal(p.0) == p.0 && Normal(p.1.value.s) == p.1.value.s && p.1.expiration >= 0
  {
    NormalIdempotent(q.0);
    NormalIdempotent(q.1.value.s);
  }

  lemma {:induction false} StringsKeeps(es: seq<Pair>, p: Pair)
    requires p in es && IsString(p)
    ensures p in Strings(es)
    decreases |es|
  {
    if p != es[0] { StringsKeeps(es[1..], p); }
  }

  lemma {:induction false} KeptIsRestored(es: seq<Pair>)
    requires All(Kept, es)
    ensures Restored(Strings(es)) == PutAll(es, map[]) && All(ReadablePair, Strings(es)) && |Strings(es)| == |es|
  {
    AllKept(es);
    GoodPrefixIsAll(ReadablePair, es);
    FoldNormals(es, map[]);
    KeptNormals(es);
  }

  lemma {:induction false} RestoredIsKept(es: seq<Pair>, p: Pair)
    requires DistinctKeys(es) && p in es && Restored(Strings(es)) == PutAll(es, map[]) && All(ReadablePair, Strings(es))
    ensures Kept(p)
  {
    var i: nat :| i < |es| && es[i] == p;
    PutAllHolds(es, map[], i);
    FoundMeansNormal(p, Strings(es));
    StringsKeeps(es, p);
    assert ReadablePair(p);
  }

  /** A small store that was saved is loaded as the same store, with success, exactly if every entry is kept. */
  lemma {:induction false} SmallRoundTripIff(es: seq<Pair>, expiryCount: int)
    requires |es| <= 255 && DistinctKeys(es) && All(Storable, es)
    ensures LoadBytes(SaveBytes(es, |es|, expiryCount), map[]) == Loaded(0, PutAll(es, map[])) <==> All(Kept, es)
  {
    SmallSnapshotLoads(es, expiryCount);
    if All(Kept, es) { KeptIsRestored(es); }
    if Restored(Strings(es)) == PutAll(es, map[]) && All(ReadablePair, Strings(es)) {
      forall p | p in es
        ensures Kept(p)
      {
        RestoredIsKept(es, p);
      }
    }
  }
}

/** Saving a database to a snapshot file and loading one, proved against the byte-level description. */
module Rdb {
  import opened Cells
  import opened Database
  import opened Decimal
  import opened Flags
  import opened Framing
  import opened LargeSnapshots
  import opened RdbFiles
  import opened RdbStrings
  import opened Scan
  import opened Seals
  import opened Snapshot
  import opened SnapshotTrip
  import opened Store
  import opened Wrappers

  // ------------------------------------------------------------------------ saving

  lemma {:induction false} Appended(d: Bytes, a: Bytes, b: Bytes, c: Bytes, e: Bytes)
    ensures d + a + b + c + e == d + (a + (b + c + e))
  {
  }

  method WriteExpiry(file: RdbFile, expiration: int)
    modifies file`data
    ensures file.data == old(file.data) + ExpiryBytes(expiration)
  {
    if expiration > 0 {
      Joined(file.data, [0xFC], Le(expiration, 8));
      file.PutC(0xFC);
      file.PutLe(expiration, 8);
    }
  }

  /** What the loop body of the save writes for one entry. */
  method WriteEntry(file: RdbFile, key: Bytes, c: Cell, ghost lists: Lists)
    modifies file`data
    ensures file.data == old(file.data) + Record((key, Shown(c, lists)))
  {
    WriteExpiry(file, c.expiration);
    match c.value
    case StrCell(s) =>
      Appended(old(file.data), ExpiryBytes(c.expiration), [0x00], EncodeString(key), EncodeString(s));
      file.PutC(0x00);
      var _ := file.WriteString(key);
      var _ := file.WriteString(s);
    case ListCell(_) =>
      assert ExpiryBytes(c.expiration) + [] == ExpiryBytes(c.expiration);
  }

  method WritePreamble(file: RdbFile, keyCount: nat, expiryCount: int)
    modifies file`data
    ensures file.data == old(file.data) + Preamble(keyCount, expiryCount)
  {
    file.Put(MAGIC);
    file.PutC(0xFA);
    file.PutC(0xFE);
    file.PutC(0xFB);
    file.PutC(keyCount % 256);
    file.PutC(expiryCount % 256);
  }

  datatype ScanKey = ScanKey

  /** Whether the file holds `p` and the records of the first `k` buckets, sealed. */
  ghost function ProgressOf(file: RdbFile, db: RedisDb, p: Bytes, k: nat): Verdict
    requires db.h.Shape() && k <= db.h.nBuckets
    reads file, db, db.h, db.h.flags, db.h.keys, db.h.vals
  {
    if forall b: ScanKey {:trigger Opened(b)} :: Opened(b) ==>
         file.data == p + Flat(Record, EntriesOf(Listed(db.h.Fl(), db.h.keys[..], db.h.vals[..], k), db.lists))
    then Met else Unmet
  }

  method WriteBucket(db: RedisDb, file: RdbFile, k: nat, ghost p: Bytes)
    requires db.Valid() && db.h.Shape() && k < db.h.nBuckets && ProgressOf(file, db, p, k) == Met
    modifies file`data
    ensures ProgressOf(file, db, p, k + 1) == Met
  {
    assert Opened(ScanKey);
    ScanStep(p, db.h.Fl(), db.h.keys[..], db.h.vals[..], k, db.lists);
    if !IsEither(db.h.flags[..], k) {
      WriteEntry(file, db.h.keys[k], db.h.vals[k], db.lists);
    }
  }

  /** The scan over the buckets. */
  method ScanBuckets(db: RedisDb, file: RdbFile, ghost p: Bytes)
    requires db.Valid() && db.h.Shape() && ProgressOf(file, db, p, 0) == Met
    modifies file`data
    ensures ProgressOf(file, db, p, db.h.nBuckets) == Met
  {
    for k := 0 to db.h.nBuckets
      invariant ProgressOf(file, db, p, k) == Met
    {
      WriteBucket(db, file, k, p);
    }
  }

  method WriteEntries(db: RedisDb, file: RdbFile)
    requires db.Valid()
    modifies file`data
    ensures file.data == old(file.data) + Flat(Record, db.Entries())
  {
    ghost var p := file.data;
    assert Opened(ScanKey);
    ScanBuckets(db, file, p);
  }

  /** What one more bucket adds to the file. */
  lemma {:induction false} ScanStep(p: Bytes, fl: seq<Flag>, keys: seq<Bytes>, vals: seq<Cell>, k: nat, lists: Lists)
    requires k < |fl| == |keys| == |vals|
    ensures p + Flat(Record, EntriesOf(Listed(fl, keys, vals, k + 1), lists))
      == p + Flat(Record, EntriesOf(Listed(fl, keys, vals, k), lists))
           + if fl[k].Live() then Record((keys[k], Shown(vals[k], lists))) else []
  {
    if fl[k].Live() {
      var cs, c := Listed(fl, keys, vals, k), (keys[k], vals[k]);
      var es, e := EntriesOf(cs, lists), (c.0, Shown(c.1, lists));
      EntriesSnoc(cs, c, lists);
      FlatSnoc(Record, es, e);
      Joined(p, Flat(Record, es), Record(e));
    }
  }

  /** `rdb_save_data_to_file`, on a file that was opened for writing and is empty. */
  method Save(db: RedisDb, file: RdbFile)
    requires db.Valid() && file.data == []
    modifies file`data
    ensures file.data == SaveBytes(db.Entries(), db.keyCount, db.expiryCount)
  {
    WritePreamble(file, db.keyCount, db.expiryCount);
    assert file.data == Preamble(db.keyCount, db.expiryCount);
    WriteEntries(db, file);
    file.PutC(0xFF);
  }

  lemma {:induction false} Joined(a: Bytes, b: Bytes, c: Bytes)
    ensures a + b + c == a + (b + c)
  {
  }

  /** What is saved loads as the same store, with success, exactly if it is small and a snapshot keeps every entry. */
  lemma {:induction false} SavedLoadsIff(db: RedisDb)
    requires db.Valid() && All(Storable, db.Entries()) && (db.keyCount > 255 ==> All(Dear, db.Entries()))
    ensures LoadBytes(SaveBytes(db.Entries(), db.keyCount, db.expiryCount), map[]) == Loaded(0, db.view)
       <==> db.keyCount <= 255 && All(Kept, db.Entries())
  {
    db.KeyAccounting();
    SnapshotRoundTripIff(db.Entries(), db.expiryCount);
  }

  // ----------------------------------------------------------------------- loading

  lemma {:induction false} SliceTail(s: Bytes, n: nat)
    requires n < |s|
    ensures s[1..][..n] == s[1..n + 1] && s[1..][n..] == s[n + 1..]
  {
  }

  /** The type byte of a record and the expiration before it. */
  method ReadRecordHead(file: RdbFile) returns (head: Head)
    requires file.Valid()
    modifies file`pos
    ensures file.Valid() && |file.Rest()| <= |old(file.Rest())| && head == ReadHead(old(file.Rest()))
    ensures head != NoHead ==> head.rest == file.Rest() && |file.Rest()| < |old(file.Rest())|
  {
    HeadShrinks(file.Rest());
    if |file.Rest()| >= 5 { SliceTail(file.Rest(), 4); }
    if |file.Rest()| >= 9 { SliceTail(file.Rest(), 8); }
    var typ := file.GetC();
    var expiration := 0;
    if typ == EOF { return NoHead; }
    if typ == 0xFD {
      var ok, s := file.Take(4);
      if !ok { return NoHead; }
      expiration := FromLe(s) * 1000 % 0x1_0000_0000;
      typ := file.GetC();
    } else if typ == 0xFC {
      var ok, s := file.Take(8);
      if !ok { return NoHead; }
      expiration := Signed(FromLe(s), Pow256(8));
      typ := file.GetC();
    }
    head := Head(typ, expiration, file.Rest());
  }

  lemma {:induction false} DecodeKeeps(s: Bytes)
    ensures |DecodeString(s).rest| <= |s|
  {
    if s != [] { DecodeShrinks(s); }
  }

  method ReadStrings(file: RdbFile) returns (kv: Option<(Bytes, Bytes)>)
    requires file.Valid()
    modifies file`pos
    ensures file.Valid() && |file.Rest()| <= |old(file.Rest())|
    ensures ReadKeyValue(old(file.Rest()))
      == if kv == None then NoPair else KeyValue(kv.value.0, kv.value.1, file.Rest())
  {
    DecodeKeeps(file.Rest());
    var key := file.ReadString();
    if key == None { return None; }
    DecodeKeeps(file.Rest());
    var value := file.ReadString();
    if value == None { return None; }
    kv := Some((key.value, value.value));
  }

  /**
   Loading can go on: the cursor is in the file, and there is room for what the file may still hold and for
   `spare` more keys.
   */
  ghost function LoadState(file: RdbFile, db: RedisDb, spare: nat): Verdict
    reads file, db, db.h, db.h.flags, db.h.keys, db.h.vals
  {
    if file.Valid() && db.Valid() && Room(db.h.nBuckets, db.h.size, |file.Rest()| + spare) then Met else Unmet
  }

  method ReadRecord(file: RdbFile, db: RedisDb, ghost step: (Bytes, Db) -> Taken<Db>, ghost spare: nat)
    returns (ok: bool)
    requires LoadState(file, db, spare) == Met && ReaderOf(step) == Met
    modifies file`pos, db`keyCount, db`expiryCount, db`view, db.h, db.h.flags, db.h.keys, db.h.vals
    ensures LoadState(file, db, spare) == Met && db.h.Moved()
    ensures var p := step(old(file.Rest()), old(db.view));
      ok == p.ok && db.view == p.state && (ok ==> file.Rest() == p.rest)
  {
    assert Opened(ReaderKey);
    var head := ReadRecordHead(file);
    if head == NoHead { return false; }
    if head.typ != 0 { return true; }
    var kv := ReadStrings(file);
    if kv == None { return false; }
    db.Put(kv.value.0, kv.value.1, head.expiration);
    ok := true;
  }

  /** One of `todo` records; `all` is what reading them all comes to. */
  method ReadNext(file: RdbFile, db: RedisDb, ghost step: (Bytes, Db) -> Taken<Db>, ghost todo: nat,
                  ghost all: Taken<Db>, ghost spare: nat)
    returns (ok: bool)
    requires LoadState(file, db, spare) == Met && ReaderOf(step) == Met
    requires todo > 0 && all == Repeat(step, todo, file.Rest(), db.view)
    modifies file`pos, db`keyCount, db`expiryCount, db`view, db.h, db.h.flags, db.h.keys, db.h.vals
    ensures LoadState(file, db, spare) == Met && db.h.Moved()
    ensures ok ==> all == Repeat(step, todo - 1, file.Rest(), db.view)
    ensures !ok ==> !all.ok && all.state == db.view
  {
    RepeatOnce(step, todo, file.Rest(), db.view);
    ok := ReadRecord(file, db, step, spare);
  }

  /** The loop over the records of a table. */
  method ReadRecords(file: RdbFile, db: RedisDb, n: nat, ghost step: (Bytes, Db) -> Taken<Db>,
                     ghost all: Taken<Db>, ghost spare: nat)
    returns (ok: bool)
    requires LoadState(file, db, spare) == Met && ReaderOf(step) == Met
    requires all == Repeat(step, n, file.Rest(), db.view)
    modifies file`pos, db`keyCount, db`expiryCount, db`view, db.h, db.h.flags, db.h.keys, db.h.vals
    ensures LoadState(file, db, spare) == Met && db.h.Moved()
    ensures ok == all.ok && db.view == all.state && (ok ==> file.Rest() == all.rest)
  {
    ghost var todo := n;
    for i := 0 to n
      invariant db.h.Moved() && LoadState(file, db, spare) == Met
      invariant todo == n - i && all == Repeat(step, todo, file.Rest(), db.view)
    {
      ok := ReadNext(file, db, step, todo, all, spare);
      if !ok { return; }
      todo := todo - 1;
    }
    ok := true;
  }

  /** The loop over the metadata section; false at the end of the file. */
  method ReadMetadata(file: RdbFile) returns (ok: bool)
    requires file.Valid()
    modifies file`pos
    ensures file.Valid() && SkipMeta(old(file.Rest())) == if ok then Some(file.Rest()) else None
    ensures !ok ==> file.Rest() == []
  {
    ghost var all := SkipMeta(file.Rest());
    while true
      invariant file.Valid() && all == SkipMeta(file.Rest())
      decreases |file.Rest()|
    {
      if file.Rest() != [] { DecodeShrinks(file.Rest()); }
      var next := file.GetC();
      if next == 0xFE { return true; }
      if next == EOF { return false; }
      file.UngetC();
      var key := file.ReadString();
      if key == None { return true; }
      if file.Rest() != [] { DecodeShrinks(file.Rest()); }
      var value := file.ReadString();
      if value == None { return true; }
    }
  }

  /** A table section behind its opcode: two counts, then the records. */
  method ReadTable(file: RdbFile, db: RedisDb, ghost step: (Bytes, Db) -> Taken<Db>, ghost spare: nat)
    returns (ok: bool)
    requires LoadState(file, db, spare) == Met && ReaderOf(step) == Met
    modifies file`pos, db`keyCount, db`expiryCount, db`view, db.h, db.h.flags, db.h.keys, db.h.vals
    ensures LoadState(file, db, spare) == Met && db.h.Moved()
    ensures var s := old(file.Rest());
      if |s| < 2 then !ok && db.view == old(db.view)
      else
        var p := Repeat(step, s[0], s[2..], old(db.view));
        ok == p.ok && db.view == p.state && (ok ==> file.Rest() == p.rest)
  {
    var n := file.GetC();
    var e := file.GetC();
    if n == EOF || e == EOF { return false; }
    ok := ReadRecords(file, db, n, step, Repeat(step, n, file.Rest(), db.view), spare);
  }

  /** One turn of the section loop; `more` says whether there is another. */
  method ReadSection(file: RdbFile, db: RedisDb, ghost spare: nat) returns (more: bool, code: int)
    requires LoadState(file, db, spare) == Met
    modifies file`pos, db`keyCount, db`expiryCount, db`view, db.h, db.h.flags, db.h.keys, db.h.vals
    ensures LoadState(file, db, spare) == Met && db.h.Moved()
    ensures LoadSections(old(file.Rest()), old(db.view))
      == if more then LoadSections(file.Rest(), db.view) else Loaded(code, db.view)
    ensures more ==> |file.Rest()| < |old(file.Rest())|
  {
    ghost var s := file.Rest();
    var opcode := file.GetC();
    if opcode == EOF { return false, 0; }
    if opcode == 0xFA {
      more := ReadMetadata(file);
      code := 1;
    } else if opcode == 0xFB {
      if |s| >= 3 { PairsShrink(s[1], s[3..], db.view); }
      more := ReadTable(file, db, LoadPair, spare);
      code := 1;
    } else if opcode == 0xFE {
      var index := file.GetC();
      return false, if index == EOF then 1 else 0;
    } else {
      return opcode != 0xFF, 0;
    }
  }

  /** The section loop. */
  method ReadSections(file: RdbFile, db: RedisDb, ghost spare: nat) returns (code: int)
    requires LoadState(file, db, spare) == Met
    modifies file`pos, db`keyCount, db`expiryCount, db`view, db.h, db.h.flags, db.h.keys, db.h.vals
    ensures LoadState(file, db, spare) == Met && db.h.Moved()
    ensures LoadSections(old(file.Rest()), old(db.view)) == Loaded(code, db.view)
  {
    ghost var all := LoadSections(file.Rest(), db.view);
    var more := true;
    code := 0;
    while more
      invariant LoadState(file, db, spare) == Met && db.h.Moved()
      invariant all == if more then LoadSections(file.Rest(), db.view) else Loaded(code, db.view)
      decreases more, |file.Rest()|
    {
      more, code := ReadSection(file, db, spare);
    }
  }

  /**
   `rdb_load_data_from_file` on a file that could be opened. The table grows by no more than the bytes that are
   read, so that room for `spare` more keys is still there afterwards.
   */
  method Load(file: RdbFile, db: RedisDb, ghost spare: nat) returns (code: int)
    requires file.Valid() && db.Valid() && Room(db.h.nBuckets, db.h.size, |file.Rest()| + spare)
    modifies file`pos, db`keyCount, db`expiryCount, db`view, db.h, db.h.flags, db.h.keys, db.h.vals
    ensures db.Valid() && db.h.Moved() && Room(db.h.nBuckets, db.h.size, spare)
    ensures LoadBytes(old(file.Rest()), old(db.view)) == Loaded(code, db.view)
  {
    var ok, header := file.Take(9);
    if !ok || header != MAGIC { return 1; }
    code := ReadSections(file, db, spare);
  }
}

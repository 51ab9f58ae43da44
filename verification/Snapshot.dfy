/** The snapshot of a store as a byte string, and what loading such a byte string does to a store. */
module Snapshot {
  import opened Decimal
  import opened Framing
  import opened RdbStrings
  import opened Seals
  import opened Store
  import opened Wrappers

  const MAGIC: Bytes := [0x52, 0x45, 0x44, 0x49, 0x53, 0x30, 0x30, 0x31, 0x32]

  // ------------------------------------------------------------------------ saving

  function ExpiryBytes(expiration: int): Bytes {
    if expiration > 0 then [0xFC] + Le(expiration, 8) else []
  }

  /** What one entry adds to the file; a list adds nothing but its expiry. */
  function Record(p: Pair): Bytes {
    ExpiryBytes(p.1.expiration)
      + match p.1.value { case Str(s) => [0x00] + EncodeString(p.0) + EncodeString(s) case ListOf(_) => [] }
  }

  /** The header, an empty metadata section and the two one-byte counts. */
  function Preamble(keyCount: nat, expiryCount: int): Bytes {
    MAGIC + [0xFA, 0xFE, 0xFB, keyCount % 256, expiryCount % 256]
  }

  function SaveBytes(es: seq<Pair>, keyCount: nat, expiryCount: int): Bytes {
    Preamble(keyCount, expiryCount) + Flat(Record, es) + [0xFF]
  }

  // ----------------------------------------------------------------------- loading

  lemma {:induction false} LengthShrinks(s: Bytes, k: nat, acc: nat)
    ensures |TakeLength(s, k, acc).rest| <= |s|
    decreases k
  {
    if k > 0 && s != [] && s[0] != 255 { LengthShrinks(s[1..], k - 1, acc * 256 + s[0]); }
  }

  lemma {:induction false} DecodeShrinks(s: Bytes)
    requires s != []
    ensures |DecodeString(s).rest| < |s|
  {
    if s[0] / 64 == 2 { LengthShrinks(s[1..], 4, 0); }
  }

  /** The metadata section: string pairs up to its end marker, or up to the first string that cannot be read. */
  function SkipMeta(s: Bytes): (r: Option<Bytes>)
    ensures r.Some? ==> |r.value| < |s|
    decreases |s|
  {
    if s == [] then None
    else if s[0] == 0xFE then Some(s[1..])
    else
      DecodeShrinks(s);
      var key := DecodeString(s);
      if key.value == None then Some(key.rest)
      else if key.rest == [] then Some([])
      else
        DecodeShrinks(key.rest);
        var value := DecodeString(key.rest);
        if value.value == None then Some(value.rest) else SkipMeta(value.rest)
  }

  /** The type byte of a record with the expiration before it; the type is -1 at the end of the file. */
  datatype Head = NoHead | Head(typ: int, expiration: int, rest: Bytes)

  function TypeAfter(s: Bytes, expiration: int): Head {
    if s == [] then Head(-1, expiration, []) else Head(s[0], expiration, s[1..])
  }

  function ReadHead(s: Bytes): Head {
    if s == [] then NoHead
    else if s[0] == 0xFD then
      if |s| < 5 then NoHead else TypeAfter(s[5..], FromLe(s[1..5]) * 1000 % 0x1_0000_0000)
    else if s[0] == 0xFC then
      if |s| < 9 then NoHead else TypeAfter(s[9..], Signed(FromLe(s[1..9]), Pow256(8)))
    else Head(s[0], 0, s[1..])
  }

  datatype KeyValue = NoPair | KeyValue(key: Bytes, value: Bytes, rest: Bytes)

  function ReadKeyValue(s: Bytes): KeyValue {
    var key := DecodeString(s);
    if key.value == None then NoPair
    else
      var value := DecodeString(key.rest);
      if value.value == None then NoPair else KeyValue(key.value.value, value.value.value, value.rest)
  }

  /** One record. Types other than strings are passed over. */
  function LoadPair(s: Bytes, db: Db): Taken<Db> {
    match ReadHead(s)
    case NoHead => Taken(false, [], db)
    case Head(typ, expiration, rest) =>
      if typ != 0 then Taken(true, rest, db)
      else
        match ReadKeyValue(rest)
        case NoPair => Taken(false, [], db)
        case KeyValue(key, value, rest') => Taken(true, rest', Set(db, key, Str(value), expiration))
  }

  datatype ReaderKey = ReaderKey

  /** Whether `step` is the record reader, sealed. */
  ghost function ReaderOf(step: (Bytes, Db) -> Taken<Db>): Verdict {
    if forall k: ReaderKey {:trigger Opened(k)} :: Opened(k) ==> step == LoadPair then Met else Unmet
  }

  datatype Loaded = Loaded(code: int, db: Db)

  lemma {:induction false} KeyValueShrinks(s: Bytes)
    ensures ReadKeyValue(s) != NoPair ==> |ReadKeyValue(s).rest| <= |s|
  {
    if s != [] {
      DecodeShrinks(s);
      var key := DecodeString(s);
      if key.rest != [] { DecodeShrinks(key.rest); }
    }
  }

  lemma {:induction false} HeadShrinks(s: Bytes)
    ensures ReadHead(s) != NoHead ==> |ReadHead(s).rest| < |s|
  {
  }

  lemma {:induction false} PairShrinks(s: Bytes, db: Db)
    ensures LoadPair(s, db).ok ==> |LoadPair(s, db).rest| < |s|
  {
    HeadShrinks(s);
    if ReadHead(s) != NoHead { KeyValueShrinks(ReadHead(s).rest); }
  }

  lemma {:induction false} LoadPairShrinks()
    ensures Shrinking(LoadPair)
  {
    forall s, db
      ensures Shrinks(LoadPair, s, db)
    {
      PairShrinks(s, db);
    }
  }

  lemma {:induction false} PairsShrink(n: nat, s: Bytes, db: Db)
    ensures Repeat(LoadPair, n, s, db).ok ==> |Repeat(LoadPair, n, s, db).rest| <= |s|
  {
    LoadPairShrinks();
    RepeatShrinks(LoadPair, n, s, db);
  }

  /** The section loop. The end of the file ends it as the end opcode does; an index section ends it too. */
  function LoadSections(s: Bytes, db: Db): Loaded
    decreases |s|
  {
    if s == [] then Loaded(0, db)
    else if s[0] == 0xFA then
      var rest := SkipMeta(s[1..]);
      if rest == None then Loaded(1, db) else LoadSections(rest.value, db)
    else if s[0] == 0xFB then
      if |s| < 3 then Loaded(1, db)
      else
        PairsShrink(s[1], s[3..], db);
        var p := Repeat(LoadPair, s[1], s[3..], db);
        if p.ok then LoadSections(p.rest, p.state) else Loaded(1, p.state)
    else if s[0] == 0xFE then Loaded(if |s| < 2 then 1 else 0, db)
    else if s[0] == 0xFF then Loaded(0, db)
    else LoadSections(s[1..], db)
  }

  function LoadBytes(s: Bytes, db: Db): Loaded {
    if |s| < 9 || s[..9] != MAGIC then Loaded(1, db) else LoadSections(s[9..], db)
  }
}

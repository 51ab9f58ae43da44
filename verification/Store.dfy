/** The keyed store as a map: entries with expiration times, and what each store operation does to it. */
module Store {
  import opened Decimal
  import opened Framing
  import opened Wrappers

  datatype Value = Str(s: Bytes) | ListOf(items: seq<Bytes>)

  datatype Entry = Entry(value: Value, expiration: int)

  type Db = map<Bytes, Entry>

  /** An entry is past its time; expirations of zero or less mean never. */
  predicate Expired(e: Entry, now: int) { 0 < e.expiration < now }

  /** The store after a lookup: an expired entry that was looked up is gone. */
  function Purge(db: Db, key: Bytes, now: int): Db {
    if key in db && Expired(db[key], now) then db - {key} else db
  }

  function Lookup(db: Db, key: Bytes, now: int): Option<Entry> {
    if key in db && !Expired(db[key], now) then Some(db[key]) else None
  }

  function Set(db: Db, key: Bytes, value: Value, expiration: int): Db {
    db[key := Entry(value, expiration)]
  }

  function Delete(db: Db, key: Bytes): Db { db - {key} }

  // ------------------------------------------------------------- many keys at once

  type Pair = (Bytes, Entry)

  function PutPair(db: Db, p: Pair): Db { db[p.0 := p.1] }

  /** The store after the pairs are set in order. */
  function PutAll(es: seq<Pair>, db: Db): Db { Fold(PutPair, es, db) }

  ghost predicate DistinctKeys(es: seq<Pair>) {
    forall i, j :: 0 <= i < j < |es| ==> es[i].0 != es[j].0
  }

  /** What is in the store came from it or from the pairs. */
  lemma {:induction false} PutAllOrigin(es: seq<Pair>, db: Db, k: Bytes) returns (i: nat)
    requires k in PutAll(es, db) && k !in db
    ensures i < |es| && es[i].0 == k && es[i].1 == PutAll(es, db)[k]
    decreases |es|
  {
    var db' := db[es[0].0 := es[0].1];
    if exists j :: 0 <= j < |es[1..]| && es[1..][j].0 == k {
      var j :| 0 <= j < |es[1..]| && es[1..][j].0 == k;
      i := LastPut(es, db, k, j + 1);
    } else {
      PutAllKeeps(es[1..], db', k);
      i := 0;
    }
  }

  lemma {:induction false} PutAllKeeps(es: seq<Pair>, db: Db, k: Bytes)
    requires forall j :: 0 <= j < |es| ==> es[j].0 != k
    ensures k in PutAll(es, db) <==> k in db
    ensures k in db ==> PutAll(es, db)[k] == db[k]
    decreases |es|
  {
    if es != [] { PutAllKeeps(es[1..], db[es[0].0 := es[0].1], k); }
  }

  lemma {:induction false} LastPut(es: seq<Pair>, db: Db, k: Bytes, j: nat) returns (i: nat)
    requires j < |es| && es[j].0 == k
    ensures i < |es| && es[i].0 == k && k in PutAll(es, db) && es[i].1 == PutAll(es, db)[k]
    decreases |es|
  {
    var db', tail := db[es[0].0 := es[0].1], es[1..];
    if l: nat :| l < |tail| && tail[l].0 == k {
      var i' := LastPut(tail, db', k, l);
      i := i' + 1;
    } else {
      PutAllKeeps(tail, db', k);
      i := 0;
    }
  }

  lemma {:induction false} PutAllHolds(es: seq<Pair>, db: Db, i: nat)
    requires DistinctKeys(es) && i < |es|
    ensures es[i].0 in PutAll(es, db) && PutAll(es, db)[es[i].0] == es[i].1
  {
    var j := LastPut(es, db, es[i].0, i);
  }

  // ------------------------------------------------------------------------ lists

  function Pushed<T>(left: bool, item: T, items: seq<T>): seq<T> { if left then [item] + items else items + [item] }

  /** The entry after one push onto what was found; LPUSH makes lists with expiration -1, RPUSH with 0. */
  function PushValue(left: bool, item: Bytes, found: Option<Entry>): Option<Entry> {
    match found
    case None => Some(Entry(ListOf([item]), if left then -1 else 0))
    case Some(Entry(ListOf(items), e)) => Some(Entry(ListOf(Pushed(left, item, items)), e))
    case Some(_) => None
  }

  function Write(db: Db, key: Bytes, e: Option<Entry>): Db { if e == None then db else db[key := e.value] }

  /** The store after one push at `now`. */
  function Push(left: bool, db: Db, key: Bytes, item: Bytes, now: int): Db {
    Write(Purge(db, key, now), key, PushValue(left, item, Lookup(db, key, now)))
  }

  /** The list a push works on, made with the given expiration if there is none, and the store with it. */
  function ListFor(db: Db, key: Bytes, expiration: int, now: int): (Option<seq<Bytes>>, Db) {
    var db' := Purge(db, key, now);
    match Lookup(db, key, now)
    case Some(Entry(ListOf(items), _)) => (Some(items), db')
    case Some(_) => (None, db')
    case None => (Some([]), Set(db', key, ListOf([]), expiration))
  }

  /** A push is: find or make the list, then change it in place. */
  lemma {:induction false} PushBySteps(left: bool, db: Db, key: Bytes, item: Bytes, now: int)
    ensures var (items, db') := ListFor(db, key, if left then -1 else 0, now);
      && (items == None <==> PushValue(left, item, Lookup(db, key, now)) == None)
      && (items.Some? ==>
            var v := PushValue(left, item, Lookup(db, key, now)).value.value;
            v.ListOf? && |v.items| == |items.value| + 1)
      && Push(left, db, key, item, now)
          == if items == None then db'
             else Set(db', key, ListOf(Pushed(left, item, items.value)), db'[key].expiration)
  {
    if Lookup(db, key, now) == None {
      assert [item] + [] == [item] == [] + [item];
    }
  }
}

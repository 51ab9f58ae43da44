/** The database object over the hash table, each operation proved against its effect on the store. */
module Database {
  import opened Cells
  import opened Decimal
  import opened LinkedList
  import opened Scan
  import opened Seals
  import opened Store
  import opened Wrappers
  import KH = KHash

  /** The result of a range read. */
  datatype Ranged = Items(items: seq<Bytes>) | TypeMismatch | KeyNotFound

  /** Room for `n` more keys under the bound on the number of buckets. */
  ghost predicate Room(nBuckets: nat, size: nat, n: nat) {
    nBuckets <= 0x4000_0000 && size + n <= 0x1000_0000
  }

  function LengthOf(e: Option<Entry>): Option<int> {
    if e.Some? && e.value.value.ListOf? then Some(ToInt(|e.value.value.items|)) else None
  }

  datatype DbKey = DbKey

  class RedisDb {
    const h: KH.KHash<Bytes, Cell>
    var keyCount: nat
    var expiryCount: int
    /** The store that the table and its lists show. */
    ghost var view: Db
    ghost var lists: Lists
    ghost var nodes: set<Node>

    constructor (hash: Bytes -> nat)
      ensures Valid() && ListsValid() && lists == map[] && nodes == {} && view == map[]
      ensures fresh(h) && fresh(h.flags) && fresh(h.keys) && fresh(h.vals)
      ensures h.nBuckets == 0 && h.size == 0 && h.hash == hash
    {
      h := new KH.KHash(hash);
      keyCount, expiryCount := 0, 0;
      view, lists, nodes := map[], map[], {};
    }

    /** The key counter is the number of keys, which is the table's size; the table shows the store. */
    ghost predicate Shows()
      reads this, h, h.flags, h.keys, h.vals
    {
      h.Valid() && keyCount == h.size && view == StoreOf(h.m, lists) && Homes(h.m, lists)
    }

    /** The same, sealed. */
    ghost function Health(): Verdict
      reads this, h, h.flags, h.keys, h.vals
    {
      if forall k: DbKey {:trigger Opened(k)} :: Opened(k) ==> Shows() then Met else Unmet
    }

    ghost predicate Valid()
      reads this, h, h.flags, h.keys, h.vals
    {
      h.Shape() && Health() == Met
    }

    /** The list objects behind the table are well formed and hold what the store says. */
    ghost predicate ListsValid()
      reads this, lists.Keys, nodes
    {
      Intact(lists, nodes)
    }

    /** Table and lists are well formed, with room for `n` more keys. */
    ghost function Ready(n: nat): Verdict
      reads this, h, h.flags, h.keys, h.vals, lists.Keys, nodes
    {
      if Valid() && ListsValid() && Room(h.nBuckets, h.size, n) then Met else Unmet
    }

    /** Arrays, lists and nodes are those that were there or new ones. */
    twostate predicate Moved()
      reads this, h
    {
      && h.Moved()
      && (forall l :: l in lists ==> l in old(lists) || fresh(l))
      && (forall n :: n in nodes ==> n in old(nodes) || fresh(n))
    }

    /** `set` for a string. */
    method Put(key: Bytes, value: Bytes, expiration: int)
      requires Valid() && h.nBuckets <= 0x4000_0000
      modifies this`keyCount, this`expiryCount, this`view, h, h.flags, h.keys, h.vals
      ensures Valid() && h.Moved()
      ensures view == Set(old(view), key, Str(value), expiration)
      ensures KH.Grown(old(h.nBuckets), old(h.size), h.nBuckets) && h.size <= old(h.size) + 1
    {
      assert Opened(DbKey);
      StringPut(h.m, lists, key, value, expiration);
      PutCell(key, Cell(StrCell(value), expiration));
      view := Set(view, key, Str(value), expiration);
    }

    /** `set`: the value is put under its key and counted if it is new. */
    method PutCell(key: Bytes, c: Cell)
      requires h.Valid() && keyCount == h.size && h.nBuckets <= 0x4000_0000
      modifies this`keyCount, this`expiryCount, h, h.flags, h.keys, h.vals
      ensures h.Valid() && keyCount == h.size && h.Moved()
      ensures h.m == old(h.m)[key := c]
      ensures KH.Grown(old(h.nBuckets), old(h.size), h.nBuckets) && h.size <= old(h.size) + 1
    {
      var ret := h.Assign(key, c);
      if ret != 0 {
        keyCount := keyCount + 1;
        if c.expiration > 0 { expiryCount := expiryCount + 1; }
      }
    }

    /** Putting a cell touches no list. */
    method PutKeeping(key: Bytes, c: Cell, ghost ls: Lists, ghost ns: set<Node>)
      requires h.Valid() && keyCount == h.size && h.nBuckets <= 0x4000_0000 && Intact(ls, ns)
      modifies this`keyCount, this`expiryCount, h, h.flags, h.keys, h.vals
      ensures h.Valid() && keyCount == h.size && h.Moved() && Intact(ls, ns)
      ensures h.m == old(h.m)[key := c]
      ensures KH.Grown(old(h.nBuckets), old(h.size), h.nBuckets) && h.size <= old(h.size) + 1
    {
      PutCell(key, c);
    }

    /** `get`: an entry past its time is deleted when it is met. */
    method Find(key: Bytes, now: int) returns (r: Option<Cell>)
      requires Valid()
      modifies this`keyCount, this`expiryCount, this`view, h`size, h`m, h.flags
      ensures Valid() && h.size <= old(h.size)
      ensures view == Purge(old(view), key, now)
      ensures r == None <==> Lookup(old(view), key, now) == None
      ensures r.Some? ==> h.m == old(h.m) && key in h.m && h.m[key] == r.value
      ensures r.Some? ==> Shown(r.value, lists) == Lookup(old(view), key, now).value && AtHome(key, r.value, lists)
    {
      assert Opened(DbKey);
      var k := h.Get(key);
      if k == h.nBuckets { return None; }
      var c := h.vals[k];
      if c.expiration > 0 && c.expiration < now {
        expiryCount := expiryCount - 1;
        DropBucket(k, key);
        return None;
      }
      AtHomeUnder(h.m, lists, key);
      return Some(c);
    }

    /** The entry in bucket `k` is deleted and no longer counted. */
    method DropBucket(k: nat, key: Bytes)
      requires Valid() && k < h.nBuckets && h.Fl()[k].Live() && h.keys[k] == key
      modifies this`keyCount, this`view, h`size, h`m, h.flags
      ensures Valid() && view == Delete(old(view), key) && h.size <= old(h.size)
    {
      assert Opened(DbKey);
      CellDeleted(h.m, lists, key);
      h.Del(k);
      keyCount := keyCount - 1;
      Reshow(Delete(view, key));
    }

    /** `delete` */
    method Remove(key: Bytes)
      requires Valid()
      modifies this`keyCount, this`view, h`size, h`m, h.flags
      ensures Valid() && h.size <= old(h.size)
      ensures view == Delete(old(view), key)
    {
      assert Opened(DbKey);
      var k := h.Get(key);
      if k != h.nBuckets {
        DropBucket(k, key);
      }
    }

    /** The list `l`, which is empty and made for `key`, is put there. */
    method PutList(key: Bytes, l: List, expiration: int)
      requires Valid() && h.nBuckets <= 0x4000_0000 && l !in lists && l.home == key && Intact(lists[l := []], nodes)
      modifies this`keyCount, this`expiryCount, this`view, this`lists, this`nodes, h, h.flags, h.keys, h.vals
      ensures Valid() && ListsValid() && h.Moved() && lists == old(lists)[l := []] && nodes == old(nodes)
      ensures h.m == old(h.m)[key := Cell(ListCell(l), expiration)]
      ensures view == Set(old(view), key, ListOf([]), expiration)
      ensures KH.Grown(old(h.nBuckets), old(h.size), h.nBuckets) && h.size <= old(h.size) + 1
    {
      assert Opened(DbKey);
      ListPut(h.m, lists, key, l, expiration);
      ghost var ls := lists[l := []];
      PutKeeping(key, Cell(ListCell(l), expiration), ls, nodes);
      Retell(Set(view, key, ListOf([]), expiration), ls, nodes);
    }

    /** A new list under `key`; what its length field holds is whatever was in memory. */
    method NewList(key: Bytes, expiration: int, garbage: nat) returns (l: List)
      requires Valid() && ListsValid() && h.nBuckets <= 0x4000_0000
      modifies this`keyCount, this`expiryCount, this`view, this`lists, this`nodes, h, h.flags, h.keys, h.vals
      ensures Valid() && ListsValid() && h.Moved() && fresh(l) && lists == old(lists)[l := []] && nodes == old(nodes)
      ensures h.m == old(h.m)[key := Cell(ListCell(l), expiration)]
      ensures view == Set(old(view), key, ListOf([]), expiration)
      ensures KH.Grown(old(h.nBuckets), old(h.size), h.nBuckets) && h.size <= old(h.size) + 1
    {
      l := new List(garbage, key);
      IntactNew(lists, nodes, l);
      PutList(key, l, expiration);
    }

    /** `get` where lists matter. */
    method FindKeeping(key: Bytes, now: int) returns (r: Option<Cell>)
      requires Valid() && ListsValid()
      modifies this`keyCount, this`expiryCount, this`view, h`size, h`m, h.flags
      ensures Valid() && ListsValid() && h.size <= old(h.size)
      ensures view == Purge(old(view), key, now)
      ensures r == None <==> Lookup(old(view), key, now) == None
      ensures r.Some? ==> h.m == old(h.m) && key in h.m && h.m[key] == r.value
      ensures r.Some? ==> Shown(r.value, lists) == Lookup(old(view), key, now).value && AtHome(key, r.value, lists)
    {
      r := Find(key, now);
    }

    /** The list a push works on: the one under `key`, or a new one; none if the key holds a string. */
    method ListFor(key: Bytes, expiration: int, now: int, garbage: nat) returns (r: Option<List>)
      requires Valid() && ListsValid() && h.nBuckets <= 0x4000_0000
      modifies this, h, h.flags, h.keys, h.vals
      ensures Valid() && ListsValid() && Moved()
      ensures r.Some? ==> r.value in lists && key in h.m && h.m[key].value == ListCell(r.value)
      ensures Store.ListFor(old(view), key, expiration, now) == (if r == None then None else Some(lists[r.value]), view)
      ensures KH.Grown(old(h.nBuckets), old(h.size), h.nBuckets) && h.size <= old(h.size) + 1
    {
      var c := FindKeeping(key, now);
      if c.Some? {
        return if c.value.value.ListCell? then Some(c.value.value.list) else None;
      }
      var l := NewList(key, expiration, garbage);
      r := Some(l);
    }

    /** `redis_db_lpush` and `redis_db_rpush`, which differ in the end and in the expiration of a new list. */
    method Push(left: bool, key: Bytes, item: Bytes, now: int, garbage: nat) returns (length: Option<int>)
      requires Valid() && ListsValid() && h.nBuckets <= 0x4000_0000
      modifies this, h, h.flags, h.keys, h.vals, lists.Keys, nodes
      ensures Valid() && ListsValid() && Moved()
      ensures view == Store.Push(left, old(view), key, item, now)
      ensures length == LengthOf(PushValue(left, item, Lookup(old(view), key, now)))
      ensures KH.Grown(old(h.nBuckets), old(h.size), h.nBuckets) && h.size <= old(h.size) + 1
    {
      PushBySteps(left, view, key, item, now);
      var l := ListFor(key, if left then -1 else 0, now, garbage);
      if l == None { return None; }
      var len := PushUnder(key, l.value, left, item);
      length := Some(len);
    }

    method PushUnder(key: Bytes, l: List, left: bool, item: Bytes) returns (len: int)
      requires Valid() && ListsValid() && l in lists && key in h.m && h.m[key].value == ListCell(l)
      modifies this`view, this`lists, this`nodes, lists.Keys, nodes
      ensures Valid() && ListsValid() && lists.Keys == old(lists).Keys
      ensures forall n :: n in nodes ==> n in old(nodes) || fresh(n)
      ensures key in old(view)
      ensures view == Set(old(view), key, ListOf(Pushed(left, item, old(lists[l]))), old(view)[key].expiration)
      ensures len == ToInt(|old(lists[l])| + 1)
    {
      assert Opened(DbKey);
      ghost var items, ns := Pushed(left, item, lists[l]), nodes;
      ListChanged(h.m, lists, key, l, items);
      len, ns := PushObject(l, left, item, lists, nodes);
      Retell(Set(view, key, ListOf(items), view[key].expiration), lists[l := items], ns);
    }

    /** The push on the list object alone; the table is not touched. */
    static method PushObject(l: List, left: bool, item: Bytes, ghost ls: Lists, ghost ns: set<Node>)
      returns (len: int, ghost ns': set<Node>)
      requires l in ls && Intact(ls, ns)
      modifies ls.Keys, ns
      ensures Intact(ls[l := Pushed(left, item, ls[l])], ns') && len == ToInt(|ls[l]| + 1)
      ensures forall n :: n in ns' ==> n in ns || fresh(n)
    {
      HoldingOf(ls, ns, l);
      len, ns' := PushOn(l, left, item, ls, ns);
    }

    /** The ghost store follows what has happened to the table. */
    ghost method Reshow(v: Db)
      requires h.Valid() && keyCount == h.size && v == StoreOf(h.m, lists) && Homes(h.m, lists)
      modifies this`view
      ensures Valid() && view == v
    {
      view := v;
    }

    /** The ghost fields follow what has happened to the lists. */
    ghost method Retell(v: Db, ls: Lists, ns: set<Node>)
      requires h.Valid() && keyCount == h.size && v == StoreOf(h.m, ls) && Homes(h.m, ls) && Intact(ls, ns)
      modifies this`view, this`lists, this`nodes
      ensures Valid() && ListsValid() && view == v && lists == ls && nodes == ns
    {
      view, lists, nodes := v, ls, ns;
    }

    /** `redis_db_lrange` */
    method LRange(key: Bytes, start: int, end: int, now: int) returns (r: Ranged)
      requires Valid() && ListsValid() && INT_MIN <= start <= INT_MAX && INT_MIN <= end <= INT_MAX
      modifies this`keyCount, this`expiryCount, this`view, h`size, h`m, h.flags
      ensures Valid() && h.size <= old(h.size) && view == Purge(old(view), key, now)
      ensures r == match Lookup(old(view), key, now)
        case Some(Entry(ListOf(l), _)) => Items(RangeRead(l, start, end))
        case Some(_) => TypeMismatch
        case None => KeyNotFound
    {
      var c := Find(key, now);
      if c == None { return KeyNotFound; }
      match c.value.value
      case StrCell(_) => r := TypeMismatch;
      case ListCell(l) =>
        HoldingOf(lists, nodes, l);
        var items := l.Range(start, end);
        r := Items(items);
    }

    /** The entries in bucket order. */
    ghost function Entries(): (es: seq<Pair>)
      requires h.Shape()
      reads this, h, h.flags, h.keys, h.vals
      ensures |es| == |Listed(h.Fl(), h.keys[..], h.vals[..], h.nBuckets)|
    {
      EntriesOf(Listed(h.Fl(), h.keys[..], h.vals[..], h.nBuckets), lists)
    }

    /** The key counter, the table's size and the number of buckets the snapshot scan visits are one. */
    lemma {:induction false} KeyAccounting()
      requires Valid()
      ensures keyCount == h.size == |view| == |Entries()|
      ensures DistinctKeys(Entries()) && PutAll(Entries(), map[]) == view
    {
      assert Opened(DbKey);
      assert Opened(KH.BucketsKey);
      ScanIsExact(h.hash, h.Fl(), h.keys[..], h.vals[..], h.m, h.size, h.nOccupied);
      var cs := Listed(h.Fl(), h.keys[..], h.vals[..], h.nBuckets);
      EntriesShow(cs, h.m, lists);
      StoreSize(h.m, lists);
    }
  }
}

/** The command handlers for strings and lists, on the database object. */
module StoreCommands {
  import opened Cells
  import opened Database
  import opened Decimal
  import opened Expiry
  import opened Seals
  import opened SetOptions
  import opened Store
  import opened Wrappers

  /** The string a cell holds, as the GET option takes it. */
  function OldReply(found: Option<Cell>): Reply {
    match found
    case None => Null
    case Some(Cell(StrCell(s), _)) => Bulk(s)
    case Some(_) => Unspecified
  }

  /** The body of `handle_set` once the options are accepted. */
  method ApplySet(db: RedisDb, key: Bytes, value: Bytes, o: Options, now: int) returns (reply: Reply)
    requires db.Valid() && db.h.nBuckets <= 0x4000_0000
    modifies db`keyCount, db`expiryCount, db`view, db.h, db.h.flags, db.h.keys, db.h.vals
    ensures db.Valid() && db.h.Moved()
    ensures ApplyOptions(true, old(db.view), key, value, o, now) == Outcome(db.view, reply)
    ensures KH.Grown(old(db.h.nBuckets), old(db.h.size), db.h.nBuckets) && db.h.size <= old(db.h.size) + 1
  {
    if o.expiration < 0 { return Failed(NegativeExpiration); }
    var found := None;
    if o.nx || o.xx || o.get || o.keepttl {
      found := db.Find(key, now);
    }
    if (o.nx && found != None) || (o.xx && found == None) { return Null; }
    var expiration := o.expiration;
    if o.keepttl && found != None {
      expiration := found.value.expiration;
    }
    db.Put(key, value, expiration);
    reply := if o.get then OldReply(found) else Okay;
  }

  /** `handle_set` */
  method HandleSet(db: RedisDb, args: seq<Bytes>, now: int) returns (reply: Reply)
    requires db.Valid() && db.h.nBuckets <= 0x4000_0000
    modifies db`keyCount, db`expiryCount, db`view, db.h, db.h.flags, db.h.keys, db.h.vals
    ensures db.Valid() && db.h.Moved()
    ensures RunSet(true, old(db.view), args, now) == Outcome(db.view, reply)
    ensures KH.Grown(old(db.h.nBuckets), old(db.h.size), db.h.nBuckets)
    ensures db.h.size <= old(db.h.size) + |args|
  {
    if |args| < 3 { return Failed(WrongArity); }
    var parsed := ParseSetOptions(args[3..], now);
    match parsed
    case SyntaxError => reply := Failed(Syntax);
    case ValueError => reply := Failed(NotAnInteger);
    case Accepted(o) => reply := ApplySet(db, args[1], args[2], o, now);
  }

  /** `handle_get` */
  method HandleGet(db: RedisDb, args: seq<Bytes>, now: int) returns (reply: Reply)
    requires db.Valid()
    modifies db`keyCount, db`expiryCount, db`view, db.h`size, db.h`m, db.h.flags
    ensures db.Valid() && db.h.size <= old(db.h.size)
    ensures RunGet(true, old(db.view), args, now) == Outcome(db.view, reply)
  {
    if |args| != 2 { return Failed(WrongArity); }
    var found := db.Find(args[1], now);
    if found == None { return Null; }
    match found.value.value
    case StrCell(s) => reply := Bulk(s);
    case ListCell(_) => reply := Failed(WrongType);
  }

  /** `handle_delete` */
  method HandleDelete(db: RedisDb, args: seq<Bytes>) returns (reply: Reply)
    requires db.Valid()
    modifies db`keyCount, db`expiryCount, db`view, db.h`size, db.h`m, db.h.flags
    ensures db.Valid() && db.h.size <= old(db.h.size)
    ensures RunDel(old(db.view), args) == Outcome(db.view, reply)
  {
    if |args| < 2 { return Failed(WrongArity); }
    for i := 1 to |args|
      invariant db.Valid() && db.h.size <= old(db.h.size)
      invariant DeleteAll(old(db.view), args[1..]) == DeleteAll(db.view, args[i..])
    {
      assert args[i..][1..] == args[i + 1..];
      db.Remove(args[i]);
    }
    reply := Okay;
  }

  /** One turn of the push loop; `all` is what the pushes from `i` on come to. */
  method PushNext(db: RedisDb, left: bool, args: seq<Bytes>, i: nat, now: int, garbage: nat, reply: Reply,
                  ghost n: nat, ghost all: Expiry.Outcome)
    returns (more: bool, reply': Reply)
    requires 2 <= i < |args| && n > 0 && db.Ready(n) == Met
    requires all == PushAll(true, left, db.view, args[1], args[i..], now, reply)
    modifies db, db.h, db.h.flags, db.h.keys, db.h.vals, db.lists.Keys, db.nodes
    ensures db.Ready(n - 1) == Met && db.Moved()
    ensures all
      == if more then PushAll(true, left, db.view, args[1], args[i + 1..], now, reply') else Outcome(db.view, reply')
  {
    PushAllHead(left, db.view, args[1], args[i..], now, reply);
    assert args[i..][1..] == args[i + 1..];
    var length := db.Push(left, args[1], args[i], now, garbage);
    more := length.Some?;
    reply' := if more then Integer(length.value) else Failed(WrongType);
  }

  /** The loop of `handle_lpush` and of `handle_rpush`. */
  method HandlePush(db: RedisDb, left: bool, args: seq<Bytes>, now: int, garbage: nat, ghost n: nat)
    returns (reply: Reply)
    requires |args| <= n && db.Ready(n) == Met
    modifies db, db.h, db.h.flags, db.h.keys, db.h.vals, db.lists.Keys, db.nodes
    ensures db.Ready(n - |args|) == Met && db.Moved()
    ensures RunPush(true, left, old(db.view), args, now) == Outcome(db.view, reply)
  {
    if |args| < 3 { return Failed(WrongArity); }
    reply := PushLoop(db, left, args, now, garbage, n, RunPush(true, left, db.view, args, now));
  }

  method PushLoop(db: RedisDb, left: bool, args: seq<Bytes>, now: int, garbage: nat, ghost n: nat,
      ghost all: Expiry.Outcome)
    returns (reply: Reply)
    requires 3 <= |args| <= n && db.Ready(n) == Met
    requires all == PushAll(true, left, db.view, args[1], args[2..], now, Integer(0))
    modifies db, db.h, db.h.flags, db.h.keys, db.h.vals, db.lists.Keys, db.nodes
    ensures db.Ready(n - |args|) == Met && db.Moved() && all == Outcome(db.view, reply)
  {
    reply := Integer(0);
    var i := 2;
    while i < |args|
      invariant 2 <= i <= |args| && db.Ready(n - i) == Met && db.Moved()
      invariant all == PushAll(true, left, db.view, args[1], args[i..], now, reply)
    {
      var more;
      more, reply := PushNext(db, left, args, i, now, garbage, reply, n - i, all);
      i := i + 1;
      if !more { return; }
    }
  }

  lemma {:induction false} PushAllHead(left: bool, m: Db, key: Bytes, items: seq<Bytes>, now: int, reply: Reply)
    requires items != []
    ensures var n := LengthOf(PushValue(left, items[0], Lookup(m, key, now)));
      PushAll(true, left, m, key, items, now, reply)
        == if n == None then Outcome(Push(left, m, key, items[0], now), Failed(WrongType))
           else PushAll(true, left, Push(left, m, key, items[0], now), key, items[1..], now, Integer(n.value))
  {
  }

  /** `handle_lrange` */
  method HandleRange(db: RedisDb, args: seq<Bytes>, now: int) returns (reply: Reply)
    requires db.Valid() && db.ListsValid()
    modifies db`keyCount, db`expiryCount, db`view, db.h`size, db.h`m, db.h.flags
    ensures db.Valid() && db.h.size <= old(db.h.size)
    ensures RunRange(true, old(db.view), args, now) == Outcome(db.view, reply)
  {
    if |args| < 4 { return Failed(WrongArity); }
    var r := db.LRange(args[1], Index(args[2]), Index(args[3]), now);
    match r
    case Items(items) => reply := Array(items);
    case TypeMismatch => reply := Failed(WrongType);
    case KeyNotFound => reply := Array([]);
  }

  /** SET leaves the list objects alone. */
  method ServeSet(db: RedisDb, args: seq<Bytes>, now: int, ghost n: nat) returns (reply: Reply)
    requires |args| <= n && db.Ready(n) == Met
    modifies db`keyCount, db`expiryCount, db`view, db.h, db.h.flags, db.h.keys, db.h.vals
    ensures db.Ready(n - |args|) == Met && db.h.Moved()
    ensures RunSet(true, old(db.view), args, now) == Outcome(db.view, reply)
  {
    reply := HandleSet(db, args, now);
  }

  /** So do the commands that only read or delete. */
  method ServeGet(db: RedisDb, args: seq<Bytes>, now: int, ghost n: nat) returns (reply: Reply)
    requires |args| <= n && db.Ready(n) == Met
    modifies db`keyCount, db`expiryCount, db`view, db.h`size, db.h`m, db.h.flags
    ensures db.Ready(n - |args|) == Met
    ensures RunGet(true, old(db.view), args, now) == Outcome(db.view, reply)
  {
    reply := HandleGet(db, args, now);
  }

  method ServeDelete(db: RedisDb, args: seq<Bytes>, ghost n: nat) returns (reply: Reply)
    requires |args| <= n && db.Ready(n) == Met
    modifies db`keyCount, db`expiryCount, db`view, db.h`size, db.h`m, db.h.flags
    ensures db.Ready(n - |args|) == Met
    ensures RunDel(old(db.view), args) == Outcome(db.view, reply)
  {
    reply := HandleDelete(db, args);
  }

  method ServeRange(db: RedisDb, args: seq<Bytes>, now: int, ghost n: nat) returns (reply: Reply)
    requires |args| <= n && db.Ready(n) == Met
    modifies db`keyCount, db`expiryCount, db`view, db.h`size, db.h`m, db.h.flags
    ensures db.Ready(n - |args|) == Met
    ensures RunRange(true, old(db.view), args, now) == Outcome(db.view, reply)
  {
    reply := HandleRange(db, args, now);
  }

  /**
   The handlers behind the dispatch: one command, whichever it is, keeps the whole invariant of the database, and
   leaves room for what room was left for besides its arguments.
   */
  method Serve(db: RedisDb, c: Command, now: int, garbage: nat, ghost n: nat) returns (reply: Reply)
    requires |c.args| <= n && db.Ready(n) == Met
    modifies db, db.h, db.h.flags, db.h.keys, db.h.vals, db.lists.Keys, db.nodes
    ensures db.Ready(n - |c.args|) == Met && db.Moved()
    ensures RunCommand(true, old(db.view), c, now) == Outcome(db.view, reply)
  {
    match c
    case SetCommand(args) => reply := ServeSet(db, args, now, n);
    case GetCommand(args) => reply := ServeGet(db, args, now, n);
    case DelCommand(args) => reply := ServeDelete(db, args, n);
    case PushCommand(left, args) => reply := HandlePush(db, left, args, now, garbage, n);
    case RangeCommand(args) => reply := ServeRange(db, args, now, n);
  }
}

/**
 The commands on the store, with expired entries removed when they are met, against a store that never
 removes any.
 */
module Expiry {
  import opened Decimal
  import opened LinkedList
  import opened SetOptions
  import opened Store
  import opened Wrappers

  datatype Error = WrongArity | Syntax | NotAnInteger | NegativeExpiration | WrongType

  /** `Unspecified` stands for what the code reads when it takes a list for a string. */
  datatype Reply =
    | Okay | Null | Bulk(s: Bytes) | Integer(n: int) | Array(items: seq<Bytes>) | Failed(error: Error) | Unspecified

  /** A command with its arguments; the first is its name. */
  datatype Command =
    | SetCommand(args: seq<Bytes>)
    | GetCommand(args: seq<Bytes>)
    | DelCommand(args: seq<Bytes>)
    | PushCommand(left: bool, args: seq<Bytes>)
    | RangeCommand(args: seq<Bytes>)

  // -------------------------------------------------- decisions, given what was found

  /** What a command writes under its key, if anything, and what it replies. */
  datatype Effect = Effect(write: Option<Entry>, reply: Reply)

  predicate Looks(o: Options) { o.nx || o.xx || o.get || o.keepttl }

  function OldValue(found: Option<Entry>): Reply {
    match found
    case None => Null
    case Some(Entry(Str(s), _)) => Bulk(s)
    case Some(_) => Unspecified
  }

  /** SET with accepted options. */
  function SetEffect(o: Options, value: Bytes, found: Option<Entry>): Effect {
    if o.expiration < 0 then Effect(None, Failed(NegativeExpiration))
    else if (o.nx && found != None) || (o.xx && found == None) then Effect(None, Null)
    else
      var expiration := if o.keepttl && found != None then found.value.expiration else o.expiration;
      Effect(Some(Entry(Str(value), expiration)), if o.get then OldValue(found) else Okay)
  }

  function GetReply(found: Option<Entry>): Reply {
    match found
    case None => Null
    case Some(Entry(Str(s), _)) => Bulk(s)
    case Some(_) => Failed(WrongType)
  }

  /** One push; the reply is the new length. */
  function PushEffect(left: bool, item: Bytes, found: Option<Entry>): Effect {
    var e := PushValue(left, item, found);
    Effect(e, if e == None then Failed(WrongType) else Integer(ToInt(|e.value.value.items|)))
  }

  /** An index argument; one that is no number counts as 0. */
  function Index(s: Bytes): int {
    match ParseInteger(s) case Some(v) => ToInt(v) case None => 0
  }

  function RangeReply(start: int, end: int, found: Option<Entry>): Reply {
    match found
    case None => Array([])
    case Some(Entry(ListOf(items), _)) => Array(RangeRead(items, start, end))
    case Some(_) => Failed(WrongType)
  }

  // -------------------------------------------------------------- the two stores

  datatype Outcome = Outcome(db: Db, reply: Reply)

  /** What a lookup leaves of the store: `lazy` stores drop the entry if it has expired. */
  function After(lazy: bool, db: Db, key: Bytes, now: int): Db { if lazy then Purge(db, key, now) else db }

  function ApplyOptions(lazy: bool, db: Db, key: Bytes, value: Bytes, o: Options, now: int): Outcome {
    var looks := o.expiration >= 0 && Looks(o);
    var found := if looks then Lookup(db, key, now) else None;
    var db' := if looks then After(lazy, db, key, now) else db;
    var e := SetEffect(o, value, found);
    Outcome(Write(db', key, e.write), e.reply)
  }

  function RunSet(lazy: bool, db: Db, args: seq<Bytes>, now: int): Outcome {
    if |args| < 3 then Outcome(db, Failed(WrongArity))
    else
      match Parse(args[3..], NO_OPTIONS, now)
      case SyntaxError => Outcome(db, Failed(Syntax))
      case ValueError => Outcome(db, Failed(NotAnInteger))
      case Accepted(o) => ApplyOptions(lazy, db, args[1], args[2], o, now)
  }

  function RunGet(lazy: bool, db: Db, args: seq<Bytes>, now: int): Outcome {
    if |args| != 2 then Outcome(db, Failed(WrongArity))
    else Outcome(After(lazy, db, args[1], now), GetReply(Lookup(db, args[1], now)))
  }

  function DeleteAll(db: Db, keys: seq<Bytes>): Db {
    if keys == [] then db else DeleteAll(Delete(db, keys[0]), keys[1..])
  }

  function RunDel(db: Db, args: seq<Bytes>): Outcome {
    if |args| < 2 then Outcome(db, Failed(WrongArity)) else Outcome(DeleteAll(db, args[1..]), Okay)
  }

  /** The pushes one by one, up to the first that fails; the reply is the last one's. */
  function PushAll(lazy: bool, left: bool, db: Db, key: Bytes, items: seq<Bytes>, now: int, reply: Reply): Outcome
    decreases |items|
  {
    if items == [] then Outcome(db, reply)
    else
      var e := PushEffect(left, items[0], Lookup(db, key, now));
      var db' := Write(After(lazy, db, key, now), key, e.write);
      if e.write == None then Outcome(db', e.reply) else PushAll(lazy, left, db', key, items[1..], now, e.reply)
  }

  function RunPush(lazy: bool, left: bool, db: Db, args: seq<Bytes>, now: int): Outcome {
    if |args| < 3 then Outcome(db, Failed(WrongArity)) else PushAll(lazy, left, db, args[1], args[2..], now, Integer(0))
  }

  function RunRange(lazy: bool, db: Db, args: seq<Bytes>, now: int): Outcome {
    if |args| < 4 then Outcome(db, Failed(WrongArity))
    else Outcome(After(lazy, db, args[1], now), RangeReply(Index(args[2]), Index(args[3]), Lookup(db, args[1], now)))
  }

  function RunCommand(lazy: bool, db: Db, c: Command, now: int): Outcome {
    match c
    case SetCommand(args) => RunSet(lazy, db, args, now)
    case GetCommand(args) => RunGet(lazy, db, args, now)
    case DelCommand(args) => RunDel(db, args)
    case PushCommand(left, args) => RunPush(lazy, left, db, args, now)
    case RangeCommand(args) => RunRange(lazy, db, args, now)
  }

  type Timed = (Command, int)

  /** The replies to a run of commands, each at its time. */
  function Replies(lazy: bool, db: Db, run: seq<Timed>): seq<Reply>
    decreases |run|
  {
    if run == [] then []
    else
      var r := RunCommand(lazy, db, run[0].0, run[0].1);
      [r.reply] + Replies(lazy, r.db, run[1..])
  }

  function Final(lazy: bool, db: Db, run: seq<Timed>): Db
    decreases |run|
  {
    if run == [] then db else Final(lazy, RunCommand(lazy, db, run[0].0, run[0].1).db, run[1..])
  }

  // -------------------------------------------------------------------- agreement

  /** From `now` on, lookups in both stores find the same. */
  ghost predicate Agree(a: Db, b: Db, now: int) {
    forall k, t {:trigger Lookup(a, k, t)} {:trigger Lookup(b, k, t)} :: now <= t ==> Lookup(a, k, t) == Lookup(b, k, t)
  }

  lemma {:induction false} AgreeAfter(a: Db, b: Db, key: Bytes, now: int)
    requires Agree(a, b, now)
    ensures Agree(After(true, a, key, now), After(false, b, key, now), now)
  {
    forall k, t | now <= t
      ensures Lookup(Purge(a, key, now), k, t) == Lookup(b, k, t)
    {
      assert Lookup(a, k, t) == Lookup(b, k, t);
    }
  }

  lemma {:induction false} AgreeWrite(a: Db, b: Db, key: Bytes, e: Option<Entry>, now: int)
    requires Agree(a, b, now)
    ensures Agree(Write(a, key, e), Write(b, key, e), now)
  {
    forall k, t | now <= t
      ensures Lookup(Write(a, key, e), k, t) == Lookup(Write(b, key, e), k, t)
    {
      assert Lookup(a, k, t) == Lookup(b, k, t);
    }
  }

  lemma {:induction false} AgreeDelete(a: Db, b: Db, key: Bytes, now: int)
    requires Agree(a, b, now)
    ensures Agree(Delete(a, key), Delete(b, key), now)
  {
    forall k, t | now <= t
      ensures Lookup(Delete(a, key), k, t) == Lookup(Delete(b, key), k, t)
    {
      assert Lookup(a, k, t) == Lookup(b, k, t);
    }
  }

  lemma {:induction false} AgreeDeleteAll(a: Db, b: Db, keys: seq<Bytes>, now: int)
    requires Agree(a, b, now)
    ensures Agree(DeleteAll(a, keys), DeleteAll(b, keys), now)
    decreases |keys|
  {
    if keys != [] {
      AgreeDelete(a, b, keys[0], now);
      AgreeDeleteAll(Delete(a, keys[0]), Delete(b, keys[0]), keys[1..], now);
    }
  }

  lemma {:induction false} AgreePushAll(left: bool, a: Db, b: Db, key: Bytes, items: seq<Bytes>, now: int, reply: Reply)
    requires Agree(a, b, now)
    ensures var x, y := PushAll(true, left, a, key, items, now, reply), PushAll(false, left, b, key, items, now, reply);
      x.reply == y.reply && Agree(x.db, y.db, now)
    decreases |items|
  {
    if items != [] {
      assert Lookup(a, key, now) == Lookup(b, key, now);
      var e := PushEffect(left, items[0], Lookup(a, key, now));
      AgreeAfter(a, b, key, now);
      AgreeWrite(After(true, a, key, now), After(false, b, key, now), key, e.write, now);
      AgreePushAll(left, Write(After(true, a, key, now), key, e.write), Write(After(false, b, key, now), key, e.write),
                   key, items[1..], now, e.reply);
    }
  }

  lemma {:induction false} AgreeSet(a: Db, b: Db, args: seq<Bytes>, now: int)
    requires Agree(a, b, now)
    ensures var x, y := RunSet(true, a, args, now), RunSet(false, b, args, now);
      x.reply == y.reply && Agree(x.db, y.db, now)
  {
    if |args| >= 3 && Parse(args[3..], NO_OPTIONS, now).Accepted? {
      var o, key := Parse(args[3..], NO_OPTIONS, now).options, args[1];
      assert Lookup(a, key, now) == Lookup(b, key, now);
      var looks := o.expiration >= 0 && Looks(o);
      var e := SetEffect(o, args[2], if looks then Lookup(a, key, now) else None);
      AgreeAfter(a, b, key, now);
      AgreeWrite(if looks then After(true, a, key, now) else a, if looks then After(false, b, key, now) else b,
                 key, e.write, now);
    }
  }

  lemma {:induction false} AgreeCommand(a: Db, b: Db, c: Command, now: int)
    requires Agree(a, b, now)
    ensures var x, y := RunCommand(true, a, c, now), RunCommand(false, b, c, now);
      x.reply == y.reply && Agree(x.db, y.db, now)
  {
    match c
    case SetCommand(args) => AgreeSet(a, b, args, now);
    case GetCommand(args) =>
      if |args| == 2 {
        assert Lookup(a, args[1], now) == Lookup(b, args[1], now);
        AgreeAfter(a, b, args[1], now);
      }
    case DelCommand(args) => if |args| >= 2 { AgreeDeleteAll(a, b, args[1..], now); }
    case PushCommand(left, args) => if |args| >= 3 { AgreePushAll(left, a, b, args[1], args[2..], now, Integer(0)); }
    case RangeCommand(args) =>
      if |args| >= 4 {
        assert Lookup(a, args[1], now) == Lookup(b, args[1], now);
        AgreeAfter(a, b, args[1], now);
      }
  }

  /** The clock starts at `now` and never goes back. */
  ghost predicate Clocked(run: seq<Timed>, now: int) {
    run == [] || (now <= run[0].1 && Clocked(run[1..], run[0].1))
  }

  /**
   Removing expired entries only when they are met cannot be observed: all replies are those of a store that
   never does.
   */
  lemma {:induction false} LazyExpiryIsExact(a: Db, b: Db, run: seq<Timed>, now: int)
    requires Agree(a, b, now) && Clocked(run, now)
    ensures Replies(true, a, run) == Replies(false, b, run)
    decreases |run|
  {
    if run != [] {
      var c, t := run[0].0, run[0].1;
      assert Agree(a, b, t);
      AgreeCommand(a, b, c, t);
      LazyExpiryIsExact(RunCommand(true, a, c, t).db, RunCommand(false, b, c, t).db, run[1..], t);
    }
  }

  // ---------------------------------------------------------------- what a lookup finds

  /** The entry that SET stores under accepted options, if it stores one, as the options are documented. */
  ghost predicate Stores(o: Options, found: bool) {
    o.expiration >= 0 && (o.nx ==> !found) && (o.xx ==> found)
  }

  lemma {:induction false} SetFinds(lazy: bool, db: Db, args: seq<Bytes>, now: int, t: int)
    requires |args| >= 3 && Parse(args[3..], NO_OPTIONS, now).Accepted? && now <= t
    ensures var o := Parse(args[3..], NO_OPTIONS, now).options;
      var found := Lookup(db, args[1], now);
      var until := if KEEPTTL in args[3..] && found != None then found.value.expiration else o.expiration;
      Lookup(RunSet(lazy, db, args, now).db, args[1], t)
        == if !Stores(o, found != None) then Lookup(db, args[1], t)
           else if 0 < until < t then None else Some(Entry(Str(args[2]), until))
  {
    AcceptedOptions(args[3..], NO_OPTIONS, now);
  }

  /** After a DEL the keys it names are gone and all others are as they were, at every time. */
  lemma {:induction false} DeletedAll(db: Db, keys: seq<Bytes>, k: Bytes, t: int)
    ensures Lookup(DeleteAll(db, keys), k, t) == if k in keys then None else Lookup(db, k, t)
    decreases |keys|
  {
    if keys != [] { DeletedAll(Delete(db, keys[0]), keys[1..], k, t); }
  }

  /** GET and LRANGE change nothing that can be found from then on. */
  lemma {:induction false} ReadersKeep(lazy: bool, db: Db, c: Command, now: int, k: Bytes, t: int)
    requires (c.GetCommand? || c.RangeCommand?) && now <= t
    ensures Lookup(RunCommand(lazy, db, c, now).db, k, t) == Lookup(db, k, t)
  {
    match c
    case GetCommand(args) =>
    case RangeCommand(args) =>
  }

  // ------------------------------------------------------------------- whole pushes

  function Reversed<T>(s: seq<T>): seq<T> { if s == [] then [] else Reversed(s[1..]) + [s[0]] }

  /** The list a key holds, empty if it holds nothing. */
  function ListAt(db: Db, key: Bytes, now: int): seq<Bytes> {
    match Lookup(db, key, now)
    case Some(Entry(ListOf(items), _)) => items
    case _ => []
  }

  /** The key holds nothing, or a list without a deadline. */
  predicate TakesPushes(db: Db, key: Bytes, now: int) {
    match Lookup(db, key, now)
    case None => true
    case Some(e) => e.value.ListOf? && e.expiration <= 0
  }

  lemma {:induction false} OnePush(lazy: bool, left: bool, db: Db, key: Bytes, item: Bytes, now: int)
    requires TakesPushes(db, key, now)
    ensures var e := PushEffect(left, item, Lookup(db, key, now));
      var db' := Write(After(lazy, db, key, now), key, e.write);
      && e.write != None && TakesPushes(db', key, now) && Lookup(db', key, now) != None
      && ListAt(db', key, now) == Pushed(left, item, ListAt(db, key, now))
      && e.reply == Integer(ToInt(|ListAt(db, key, now)| + 1))
  {
  }

  /** The items of a whole command pushed onto `l`: in front in reverse order, or behind in order. */
  function PushedAll<T>(left: bool, items: seq<T>, l: seq<T>): seq<T> {
    if left then Reversed(items) + l else l + items
  }

  lemma {:induction false} PushedAllStep<T>(left: bool, items: seq<T>, l: seq<T>)
    ensures items == [] ==> PushedAll(left, items, l) == l
    ensures items != [] ==> PushedAll(left, items[1..], Pushed(left, items[0], l)) == PushedAll(left, items, l)
  {
    if items != [] { PushedParts(items, l); }
  }

  lemma {:induction false} PushedParts<T>(items: seq<T>, l: seq<T>)
    requires items != []
    ensures Reversed(items[1..]) + ([items[0]] + l) == Reversed(items) + l
    ensures (l + [items[0]]) + items[1..] == l + items
  {
  }

  lemma {:induction false} PushAllStep(lazy: bool, left: bool, db: Db, key: Bytes, items: seq<Bytes>, now: int,
      reply: Reply)
    requires items != [] && TakesPushes(db, key, now)
    ensures var e := PushEffect(left, items[0], Lookup(db, key, now));
      PushAll(lazy, left, db, key, items, now, reply)
        == PushAll(lazy, left, Write(After(lazy, db, key, now), key, e.write), key, items[1..], now, e.reply)
  {
    OnePush(lazy, left, db, key, items[0], now);
  }

  /** LPUSH puts its items in front in reverse order, RPUSH behind in order, and both reply with the new length. */
  lemma {:induction false} PushedList(lazy: bool, left: bool, db: Db, key: Bytes, items: seq<Bytes>, now: int,
      reply: Reply)
    requires TakesPushes(db, key, now)
    ensures var r, l := PushAll(lazy, left, db, key, items, now, reply), ListAt(db, key, now);
      && TakesPushes(r.db, key, now) && ListAt(r.db, key, now) == PushedAll(left, items, l)
      && r.reply == if items == [] then reply else Integer(ToInt(|l| + |items|))
    decreases |items|
  {
    var l := ListAt(db, key, now);
    PushedAllStep(left, items, l);
    if items != [] {
      var e := PushEffect(left, items[0], Lookup(db, key, now));
      OnePush(lazy, left, db, key, items[0], now);
      PushAllStep(lazy, left, db, key, items, now, reply);
      PushedList(lazy, left, Write(After(lazy, db, key, now), key, e.write), key, items[1..], now, e.reply);
    }
  }
}

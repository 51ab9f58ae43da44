/** What the commands mean to each other: laws that speak of commands and their replies only. */
module CommandLaws {
  import opened Decimal
  import opened Expiry
  import opened LinkedList
  import opened Numerals
  import opened SetOptions
  import opened Store
  import opened Wrappers

  /** What GET of `key` replies at time `t`, whatever name it is called by. */
  function Got(lazy: bool, db: Db, name: Bytes, key: Bytes, t: int): Reply {
    RunCommand(lazy, db, GetCommand([name, key]), t).reply
  }

  /** What LRANGE of `key` replies at time `t`. */
  function Ranged(lazy: bool, db: Db, name: Bytes, key: Bytes, start: Bytes, end: Bytes, t: int): Reply {
    RunCommand(lazy, db, RangeCommand([name, key, start, end]), t).reply
  }

  /** GET replies with the string under its key, with null if there is nothing, and with an error for a list. */
  lemma {:induction false} GetFinds(lazy: bool, db: Db, m: Bytes, k: Bytes, t: int)
    ensures Lookup(db, k, t) == None ==> Got(lazy, db, m, k, t) == Null
    ensures Lookup(db, k, t) != None ==>
              var v := Lookup(db, k, t).value.value;
              Got(lazy, db, m, k, t) == if v.Str? then Bulk(v.s) else Failed(WrongType)
  {
  }

  lemma {:induction false} SameFound(lazy: bool, a: Db, b: Db, m: Bytes, k: Bytes, t: int)
    requires Lookup(a, k, t) == Lookup(b, k, t)
    ensures Got(lazy, a, m, k, t) == Got(lazy, b, m, k, t)
    ensures forall i, j :: Ranged(lazy, a, m, k, i, j, t) == Ranged(lazy, b, m, k, i, j, t)
  {
  }

  // ---------------------------------------------------------------------- SET and GET

  /** A plain SET is confirmed, and GET gets the value from then on. */
  lemma {:induction false} PlainSetThenGet(lazy: bool, db: Db, n: Bytes, m: Bytes, k: Bytes, v: Bytes, now: int, t: int)
    requires now <= t
    ensures Replies(lazy, db, [(SetCommand([n, k, v]), now), (GetCommand([m, k]), t)]) == [Okay, Bulk(v)]
  {
    var run := [(SetCommand([n, k, v]), now), (GetCommand([m, k]), t)];
    var db' := RunCommand(lazy, db, SetCommand([n, k, v]), now).db;
    assert [n, k, v][3..] == [] && run[1..] == [(GetCommand([m, k]), t)] && run[1..][1..] == [];
    assert Replies(lazy, db', run[1..]) == [Got(lazy, db', m, k, t)] + [];
  }

  /**
   A later GET of the key sees the new value until its time is up if the SET went through, and what it would have
   seen otherwise. With KEEPTTL on a key that is there, its time is the one the key had.
   */
  lemma {:induction false} SetThenGet(lazy: bool, db: Db, args: seq<Bytes>, now: int, m: Bytes, t: int)
    requires |args| >= 3 && Parse(args[3..], NO_OPTIONS, now).Accepted? && now <= t
    ensures var o := Parse(args[3..], NO_OPTIONS, now).options;
      var found := Lookup(db, args[1], now);
      var until := if KEEPTTL in args[3..] && found != None then found.value.expiration else o.expiration;
      Got(lazy, RunCommand(lazy, db, SetCommand(args), now).db, m, args[1], t)
        == if !Stores(o, found != None) then Got(lazy, db, m, args[1], t)
           else if 0 < until < t then Null else Bulk(args[2])
  {
    SetFinds(lazy, db, args, now, t);
  }

  /** No other key is affected, at this time or later, by any SET. */
  lemma {:induction false} SetElsewhere(lazy: bool, db: Db, args: seq<Bytes>, now: int, m: Bytes, k: Bytes, t: int)
    requires |args| >= 3 ==> k != args[1]
    ensures Got(lazy, RunCommand(lazy, db, SetCommand(args), now).db, m, k, t) == Got(lazy, db, m, k, t)
    ensures forall i, j :: Ranged(lazy, RunCommand(lazy, db, SetCommand(args), now).db, m, k, i, j, t)
                        == Ranged(lazy, db, m, k, i, j, t)
  {
    SameFound(lazy, RunCommand(lazy, db, SetCommand(args), now).db, db, m, k, t);
  }

  /**
   What SET replies, and what a refused one changes: an error for options that cannot be read or for a negative
   time, null where NX or XX forbids it, the old string if GET is among the options, and otherwise OK.
   */
  lemma {:induction false} SetReplies(lazy: bool, db: Db, args: seq<Bytes>, now: int, m: Bytes)
    ensures var r := RunCommand(lazy, db, SetCommand(args), now);
      if |args| < 3 then r == Outcome(db, Failed(WrongArity))
      else
        match Parse(args[3..], NO_OPTIONS, now)
        case SyntaxError => r == Outcome(db, Failed(Syntax))
        case ValueError => r == Outcome(db, Failed(NotAnInteger))
        case Accepted(o) =>
          var found := Lookup(db, args[1], now);
          if o.expiration < 0 then r == Outcome(db, Failed(NegativeExpiration))
          else if (NX in args[3..] && found != None) || (XX in args[3..] && found == None) then
            r.reply == Null && forall k, t :: now <= t ==> Lookup(r.db, k, t) == Lookup(db, k, t)
          else if GET !in args[3..] then r.reply == Okay
          else found == None || found.value.value.Str? ==> r.reply == Got(lazy, db, m, args[1], now)
  {
    if |args| >= 3 && Parse(args[3..], NO_OPTIONS, now).Accepted? { AcceptedOptions(args[3..], NO_OPTIONS, now); }
  }

  // ------------------------------------------------------------------------ deadlines

  /** The moment an expiry option means: seconds or milliseconds, counted from now or from the epoch. */
  function Deadline(option: Bytes, n: int, now: int): int {
    (if option == EX || option == PX then now else 0) + n * (if option == EX || option == EXAT then 1000 else 1)
  }

  /** SET with one expiry option. */
  function Timed(lazy: bool, db: Db, name: Bytes, key: Bytes, value: Bytes, option: Bytes, text: Bytes, now: int): Db {
    RunCommand(lazy, db, SetCommand([name, key, value, option, text]), now).db
  }

  lemma {:induction false} OneTime(option: Bytes, text: Bytes, n: int, now: int)
    requires TakesTime(option) && ParseInteger(text) == Some(n)
    ensures Parse([option, text], NO_OPTIONS, now)
      == Accepted(Options(ExpirationOf(option, n, now), false, false, false, false))
  {
    assert [option, text][2..] == [];
  }

  /**
   SET with one expiry option, for every deadline, in 64 bits. A negative one is refused and changes nothing. Zero
   means never, although it lies in the past. Otherwise the value is there up to the deadline and gone after it.
   */
  lemma {:induction false} TimedSet(lazy: bool, db: Db, name: Bytes, key: Bytes, value: Bytes, option: Bytes,
                                    text: Bytes, n: int, now: int, m: Bytes, t: int)
    requires TakesTime(option) && ParseInteger(text) == Some(n) && now <= t
    ensures var d := Wrap64(Deadline(option, n, now));
      Got(lazy, Timed(lazy, db, name, key, value, option, text, now), m, key, t)
        == if d < 0 then Got(lazy, db, m, key, t) else if d == 0 || t <= d then Bulk(value) else Null
  {
    var args := [name, key, value, option, text];
    OneTime(option, text, n, now);
    assert args[3..] == [option, text];
    AcceptedOptions([option, text], NO_OPTIONS, now);
    SetThenGet(lazy, db, args, now, m, t);
  }

  /** From `now` on, GET sees the value up to the deadline and nothing after it. */
  ghost predicate MeetsDeadline(lazy: bool, db: Db, m: Bytes, key: Bytes, value: Bytes, deadline: int, now: int) {
    forall t :: now <= t ==> Got(lazy, db, m, key, t) == if t <= deadline then Bulk(value) else Null
  }

  lemma {:induction false} Wrap64Keeps(v: int)
    requires -0x8000_0000_0000_0000 <= v < 0x8000_0000_0000_0000
    ensures Wrap64(v) == v
  {
  }

  /** A deadline is met exactly if it is positive, or else is refused and there was nothing to be seen before. */
  lemma {:induction false} DeadlineMetIff(lazy: bool, db: Db, name: Bytes, key: Bytes, value: Bytes, option: Bytes,
                                          text: Bytes, n: int, now: int, m: Bytes)
    requires TakesTime(option) && ParseInteger(text) == Some(n) && now > 0
    requires -0x8000_0000_0000_0000 <= Deadline(option, n, now) < 0x8000_0000_0000_0000
    ensures var d, db' := Deadline(option, n, now), Timed(lazy, db, name, key, value, option, text, now);
      MeetsDeadline(lazy, db', m, key, value, d, now) <==> d > 0 || (d < 0 && Lookup(db, key, now) == None)
  {
    var d, db' := Deadline(option, n, now), Timed(lazy, db, name, key, value, option, text, now);
    Wrap64Keeps(d);
    forall t | now <= t
      ensures Got(lazy, db', m, key, t)
        == if d < 0 then Got(lazy, db, m, key, t) else if d == 0 || t <= d then Bulk(value) else Null
    {
      TimedSet(lazy, db, name, key, value, option, text, n, now, m, t);
    }
    if d <= 0 && MeetsDeadline(lazy, db', m, key, value, d, now) {
      assert Got(lazy, db', m, key, now) == Null;
    }
  }

  /** SET with EXAT 0 stores a value that is there at all times after its deadline. */
  lemma {:induction false} ZeroIsNever(db: Db, name: Bytes, key: Bytes, value: Bytes, now: int, m: Bytes, t: int)
    requires 0 < now <= t
    ensures ParseInteger([48]) == Some(0) && Deadline(EXAT, 0, now) == 0
    ensures Got(true, Timed(true, db, name, key, value, EXAT, [48], now), m, key, t) == Bulk(value)
  {
    StrtolOfShow(0, []);
    assert Show(0) + [] == [48];
    Wrap64Keeps(0);
    TimedSet(true, db, name, key, value, EXAT, [48], 0, now, m, t);
  }

  /** SET with EX 10, literally: the value is there for ten seconds. */
  lemma {:induction false} TenSeconds(lazy: bool, db: Db, n: Bytes, k: Bytes, v: Bytes, now: int, m: Bytes, t: int)
    requires 0 < now <= t && now < 0x4000_0000_0000_0000
    ensures Got(lazy, Timed(lazy, db, n, k, v, [0x45, 0x58], [0x31, 0x30], now), m, k, t)
      == if t <= now + 10_000 then Bulk(v) else Null
  {
    var d := [0x31, 0x30];
    assert Pow10(0) == 1 && Pow10(1) == 10 && PlaceSum(d, 1) == 10 && PlaceSum(d, 2) == 10;
    StrtolOfNumeral(d);
    Wrap64Keeps(now + 10_000);
    TimedSet(lazy, db, n, k, v, EX, d, 10, now, m, t);
  }

  // ------------------------------------------------------------------------------ DEL

  /** DEL is confirmed; the keys it names are gone and all others are as they were, at every later time. */
  lemma {:induction false} DelThenGet(lazy: bool, db: Db, n: Bytes, keys: seq<Bytes>, now: int, m: Bytes, k: Bytes,
      t: int)
    requires keys != []
    ensures var r := RunCommand(lazy, db, DelCommand([n] + keys), now);
      && r.reply == Okay
      && Got(lazy, r.db, m, k, t) == if k in keys then Null else Got(lazy, db, m, k, t)
  {
    assert ([n] + keys)[1..] == keys;
    DeletedAll(db, keys, k, t);
  }

  // ---------------------------------------------------------------------------- lists

  lemma {:induction false} ShownParsed(i: int)
    requires LONG_MIN <= i <= LONG_MAX
    ensures ParseInteger(Show(i)) == Some(i)
  {
    StrtolOfShow(i, []);
    assert Show(i) + [] == Show(i);
  }

  lemma {:induction false} ShownIndex(i: int)
    requires INT_MIN <= i <= INT_MAX
    ensures Index(Show(i)) == i
  {
    ShownParsed(i);
    ToIntKeeps(i);
  }

  /** LRANGE of a key without a list. */
  lemma {:induction false} RangeFindsNone(lazy: bool, db: Db, m: Bytes, k: Bytes, start: Bytes, end: Bytes, t: int)
    ensures Lookup(db, k, t) == None ==> Ranged(lazy, db, m, k, start, end, t) == Array([])
    ensures Lookup(db, k, t) != None && Lookup(db, k, t).value.value.Str? ==>
              Ranged(lazy, db, m, k, start, end, t) == Failed(WrongType)
  {
  }

  lemma {:induction false} SameIndices(lazy: bool, db: Db, m: Bytes, k: Bytes, i: Bytes, i': Bytes, j: Bytes, j': Bytes,
      t: int)
    requires Index(i) == Index(i') && Index(j) == Index(j')
    ensures Ranged(lazy, db, m, k, i, j, t) == Ranged(lazy, db, m, k, i', j', t)
  {
  }

  /** An index that is no number counts as 0. */
  lemma {:induction false} NoNumberIsZero(lazy: bool, db: Db, m: Bytes, k: Bytes, start: Bytes, end: Bytes, t: int)
    ensures ParseInteger(start) == None ==>
              Ranged(lazy, db, m, k, start, end, t) == Ranged(lazy, db, m, k, Show(0), end, t)
    ensures ParseInteger(end) == None ==>
              Ranged(lazy, db, m, k, start, end, t) == Ranged(lazy, db, m, k, start, Show(0), t)
  {
    ShownIndex(0);
    if ParseInteger(start) == None { SameIndices(lazy, db, m, k, start, Show(0), end, end, t); }
    if ParseInteger(end) == None { SameIndices(lazy, db, m, k, start, start, end, Show(0), t); }
  }

  /** The reply for a list, in terms of what is promised of ranges. */
  lemma {:induction false} RangeOfList(lazy: bool, db: Db, m: Bytes, k: Bytes, i: int, j: int, t: int)
    requires Lookup(db, k, t) != None && Lookup(db, k, t).value.value.ListOf?
    requires INT_MIN <= i <= INT_MAX && INT_MIN <= j <= INT_MAX && |ListAt(db, k, t)| <= INT_MAX
    ensures Ranged(lazy, db, m, k, Show(i), Show(j), t) == Array(RangeOf(ListAt(db, k, t), i, j))
  {
    ShownIndex(i);
    ShownIndex(j);
    RangeReadIsPromised(ListAt(db, k, t), i, j);
  }

  /** The items from the start up to and with the end. */
  lemma {:induction false} RangeIsSlice(lazy: bool, db: Db, m: Bytes, k: Bytes, i: nat, j: nat, t: int)
    requires Lookup(db, k, t) != None && Lookup(db, k, t).value.value.ListOf?
    requires i <= j < |ListAt(db, k, t)| <= INT_MAX
    ensures Ranged(lazy, db, m, k, Show(i), Show(j), t) == Array(ListAt(db, k, t)[i..j + 1])
  {
    RangeOfList(lazy, db, m, k, i, j, t);
  }

  /** Negative numbers count from the end: -1 is the last item. */
  lemma {:induction false} RangeFromEnd(lazy: bool, db: Db, m: Bytes, k: Bytes, i: int, j: int, t: int)
    requires Lookup(db, k, t) != None && Lookup(db, k, t).value.value.ListOf?
    requires -|ListAt(db, k, t)| <= i <= j <= -1 && |ListAt(db, k, t)| <= INT_MAX
    ensures var l := ListAt(db, k, t);
      Ranged(lazy, db, m, k, Show(i), Show(j), t) == Array(l[|l| + i..|l| + j + 1])
  {
    SliceFromEnd(ListAt(db, k, t), i, j);
    RangeOfList(lazy, db, m, k, i, j, t);
  }

  lemma {:induction false} SliceFromEnd<T>(l: seq<T>, i: int, j: int)
    requires -|l| <= i <= j <= -1
    ensures RangeOf(l, i, j) == l[|l| + i..|l| + j + 1]
  {
  }

  /** An end behind the last item is the last item; a start behind it, or before the first, gives nothing. */
  lemma {:induction false} RangeOutside(lazy: bool, db: Db, m: Bytes, k: Bytes, i: int, j: int, t: int)
    requires Lookup(db, k, t) != None && Lookup(db, k, t).value.value.ListOf?
    requires INT_MIN <= i <= INT_MAX && INT_MIN <= j <= INT_MAX && |ListAt(db, k, t)| <= INT_MAX
    ensures var l, r := ListAt(db, k, t), Ranged(lazy, db, m, k, Show(i), Show(j), t);
      && (0 <= i < |l| <= j ==> r == Array(l[i..]))
      && (i >= |l| || i < -|l| ==> r == Array([]))
      && (0 <= j < i ==> r == Array([]))
  {
    RangeOfList(lazy, db, m, k, i, j, t);
  }

  /** From the first to the last item: 0 and -1. */
  lemma {:induction false} WholeRange(lazy: bool, db: Db, m: Bytes, k: Bytes, t: int)
    requires TakesPushes(db, k, t) && |ListAt(db, k, t)| <= INT_MAX
    ensures Ranged(lazy, db, m, k, Show(0), Show(-1), t) == Array(ListAt(db, k, t))
  {
    if Lookup(db, k, t) == None {
      RangeFindsNone(lazy, db, m, k, Show(0), Show(-1), t);
    } else {
      RangeOfList(lazy, db, m, k, 0, -1, t);
    }
  }

  lemma {:induction false} PushedStays(db: Db, k: Bytes, now: int, t: int)
    requires TakesPushes(db, k, now) && Lookup(db, k, now) != None && now <= t
    ensures TakesPushes(db, k, t) && ListAt(db, k, t) == ListAt(db, k, now)
  {
  }

  /**
   LPUSH puts its items in front in reverse order, RPUSH behind in order; both reply with the new length, and LRANGE
   from first to last shows the list from then on.
   */
  lemma {:induction false} PushThenRange(lazy: bool, left: bool, db: Db, n: Bytes, k: Bytes, items: seq<Bytes>,
      now: int, m: Bytes, t: int)
    requires TakesPushes(db, k, now) && items != [] && now <= t && |ListAt(db, k, now)| + |items| <= INT_MAX
    ensures var r, l := RunCommand(lazy, db, PushCommand(left, [n, k] + items), now), ListAt(db, k, now);
      && r.reply == Integer(|l| + |items|)
      && Ranged(lazy, r.db, m, k, Show(0), Show(-1), t)
          == Array(if left then Reversed(items) + l else l + items)
  {
    var args, l := [n, k] + items, ListAt(db, k, now);
    var r := RunCommand(lazy, db, PushCommand(left, args), now);
    assert args[2..] == items && args[1] == k;
    PushedList(lazy, left, db, k, items, now, Integer(0));
    ToIntKeeps(|l| + |items|);
    ReversedLength(items);
    ListIsThere(r.db, k, now);
    PushedStays(r.db, k, now, t);
    WholeRange(lazy, r.db, m, k, t);
  }

  lemma {:induction false} ReversedLength<T>(s: seq<T>)
    ensures |Reversed(s)| == |s|
  {
    if s != [] { ReversedLength(s[1..]); }
  }

  lemma {:induction false} ListIsThere(db: Db, k: Bytes, now: int)
    requires ListAt(db, k, now) != []
    ensures Lookup(db, k, now) != None
  {
  }

  /** A new list never expires: its time is -1 if LPUSH made it, and 0 if RPUSH did. */
  lemma {:induction false} NewListTime(lazy: bool, left: bool, db: Db, n: Bytes, k: Bytes, item: Bytes, now: int)
    requires Lookup(db, k, now) == None
    ensures var db' := RunCommand(lazy, db, PushCommand(left, [n, k, item]), now).db;
      k in db' && db'[k] == Entry(ListOf([item]), if left then -1 else 0)
  {
    assert [n, k, item][2..] == [item] && [item][1..] == [];
    PushAllStep(lazy, left, db, k, [item], now, Integer(0));
  }

  /** A push onto a string is refused and changes nothing that can be found. */
  lemma {:induction false} PushRefused(lazy: bool, left: bool, db: Db, n: Bytes, k: Bytes, items: seq<Bytes>, now: int,
      j: Bytes, t: int)
    requires items != [] && now <= t && Lookup(db, k, now) != None && Lookup(db, k, now).value.value.Str?
    ensures var r := RunCommand(lazy, db, PushCommand(left, [n, k] + items), now);
      r.reply == Failed(WrongType) && Lookup(r.db, j, t) == Lookup(db, j, t)
  {
    assert ([n, k] + items)[2..] == items && ([n, k] + items)[1] == k;
  }

  // ---------------------------------------------------------------------------- arity

  /** Too few arguments, or for GET any number but two: an error, and nothing changes. */
  lemma {:induction false} WrongArityIff(lazy: bool, db: Db, c: Command, now: int)
    ensures var n, r := |c.args|, RunCommand(lazy, db, c, now);
      var bad := match c {
        case SetCommand(_) => n < 3 case GetCommand(_) => n != 2 case DelCommand(_) => n < 2
        case PushCommand(_, _) => n < 3 case RangeCommand(_) => n < 4
      };
      && (r.reply == Failed(WrongArity) <==> bad)
      && (bad ==> r.db == db)
  {
    match c
    case PushCommand(left, args) =>
      if |args| >= 3 { PushAllArity(lazy, left, db, args[1], args[2..], now, Integer(0)); }
    case _ =>
  }

  lemma {:induction false} PushAllArity(lazy: bool, left: bool, db: Db, key: Bytes, items: seq<Bytes>, now: int,
      reply: Reply)
    requires reply != Failed(WrongArity)
    ensures PushAll(lazy, left, db, key, items, now, reply).reply != Failed(WrongArity)
    decreases |items|
  {
    if items != [] {
      var e := PushEffect(left, items[0], Lookup(db, key, now));
      PushAllArity(lazy, left, Write(After(lazy, db, key, now), key, e.write), key, items[1..], now, e.reply);
    }
  }
}

/** What holds in every store that commands can build, and so of every snapshot of one. */
module Reachable {
  import opened Decimal
  import opened Expiry
  import opened Framing
  import opened LargeSnapshots
  import opened SetOptions
  import opened Snapshot
  import opened SnapshotTrip
  import opened Store
  import opened Wrappers

  /** An argument as a C string of ordinary length. */
  predicate Clean(s: Bytes) { 0 !in s && |s| <= INT_MAX }

  ghost predicate CleanArgs(args: seq<Bytes>) { forall i :: 0 <= i < |args| ==> Clean(args[i]) }

  /** An entry that commands can store: a list has an element, and no list has a deadline. */
  predicate Proper(k: Bytes, e: Entry) { Storable((k, e)) && (e.value.ListOf? ==> e.value.items != []) }

  ghost predicate ProperStore(db: Db) {
    forall k {:trigger k in db} :: k in db ==> Proper(k, db[k])
  }

  lemma {:induction false} SetKeeps(lazy: bool, db: Db, args: seq<Bytes>, now: int)
    requires ProperStore(db) && CleanArgs(args)
    ensures ProperStore(RunSet(lazy, db, args, now).db)
  {
    if |args| >= 3 && Parse(args[3..], NO_OPTIONS, now).Accepted? {
      AcceptedOptions(args[3..], NO_OPTIONS, now);
      assert Clean(args[1]) && Clean(args[2]);
    }
  }

  lemma {:induction false} PushEffectKeeps(left: bool, key: Bytes, item: Bytes, found: Option<Entry>)
    requires Clean(key) && (found != None ==> Proper(key, found.value))
    ensures var e := PushEffect(left, item, found); e.write != None ==> Proper(key, e.write.value)
  {
  }

  lemma {:induction false} PushAllKeeps(lazy: bool, left: bool, db: Db, key: Bytes, items: seq<Bytes>, now: int,
      reply: Reply)
    requires ProperStore(db) && Clean(key)
    ensures ProperStore(PushAll(lazy, left, db, key, items, now, reply).db)
    decreases |items|
  {
    if items != [] {
      var e := PushEffect(left, items[0], Lookup(db, key, now));
      PushEffectKeeps(left, key, items[0], Lookup(db, key, now));
      PushAllKeeps(lazy, left, Write(After(lazy, db, key, now), key, e.write), key, items[1..], now, e.reply);
    }
  }

  lemma {:induction false} DeleteAllKeeps(db: Db, keys: seq<Bytes>)
    requires ProperStore(db)
    ensures ProperStore(DeleteAll(db, keys))
    decreases |keys|
  {
    if keys != [] { DeleteAllKeeps(Delete(db, keys[0]), keys[1..]); }
  }

  lemma {:induction false} CommandKeeps(lazy: bool, db: Db, c: Command, now: int)
    requires ProperStore(db) && CleanArgs(c.args)
    ensures ProperStore(RunCommand(lazy, db, c, now).db)
  {
    match c
    case SetCommand(args) => SetKeeps(lazy, db, args, now);
    case GetCommand(args) =>
    case DelCommand(args) => if |args| >= 2 { DeleteAllKeeps(db, args[1..]); }
    case PushCommand(left, args) =>
      if |args| >= 3 {
        assert Clean(args[1]);
        PushAllKeeps(lazy, left, db, args[1], args[2..], now, Integer(0));
      }
    case RangeCommand(args) =>
  }

  ghost predicate CleanRun(run: seq<Timed>) {
    forall i {:trigger run[i]} :: 0 <= i < |run| ==> CleanArgs(run[i].0.args)
  }

  /** Every run keeps the store proper: lists are never empty and never expire, and all strings are C strings. */
  lemma {:induction false} RunKeeps(lazy: bool, db: Db, run: seq<Timed>)
    requires ProperStore(db) && CleanRun(run)
    ensures ProperStore(Final(lazy, db, run))
    decreases |run|
  {
    if run != [] {
      CommandKeeps(lazy, db, run[0].0, run[0].1);
      RunKeeps(lazy, RunCommand(lazy, db, run[0].0, run[0].1).db, run[1..]);
    }
  }

  lemma {:induction false} ProperIsStorable(es: seq<Pair>)
    requires DistinctKeys(es) && ProperStore(PutAll(es, map[]))
    ensures All(Storable, es)
  {
    forall p | p in es
      ensures Storable(p)
    {
      var i: nat :| i < |es| && es[i] == p;
      PutAllHolds(es, map[], i);
      assert Proper(p.0, p.1);
    }
  }

  /**
   Whatever run built a store, in whatever order its entries are saved. Loading a small one gives the strings
   back, in normal form, up to the first that cannot be read; and it is the same store exactly if it is small and
   a snapshot keeps every entry.
   */
  lemma {:induction false} SnapshotOfRun(run: seq<Timed>, es: seq<Pair>, expiryCount: int)
    requires CleanRun(run) && DistinctKeys(es) && PutAll(es, map[]) == Final(true, map[], run)
    ensures LoadBytes(SaveBytes(es, |es|, expiryCount), map[]) == LoadedAs(Strings(es), |es| % 256)
    ensures |es| <= 255 ==> LoadBytes(SaveBytes(es, |es|, expiryCount), map[]).db == Restored(Strings(es))
    ensures (|es| > 255 ==> All(Dear, es)) ==>
              (LoadBytes(SaveBytes(es, |es|, expiryCount), map[]) == Loaded(0, Final(true, map[], run)) <==>
               |es| <= 255 && All(Kept, es))
  {
    RunKeeps(true, map[], run);
    ProperIsStorable(es);
    SnapshotLoads(es, |es| % 256, expiryCount);
    if |es| <= 255 { SmallSnapshotLoads(es, expiryCount); }
    if |es| > 255 ==> All(Dear, es) { SnapshotRoundTripIff(es, expiryCount); }
  }
}

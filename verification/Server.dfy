/**
 Whole runs of the server: a database that starts empty, serves commands one after the other, and is
 restarted from its snapshot.
 */
module Serving {
  import opened Database
  import opened Decimal
  import opened Expiry
  import opened Framing
  import opened LargeSnapshots
  import opened Rdb
  import opened RdbFiles
  import opened Reachable
  import opened Seals
  import opened Snapshot
  import opened SnapshotTrip
  import opened Store
  import opened StoreCommands

  /** All the arguments of a run, which bound the keys it can make. */
  function ArgCount(run: seq<Timed>): nat {
    if run == [] then 0 else |run[0].0.args| + ArgCount(run[1..])
  }

  /** The clock never goes back during the run. */
  ghost predicate NeverBack(run: seq<Timed>) { run == [] || Clocked(run, run[0].1) }

  lemma {:induction false} ClockedReplies(db: Db, run: seq<Timed>)
    ensures NeverBack(run) ==> Replies(true, db, run) == Replies(false, db, run)
  {
    if NeverBack(run) && run != [] { LazyExpiryIsExact(db, db, run, run[0].1); }
  }

  /** Everything the database is made of is new. */
  twostate predicate Own(new db: RedisDb)
    reads db, db.h
  {
    && fresh(db) && fresh(db.h) && fresh(db.h.flags) && fresh(db.h.keys) && fresh(db.h.vals)
    && fresh(db.lists.Keys) && fresh(db.nodes)
  }

  lemma {:induction false} RunHead(db: Db, run: seq<Timed>, i: nat)
    requires i < |run|
    ensures var r := RunCommand(true, db, run[i].0, run[i].1);
      && Replies(true, db, run[i..]) == [r.reply] + Replies(true, r.db, run[i + 1..])
      && Final(true, db, run[i..]) == Final(true, r.db, run[i + 1..])
    ensures ArgCount(run[i..]) == |run[i].0.args| + ArgCount(run[i + 1..])
  {
    assert run[i..][1..] == run[i + 1..];
  }

  /**
   The commands of a run are served in order: every reply and the store afterwards are the run's, and there is
   still room for `spare` more arguments.
   */
  method ServeRun(db: RedisDb, run: seq<Timed>, garbage: seq<nat>, ghost spare: nat) returns (replies: seq<Reply>)
    requires |garbage| == |run| && db.Ready(ArgCount(run) + spare) == Met
    modifies db, db.h, db.h.flags, db.h.keys, db.h.vals, db.lists.Keys, db.nodes
    ensures db.Ready(spare) == Met && db.Moved()
    ensures replies == Replies(true, old(db.view), run) && db.view == Final(true, old(db.view), run)
    ensures NeverBack(run) ==> replies == Replies(false, old(db.view), run)
  {
    ClockedReplies(db.view, run);
    replies := ServeEach(db, run, garbage, spare);
  }

  method ServeEach(db: RedisDb, run: seq<Timed>, garbage: seq<nat>, ghost spare: nat) returns (replies: seq<Reply>)
    requires |garbage| == |run| && db.Ready(ArgCount(run) + spare) == Met
    modifies db, db.h, db.h.flags, db.h.keys, db.h.vals, db.lists.Keys, db.nodes
    ensures db.Ready(spare) == Met && db.Moved()
    ensures replies == Replies(true, old(db.view), run) && db.view == Final(true, old(db.view), run)
  {
    ghost var all, last := Replies(true, db.view, run), Final(true, db.view, run);
    replies := [];
    assert run[0..] == run;
    for i := 0 to |run|
      invariant db.Ready(ArgCount(run[i..]) + spare) == Met && db.Moved()
      invariant replies + Replies(true, db.view, run[i..]) == all && Final(true, db.view, run[i..]) == last
    {
      RunHead(db.view, run, i);
      var reply := Serve(db, run[i].0, run[i].1, garbage[i], ArgCount(run[i..]) + spare);
      replies := replies + [reply];
    }
  }

  /**
   A server that starts empty: over any run with a clock that does not go back its replies are those of a
   store that never deletes an expired entry, and the database holds what the run leaves, with everything it is
   made of its own.
   */
  method ServeFromEmpty(hash: Bytes -> nat, run: seq<Timed>, garbage: seq<nat>, ghost spare: nat)
    returns (db: RedisDb, replies: seq<Reply>)
    requires |garbage| == |run| && ArgCount(run) + spare <= 0x1000_0000
    ensures db.Ready(spare) == Met && Own(db) && db.view == Final(true, map[], run)
    ensures replies == Replies(true, map[], run)
    ensures NeverBack(run) ==> replies == Replies(false, map[], run)
    ensures CleanRun(run) ==> ProperStore(db.view) && All(Storable, db.Entries())
  {
    db := new RedisDb(hash);
    replies := ServeRun(db, run, garbage, spare);
    if CleanRun(run) {
      RunKeeps(true, map[], run);
      db.KeyAccounting();
      ProperIsStorable(db.Entries());
    }
  }

  /** The bytes of a database's snapshot. */
  ghost function SavedBytes(db: RedisDb): Bytes
    requires db.h.Shape()
    reads db, db.h, db.h.flags, db.h.keys, db.h.vals
  {
    SaveBytes(db.Entries(), db.keyCount, db.expiryCount)
  }

  /** The entries can be stored, are small in number, and are all kept by a snapshot. */
  ghost function KeptWhole(db: RedisDb): Verdict
    requires db.h.Shape()
    reads db, db.h, db.h.flags, db.h.keys, db.h.vals
  {
    if All(Storable, db.Entries()) && db.keyCount <= 255 && All(Kept, db.Entries()) then Met else Unmet
  }

  method SaveToNew(db: RedisDb) returns (file: RdbFile)
    requires db.Valid()
    ensures fresh(file) && file.Valid() && file.Rest() == SavedBytes(db)
  {
    file := new RdbFile([]);
    Save(db, file);
  }

  method LoadIntoNew(file: RdbFile, hash: Bytes -> nat, ghost spare: nat) returns (db: RedisDb, code: int)
    requires file.Valid() && |file.Rest()| + spare <= 0x1000_0000
    modifies file`pos
    ensures db.Ready(spare) == Met && Own(db) && LoadBytes(old(file.Rest()), map[]) == Loaded(code, db.view)
  {
    db := new RedisDb(hash);
    code := Load(file, db, spare);
  }

  /**
   A database is saved and loaded into an empty one: what comes back is what the bytes say, and it is the same
   store, with success, exactly if it has at most 255 keys and a snapshot keeps every entry. The new database
   shares nothing with the old one and is ready to serve.
   */
  method Restart(db: RedisDb, hash: Bytes -> nat, ghost spare: nat) returns (db': RedisDb, code: int)
    requires db.Valid() && |SavedBytes(db)| + spare <= 0x1000_0000
    ensures db'.Ready(spare) == Met && Own(db') && LoadBytes(SavedBytes(db), map[]) == Loaded(code, db'.view)
    ensures All(Storable, db.Entries()) && (db.keyCount > 255 ==> All(Dear, db.Entries())) ==>
              (code == 0 && db'.view == db.view <==> db.keyCount <= 255 && All(Kept, db.Entries()))
  {
    if All(Storable, db.Entries()) && (db.keyCount > 255 ==> All(Dear, db.Entries())) { SavedLoadsIff(db); }
    var file := SaveToNew(db);
    db', code := LoadIntoNew(file, hash, spare);
  }

  method RestartKept(db: RedisDb, hash: Bytes -> nat, ghost spare: nat) returns (db': RedisDb, code: int)
    requires db.Valid() && |SavedBytes(db)| + spare <= 0x1000_0000
    ensures db'.Ready(spare) == Met && Own(db') && (old(KeptWhole(db)) == Met ==> code == 0 && db'.view == db.view)
  {
    db', code := Restart(db, hash, spare);
  }

  lemma {:induction false} RunInTwo(lazy: bool, db: Db, before: seq<Timed>, after: seq<Timed>)
    ensures Replies(lazy, db, before + after)
      == Replies(lazy, db, before) + Replies(lazy, Final(lazy, db, before), after)
    decreases |before|
  {
    if before == [] {
      assert before + after == after;
    } else {
      var r := RunCommand(lazy, db, before[0].0, before[0].1);
      assert (before + after)[1..] == before[1..] + after;
      RunInTwo(lazy, r.db, before[1..], after);
    }
  }

  lemma {:induction false} FinalInTwo(lazy: bool, db: Db, before: seq<Timed>, after: seq<Timed>)
    ensures Final(lazy, db, before + after) == Final(lazy, Final(lazy, db, before), after)
    decreases |before|
  {
    if before == [] {
      assert before + after == after;
    } else {
      assert (before + after)[1..] == before[1..] + after;
      FinalInTwo(lazy, RunCommand(lazy, db, before[0].0, before[0].1).db, before[1..], after);
    }
  }

  lemma {:induction false} InTwo(before: seq<Timed>, run: seq<Timed>)
    ensures var db := Final(true, map[], before);
      && Final(true, map[], before + run) == Final(true, db, run)
      && Replies(true, map[], before + run) == Replies(true, map[], before) + Replies(true, db, run)
      && (NeverBack(before + run) ==> Replies(true, map[], before + run) == Replies(false, map[], before + run))
  {
    RunInTwo(true, map[], before, run);
    FinalInTwo(true, map[], before, run);
    ClockedReplies(map[], before + run);
  }

  /** A run after a restart that kept the store is served as one without the restart would be. */
  method ServeRestarted(db: RedisDb, hash: Bytes -> nat, run: seq<Timed>, garbage: seq<nat>, ghost spare: nat)
    returns (db': RedisDb, code: int, replies: seq<Reply>)
    requires db.Valid() && |garbage| == |run| && |SavedBytes(db)| + (ArgCount(run) + spare) <= 0x1000_0000
    ensures db'.Ready(spare) == Met && Own(db')
    ensures old(KeptWhole(db)) == Met ==>
              code == 0 && replies == Replies(true, db.view, run) && db'.view == Final(true, db.view, run)
  {
    db', code := RestartKept(db, hash, ArgCount(run) + spare);
    replies := ServeRun(db', run, garbage, spare);
  }

  /**
   A restart cannot be observed if it keeps the store: the replies to the commands after it, behind those to the
   commands before it, are those of one run over a store that is never restarted and never deletes an expired
   entry.
   */
  method RestartAndServe(db: RedisDb, hash: Bytes -> nat, run: seq<Timed>, garbage: seq<nat>,
                         ghost before: seq<Timed>, ghost spare: nat)
    returns (db': RedisDb, code: int, replies: seq<Reply>)
    requires db.Valid() && |garbage| == |run| && |SavedBytes(db)| + (ArgCount(run) + spare) <= 0x1000_0000
    requires db.view == Final(true, map[], before)
    ensures db'.Ready(spare) == Met && Own(db')
    ensures old(KeptWhole(db)) == Met ==>
              && code == 0 && db'.view == Final(true, map[], before + run)
              && Replies(true, map[], before) + replies == Replies(true, map[], before + run)
              && (NeverBack(before + run) ==>
                    Replies(true, map[], before) + replies == Replies(false, map[], before + run))
  {
    InTwo(before, run);
    db', code, replies := ServeRestarted(db, hash, run, garbage, spare);
  }
}

/**
 The contents of an open-addressing table as values: which slots hold an entry, the map those
 slots represent, and when a probe walk from the key's home bucket reaches an entry.
 */
module Table {
  import opened Bits
  import opened Probing
  import opened Flags
  import opened Seals

  ghost function LiveSet(fl: seq<Flag>): (r: set<nat>) {
    set i: nat | i < |fl| && fl[i].Live()
  }

  ghost function NonEmptySet(fl: seq<Flag>): (r: set<nat>) {
    set i: nat | i < |fl| && !fl[i].empty
  }

  ghost predicate AllEmpty(fl: seq<Flag>) {
    forall i :: 0 <= i < |fl| ==> fl[i] == EMPTY
  }

  /** No bucket is marked empty and deleted at once. */
  ghost predicate Exclusive(fl: seq<Flag>) {
    forall i :: 0 <= i < |fl| ==> !(fl[i].empty && fl[i].del)
  }

  /** Some slot holds key `k`. */
  ghost predicate Located<K>(occ: set<nat>, keys: seq<K>, k: K)
    requires forall i :: i in occ ==> i < |keys|
  {
    exists i :: i in occ && keys[i] == k
  }

  /** The slots `occ` hold the entries of `m`, each key once. */
  ghost predicate Holds<K, V>(occ: set<nat>, keys: seq<K>, vals: seq<V>, m: map<K, V>) {
    && |keys| == |vals|
    && (forall i :: i in occ ==> i < |keys|)
    && (forall i {:trigger keys[i]} :: i in occ ==> keys[i] in m && m[keys[i]] == vals[i])
    && (forall i, j {:trigger keys[i], keys[j]} :: i in occ && j in occ && keys[i] == keys[j] ==> i == j)
    && (forall k {:trigger Located(occ, keys, k)} :: k in m ==> Located(occ, keys, k))
  }

  /** Bucket `Probe(h, s, n)` is on the walk from home: nothing before it on the walk is empty. */
  ghost predicate Walk(fl: seq<Flag>, h: nat, s: nat)
    requires |fl| > 0
  {
    s < |fl| && forall t: nat :: t < s ==> !fl[Probe(h, t, |fl|)].empty
  }

  ghost predicate Reaches(fl: seq<Flag>, h: nat, i: nat)
    requires |fl| > 0
  {
    exists s: nat :: Walk(fl, h, s) && Probe(h, s, |fl|) == i
  }

  ghost predicate AllReachable<K>(hash: K -> nat, occ: set<nat>, fl: seq<Flag>, keys: seq<K>)
    requires |fl| > 0
  {
    forall i {:trigger Reaches(fl, hash(keys[i]), i)} :: i in occ && i < |keys| ==> Reaches(fl, hash(keys[i]), i)
  }

  /** The table's buckets store `m` and every entry can be reached. */
  ghost predicate Stores<K, V>(hash: K -> nat, fl: seq<Flag>, keys: seq<K>, vals: seq<V>, m: map<K, V>) {
    && |fl| > 0 && IsPow2(|fl|)
    && |keys| == |fl|
    && Exclusive(fl)
    && Holds(LiveSet(fl), keys, vals, m)
    && AllReachable(hash, LiveSet(fl), fl, keys)
  }

  // ------------------------------------------------------------------ counting

  lemma {:induction false} SlotsBelow(occ: set<nat>, n: nat)
    requires forall i :: i in occ ==> i < n
    ensures |occ| <= n
  {
    SubsetSize(occ, Below(n));
  }

  lemma {:induction false} RoomLeft(fl: seq<Flag>)
    requires |NonEmptySet(fl)| < |fl|
    ensures exists i: nat :: i < |fl| && fl[i].empty
  {
    if forall i: nat :: i < |fl| ==> !fl[i].empty {
      assert Below(|fl|) <= NonEmptySet(fl);
      SubsetSize(Below(|fl|), NonEmptySet(fl));
      assert false;
    }
  }

  lemma {:induction false} LiveAreNonEmpty(fl: seq<Flag>)
    ensures |LiveSet(fl)| <= |NonEmptySet(fl)| <= |fl|
  {
    SubsetSize(LiveSet(fl), NonEmptySet(fl));
    SlotsBelow(NonEmptySet(fl), |fl|);
  }

  lemma {:induction false} HoldsSize<K, V>(occ: set<nat>, keys: seq<K>, vals: seq<V>, m: map<K, V>)
    requires Holds(occ, keys, vals, m)
    ensures |m| == |occ|
    decreases occ
  {
    if occ == {} {
      if m.Keys != {} {
        var k :| k in m;
        if Located(occ, keys, k) { assert false; }
        assert false;
      }
    } else {
      var i :| i in occ;
      HoldsRemove(occ, keys, vals, m, i);
      HoldsSize(occ - {i}, keys, vals, m - {keys[i]});
      assert (m - {keys[i]}).Keys == m.Keys - {keys[i]};
    }
  }

  // ------------------------------------------------------- updates of the contents

  lemma {:induction false} HoldsRemove<K, V>(occ: set<nat>, keys: seq<K>, vals: seq<V>, m: map<K, V>, i: nat)
    requires Holds(occ, keys, vals, m) && i in occ
    ensures Holds(occ - {i}, keys, vals, m - {keys[i]})
  {
    forall k | k in m - {keys[i]} ensures Located(occ - {i}, keys, k) {
      assert Located(occ, keys, k);
    }
  }

  /** Writing an entry with a new key into an unused slot. */
  lemma {:induction false} HoldsInsert<K, V>(occ: set<nat>, keys: seq<K>, vals: seq<V>, m: map<K, V>, i: nat, k: K,
      v: V)
    requires Holds(occ, keys, vals, m) && i < |keys| && i !in occ && k !in m
    ensures Holds(occ + {i}, keys[i := k], vals[i := v], m[k := v])
  {
    var keys', m' := keys[i := k], m[k := v];
    forall x | x in m' ensures Located(occ + {i}, keys', x) {
      if x == k {
        assert keys'[i] == x;
      } else {
        assert Located(occ, keys, x);
        var j :| j in occ && keys[j] == x;
        assert keys'[j] == x;
      }
    }
  }

  /** Overwriting the value of an entry. */
  lemma {:induction false} HoldsSetValue<K, V>(occ: set<nat>, keys: seq<K>, vals: seq<V>, m: map<K, V>, i: nat, v: V)
    requires Holds(occ, keys, vals, m) && i in occ
    ensures Holds(occ, keys, vals[i := v], m[keys[i] := v])
  {
    forall k | k in m[keys[i] := v] ensures Located(occ, keys, k) {
      assert k in m;
    }
  }

  /** Only the slots in use matter. */
  lemma {:induction false} HoldsSame<K, V>(occ: set<nat>, keys: seq<K>, vals: seq<V>, keys': seq<K>, vals': seq<V>,
      m: map<K, V>)
    requires Holds(occ, keys, vals, m) && |keys'| == |vals'|
    requires forall i :: i in occ ==> i < |keys'| && keys'[i] == keys[i] && vals'[i] == vals[i]
    ensures Holds(occ, keys', vals', m)
  {
    forall k | k in m ensures Located(occ, keys', k) {
      assert Located(occ, keys, k);
      var i :| i in occ && keys[i] == k;
      assert keys'[i] == k;
    }
  }

  // -------------------------------------------------------- reachability and lookup

  /** Filling buckets keeps every walk. */
  lemma {:induction false} ReachesKept(fl: seq<Flag>, fl': seq<Flag>, h: nat, i: nat)
    requires |fl| == |fl'| > 0 && Reaches(fl, h, i)
    requires forall j :: 0 <= j < |fl| && fl'[j].empty ==> fl[j].empty
    ensures Reaches(fl', h, i)
  {
    var s: nat :| Walk(fl, h, s) && Probe(h, s, |fl|) == i;
    assert Walk(fl', h, s);
  }

  /** `walk` names the buckets of the probe walk for hash `h`. */
  ghost predicate IsWalk(walk: nat -> nat, h: nat, n: nat)
    requires n > 0
  {
    forall t: nat {:trigger Probe(h, t, n)} :: walk(t) == Probe(h, t, n)
  }

  /** The steps of the walk below `s` saw only buckets that are in use and do not hold `key`. */
  ghost predicate Missed<K>(fl: seq<Flag>, keys: seq<K>, walk: nat -> nat, key: K, s: nat)
    requires |keys| == |fl|
  {
    forall t: nat :: t < s ==>
      var i := walk(t);
      i < |fl| && !fl[i].empty && (fl[i].del || keys[i] != key)
  }

  lemma {:induction false} StartWalk(h: nat, n: nat, mask: nat) returns (walk: nat -> nat)
    requires n > 0 && IsPow2(n) && mask == n - 1
    ensures IsWalk(walk, h, n)
    ensures And(h, mask) == walk(0) < n
  {
    walk := (t: nat) => Probe(h, t, n);
    var k: nat :| n == Pow2(k);
    ProbeHome(h, n, k);
  }

  /** The probe loop goes past bucket `i`, which does not hold the key, to step `s` of the walk. */
  lemma {:induction false} WalkOn<K>(fl: seq<Flag>, keys: seq<K>, h: nat, walk: nat -> nat, key: K, s: nat, i: nat,
      mask: nat)
    requires |keys| == |fl| > 0 && IsPow2(|fl|) && IsWalk(walk, h, |fl|) && 0 < s < 2 * |fl| && mask == |fl| - 1
    requires Missed(fl, keys, walk, key, s - 1) && i == walk(s - 1)
    requires i < |fl| && !fl[i].empty && (fl[i].del || keys[i] != key)
    ensures Missed(fl, keys, walk, key, s)
    ensures And(i + s, mask) == walk(s) < |fl|
    ensures walk(s) == walk(0) <==> s == 2 * |fl| - 1
  {
    StepOn(h, walk, s, |fl|, mask);
  }

  lemma {:induction false} StepOn(h: nat, walk: nat -> nat, s: nat, n: nat, mask: nat)
    requires n > 0 && IsPow2(n) && IsWalk(walk, h, n) && 0 < s < 2 * n && mask == n - 1
    ensures And(walk(s - 1) + s, mask) == walk(s) < n
    ensures walk(s) == walk(0) <==> s == 2 * n - 1
  {
    NextStep(h, walk, s, n);
    ReturnStep(h, walk, s, n);
  }

  lemma {:induction false} NextStep(h: nat, walk: nat -> nat, s: nat, n: nat)
    requires n > 0 && IsPow2(n) && IsWalk(walk, h, n) && 0 < s
    ensures And(walk(s - 1) + s, n - 1) == walk(s) < n
  {
    ProbeStep(h, s, n);
  }

  lemma {:induction false} ReturnStep(h: nat, walk: nat -> nat, s: nat, n: nat)
    requires n > 0 && IsPow2(n) && IsWalk(walk, h, n) && 0 < s < 2 * n
    ensures walk(s) == walk(0) <==> s == 2 * n - 1
  {
    var k: nat :| n == Pow2(k);
    FirstReturn(h, s, n, k);
  }

  /** A walk that ends at an empty bucket, or has gone round, proves the key absent. */
  lemma {:induction false} MissedMeansAbsent<K, V>(hash: K -> nat, fl: seq<Flag>, keys: seq<K>, vals: seq<V>,
                                                   m: map<K, V>, walk: nat -> nat, key: K, s: nat)
    requires Stores(hash, fl, keys, vals, m) && IsWalk(walk, hash(key), |fl|)
    requires Missed(fl, keys, walk, key, s)
    requires s >= |fl| || (walk(s) < |fl| && fl[walk(s)].empty)
    ensures key !in m
  {
    assert walk(s) == Probe(hash(key), s, |fl|);
    if key in m {
      assert Located(LiveSet(fl), keys, key);
      var i :| i in LiveSet(fl) && keys[i] == key;
      if Reaches(fl, hash(keys[i]), i) {
        assert false;
      }
    }
  }

  /** In a table with an empty bucket, a walk that passed no empty bucket reaches its present one. */
  lemma {:induction false} MissedReaches<K>(fl: seq<Flag>, keys: seq<K>, h: nat, walk: nat -> nat, key: K, s: nat)
    requires |keys| == |fl| > 0 && IsPow2(|fl|) && IsWalk(walk, h, |fl|)
    requires exists i: nat :: i < |fl| && fl[i].empty
    requires Missed(fl, keys, walk, key, s)
    ensures s < |fl| && Reaches(fl, h, walk(s))
  {
    var i: nat :| i < |fl| && fl[i].empty;
    var k: nat :| |fl| == Pow2(k);
    var t := ProbesComplete(h, i, |fl|, k);
    assert walk(t) == i;
    assert s <= t;
    forall r: nat | r < s ensures !fl[Probe(h, r, |fl|)].empty {
      assert walk(r) == Probe(h, r, |fl|);
    }
    assert Walk(fl, h, s);
    assert walk(s) == Probe(h, s, |fl|);
  }

  lemma {:induction false} WalkOnReaches<K>(fl: seq<Flag>, keys: seq<K>, h: nat, walk: nat -> nat, key: K, s: nat,
      i: nat, mask: nat)
    requires |keys| == |fl| > 0 && IsPow2(|fl|) && IsWalk(walk, h, |fl|) && 0 < s <= |fl| && mask == |fl| - 1
    requires exists b: nat :: b < |fl| && fl[b].empty
    requires Missed(fl, keys, walk, key, s - 1) && i == walk(s - 1)
    requires i < |fl| && !fl[i].empty && (fl[i].del || keys[i] != key)
    ensures Missed(fl, keys, walk, key, s)
    ensures And(i + s, mask) == walk(s) < |fl| && walk(s) != walk(0)
    ensures s < |fl| && Reaches(fl, h, walk(s))
  {
    WalkOn(fl, keys, h, walk, key, s, i, mask);
    MissedReaches(fl, keys, h, walk, key, s);
  }

  /** A new key goes into an empty or deleted bucket of its walk. */
  lemma {:induction false} StoresInsert<K, V>(hash: K -> nat, fl: seq<Flag>, keys: seq<K>, vals: seq<V>, m: map<K, V>,
      x: nat, key: K)
    requires Stores(hash, fl, keys, vals, m) && key !in m
    requires x < |fl| && !fl[x].Live() && Reaches(fl, hash(key), x)
    ensures Stores(hash, fl[x := LIVE], keys[x := key], vals, m[key := vals[x]])
    ensures LiveSet(fl[x := LIVE]) == LiveSet(fl) + {x}
    ensures NonEmptySet(fl[x := LIVE]) == NonEmptySet(fl) + {x}
  {
    var fl', keys' := fl[x := LIVE], keys[x := key];
    assert LiveSet(fl') == LiveSet(fl) + {x};
    assert NonEmptySet(fl') == NonEmptySet(fl) + {x};
    HoldsInsert(LiveSet(fl), keys, vals, m, x, key, vals[x]);
    assert vals[x := vals[x]] == vals;
    forall b | b in LiveSet(fl') && b < |keys'| ensures Reaches(fl', hash(keys'[b]), b) {
      ReachesKept(fl, fl', hash(keys'[b]), b);
    }
  }

  /** Marking a live bucket deleted removes its key and keeps every other walk. */
  lemma {:induction false} StoresDelete<K, V>(hash: K -> nat, fl: seq<Flag>, keys: seq<K>, vals: seq<V>, m: map<K, V>,
      x: nat)
    requires Stores(hash, fl, keys, vals, m) && x in LiveSet(fl)
    ensures Stores(hash, fl[x := DELETED], keys, vals, m - {keys[x]})
    ensures LiveSet(fl[x := DELETED]) == LiveSet(fl) - {x}
    ensures NonEmptySet(fl[x := DELETED]) == NonEmptySet(fl)
  {
    var fl' := fl[x := DELETED];
    assert LiveSet(fl') == LiveSet(fl) - {x};
    assert NonEmptySet(fl') == NonEmptySet(fl);
    HoldsRemove(LiveSet(fl), keys, vals, m, x);
    forall b | b in LiveSet(fl') && b < |keys| ensures Reaches(fl', hash(keys[b]), b) {
      ReachesKept(fl, fl', hash(keys[b]), b);
    }
  }

  // ------------------------------------------------------------- the in-place rehash

  /**
   One state of the rehash. Buckets live in `old` still hold entries of the old table, buckets
   non-empty in `nw` hold entries of the new one, both in the same arrays; no bucket is both.
   Together they hold `slots`; the entry in hand, if any, is not among them.
   */
  ghost predicate Rehashing<K, V>(hash: K -> nat, old': seq<Flag>, nw: seq<Flag>, keys: seq<K>, vals: seq<V>,
      slots: map<K, V>) {
    && |old'| <= |keys| && 0 < |nw| <= |keys| && IsPow2(|nw|)
    && (forall i :: 0 <= i < |nw| ==> nw[i] == EMPTY || nw[i] == LIVE)
    && LiveSet(old') !! NonEmptySet(nw)
    && Holds(LiveSet(old') + NonEmptySet(nw), keys, vals, slots)
    && AllReachable(hash, NonEmptySet(nw), nw, keys)
  }

  /** An entry of the old table is taken in hand and its bucket marked deleted. */
  lemma {:induction false} RehashTake<K, V>(hash: K -> nat, old': seq<Flag>, nw: seq<Flag>, keys: seq<K>, vals: seq<V>,
                                            slots: map<K, V>, j: nat, f: Flag)
    requires Rehashing(hash, old', nw, keys, vals, slots) && j in LiveSet(old') && !f.Live()
    ensures Rehashing(hash, old'[j := f], nw, keys, vals, slots - {keys[j]})
    ensures LiveSet(old'[j := f]) == LiveSet(old') - {j}
  {
    assert LiveSet(old'[j := f]) == LiveSet(old') - {j};
    HoldsRemove(LiveSet(old') + NonEmptySet(nw), keys, vals, slots, j);
    assert LiveSet(old'[j := f]) + NonEmptySet(nw) == (LiveSet(old') + NonEmptySet(nw)) - {j};
  }

  /** The entry in hand is written to the first empty bucket of its walk in the new table. */
  lemma {:induction false} RehashPlace<K, V>(hash: K -> nat, old': seq<Flag>, nw: seq<Flag>, keys: seq<K>, vals: seq<V>,
                                             slots: map<K, V>, i: nat, key: K, val: V)
    requires Rehashing(hash, old', nw, keys, vals, slots)
    requires i < |nw| && nw[i].empty && i !in LiveSet(old') && key !in slots
    requires Reaches(nw, hash(key), i)
    ensures Rehashing(hash, old', nw[i := LIVE], keys[i := key], vals[i := val], slots[key := val])
    ensures NonEmptySet(nw[i := LIVE]) == NonEmptySet(nw) + {i}
  {
    var nw', keys' := nw[i := LIVE], keys[i := key];
    assert NonEmptySet(nw') == NonEmptySet(nw) + {i};
    HoldsInsert(LiveSet(old') + NonEmptySet(nw), keys, vals, slots, i, key, val);
    assert LiveSet(old') + NonEmptySet(nw') == LiveSet(old') + NonEmptySet(nw) + {i};
    forall b | b in NonEmptySet(nw') && b < |keys'| ensures Reaches(nw', hash(keys'[b]), b) {
      ReachesKept(nw, nw', hash(keys'[b]), b);
    }
  }

  /** The bucket still holds an old entry: that one is taken in hand and the new one written. */
  lemma {:induction false} RehashSwap<K, V>(hash: K -> nat, old': seq<Flag>, nw: seq<Flag>, keys: seq<K>, vals: seq<V>,
                                            slots: map<K, V>, i: nat, f: Flag, key: K, val: V, slots': map<K, V>)
    requires Rehashing(hash, old', nw, keys, vals, slots)
    requires i < |nw| && nw[i].empty && i in LiveSet(old') && !f.Live() && key !in slots
    requires Reaches(nw, hash(key), i)
    requires slots' == (slots - {keys[i]})[key := val]
    ensures Rehashing(hash, old'[i := f], nw[i := LIVE], keys[i := key], vals[i := val], slots')
    ensures LiveSet(old'[i := f]) < LiveSet(old')
    ensures keys[i] !in slots' && slots'[keys[i] := vals[i]] == slots[key := val] && |slots'| == |slots|
  {
    RehashTake(hash, old', nw, keys, vals, slots, i, f);
    RehashPlace(hash, old'[i := f], nw, keys, vals, slots - {keys[i]}, i, key, val);
    assert keys[i] in slots && slots[keys[i]] == vals[i];
    assert slots'.Keys == slots.Keys - {keys[i]} + {key};
    assert slots'[keys[i] := vals[i]] == slots[key := val];
  }

  /** With an entry in hand the new table still has an empty bucket. */
  lemma {:induction false} RehashRoom<K, V>(hash: K -> nat, old': seq<Flag>, nw: seq<Flag>, keys: seq<K>, vals: seq<V>,
      slots: map<K, V>)
    requires Rehashing(hash, old', nw, keys, vals, slots) && |slots| < |nw|
    ensures exists i: nat :: i < |nw| && nw[i].empty
    ensures |slots| == |LiveSet(old')| + |NonEmptySet(nw)|
  {
    HoldsSize(LiveSet(old') + NonEmptySet(nw), keys, vals, slots);
    RoomLeft(nw);
  }

  lemma {:induction false} RehashStart<K, V>(hash: K -> nat, fl: seq<Flag>, nw: seq<Flag>, keys: seq<K>, vals: seq<V>,
      m: map<K, V>)
    requires |fl| <= |keys| == |vals| && 0 < |nw| <= |keys| && IsPow2(|nw|) && AllEmpty(nw)
    requires Holds(LiveSet(fl), keys[..|fl|], vals[..|fl|], m)
    ensures Rehashing(hash, fl, nw, keys, vals, m)
  {
    assert NonEmptySet(nw) == {};
    assert LiveSet(fl) + NonEmptySet(nw) == LiveSet(fl);
    HoldsSame(LiveSet(fl), keys[..|fl|], vals[..|fl|], keys, vals, m);
  }

  lemma {:induction false} RehashDone<K, V>(hash: K -> nat, old': seq<Flag>, nw: seq<Flag>, keys: seq<K>, vals: seq<V>,
      m: map<K, V>)
    requires Rehashing(hash, old', nw, keys, vals, m) && LiveSet(old') == {}
    ensures Stores(hash, nw, keys[..|nw|], vals[..|nw|], m)
    ensures |LiveSet(nw)| == |NonEmptySet(nw)| == |m|
  {
    assert LiveSet(nw) == NonEmptySet(nw);
    assert LiveSet(old') + NonEmptySet(nw) == LiveSet(nw);
    HoldsSize(LiveSet(nw), keys, vals, m);
    HoldsSame(LiveSet(nw), keys, vals, keys[..|nw|], vals[..|nw|], m);
  }

  // ------------------------------------------------------- the invariant of the table

  /** `(khint_t)(n * 0.77 + 0.5)` */
  function UpperBound(n: nat): nat { (77 * n + 50) / 100 }

  /** The invariant of every reachable table: the stored map, the counters and the load bound. */
  ghost predicate Consistent<K, V>(hash: K -> nat, fl: seq<Flag>, keys: seq<K>, vals: seq<V>, m: map<K, V>,
                                   size: nat, nOccupied: nat) {
    && |keys| == |vals| == |fl|
    && size == |LiveSet(fl)| == |m|
    && nOccupied == |NonEmptySet(fl)|
    && size <= nOccupied <= UpperBound(|fl|)
    && (|fl| == 0 ==> m == map[])
    && (|fl| > 0 ==> 4 <= |fl| && UpperBound(|fl|) < |fl| && Stores(hash, fl, keys, vals, m))
  }

  datatype TableKey = TableKey

  /** The invariant, sealed. */
  ghost predicate Sealed<K, V>(hash: K -> nat, fl: seq<Flag>, keys: seq<K>, vals: seq<V>, m: map<K, V>,
                               size: nat, nOccupied: nat) {
    forall k: TableKey {:trigger Opened(k)} :: Opened(k) ==> Consistent(hash, fl, keys, vals, m, size, nOccupied)
  }

  lemma {:induction false} SealedHolds<K, V>(hash: K -> nat, fl: seq<Flag>, keys: seq<K>, vals: seq<V>, m: map<K, V>,
                                             size: nat, nOccupied: nat)
    requires Sealed(hash, fl, keys, vals, m, size, nOccupied)
    ensures Holds(LiveSet(fl), keys, vals, m) && |LiveSet(fl)| == |m| == size
  {
    assert Opened(TableKey);
  }

  /** The load bound: live buckets, buckets in use, upper bound and number of buckets are ordered so. */
  lemma {:induction false} SealedBounds<K, V>(hash: K -> nat, fl: seq<Flag>, keys: seq<K>, vals: seq<V>, m: map<K, V>,
                                              size: nat, nOccupied: nat)
    requires Sealed(hash, fl, keys, vals, m, size, nOccupied)
    ensures size <= nOccupied <= UpperBound(|fl|)
    ensures |fl| > 0 ==> 4 <= |fl| && IsPow2(|fl|) && UpperBound(|fl|) < |fl|
  {
    assert Opened(TableKey);
  }

  lemma {:induction false} RebuiltConsistent<K, V>(hash: K -> nat, fl: seq<Flag>, keys: seq<K>, vals: seq<V>,
      m: map<K, V>, size: nat)
    requires Stores(hash, fl, keys, vals, m) && |vals| == |fl|
    requires |LiveSet(fl)| == |NonEmptySet(fl)| == |m| == size <= UpperBound(|fl|) < |fl| && 4 <= |fl|
    ensures Consistent(hash, fl, keys, vals, m, size, size)
  {
  }

  lemma {:induction false} InsertConsistent<K, V>(hash: K -> nat, fl: seq<Flag>, keys: seq<K>, vals: seq<V>,
      m: map<K, V>,
                                                  size: nat, nOccupied: nat, x: nat, key: K)
    requires Consistent(hash, fl, keys, vals, m, size, nOccupied) && nOccupied < UpperBound(|fl|)
    requires x < |fl| && !fl[x].Live() && Reaches(fl, hash(key), x) && key !in m
    ensures Consistent(hash, fl[x := LIVE], keys[x := key], vals, m[key := vals[x]],
                       size + 1, if fl[x].empty then nOccupied + 1 else nOccupied)
  {
    StoresInsert(hash, fl, keys, vals, m, x, key);
    InsertCounts(fl, x);
    MapGrows(m, key, vals[x]);
  }

  lemma {:induction false} MapGrows<K, V>(m: map<K, V>, key: K, v: V)
    requires key !in m
    ensures |m[key := v]| == |m| + 1
  {
    assert m[key := v].Keys == m.Keys + {key};
  }

  lemma {:induction false} InsertCounts(fl: seq<Flag>, x: nat)
    requires x < |fl| && !fl[x].Live()
    ensures |LiveSet(fl[x := LIVE])| == |LiveSet(fl)| + 1
    ensures |NonEmptySet(fl[x := LIVE])| == |NonEmptySet(fl)| + if fl[x].empty then 1 else 0
    ensures |LiveSet(fl[x := LIVE])| <= |NonEmptySet(fl[x := LIVE])|
  {
    assert LiveSet(fl[x := LIVE]) == LiveSet(fl) + {x} && x !in LiveSet(fl);
    assert NonEmptySet(fl[x := LIVE]) == NonEmptySet(fl) + {x};
    if !fl[x].empty { assert NonEmptySet(fl) + {x} == NonEmptySet(fl); }
    LiveAreNonEmpty(fl[x := LIVE]);
  }

  lemma {:induction false} DeleteConsistent<K, V>(hash: K -> nat, fl: seq<Flag>, keys: seq<K>, vals: seq<V>,
      m: map<K, V>,
                                                  size: nat, nOccupied: nat, x: nat)
    requires Consistent(hash, fl, keys, vals, m, size, nOccupied) && x < |fl| && fl[x].Live()
    ensures keys[x] in m && size > 0
    ensures Consistent(hash, fl[x := DELETED], keys, vals, m - {keys[x]}, size - 1, nOccupied)
  {
    assert x in LiveSet(fl);
    StoresDelete(hash, fl, keys, vals, m, x);
    assert (m - {keys[x]}).Keys == m.Keys - {keys[x]};
  }

  lemma {:induction false} SetValueConsistent<K, V>(hash: K -> nat, fl: seq<Flag>, keys: seq<K>, vals: seq<V>,
      m: map<K, V>,
                                                    size: nat, nOccupied: nat, x: nat, v: V)
    requires Consistent(hash, fl, keys, vals, m, size, nOccupied) && x < |fl| && fl[x].Live()
    ensures Consistent(hash, fl, keys, vals[x := v], m[keys[x] := v], size, nOccupied)
  {
    assert x in LiveSet(fl);
    HoldsSetValue(LiveSet(fl), keys, vals, m, x, v);
    assert m[keys[x] := v].Keys == m.Keys;
  }

  // ------------------------------------------- the same for the sealed invariant

  lemma {:induction false} SealedInsert<K, V>(hash: K -> nat, fl: seq<Flag>, keys: seq<K>, vals: seq<V>, m: map<K, V>,
                                              size: nat, nOccupied: nat, x: nat, key: K)
    requires Sealed(hash, fl, keys, vals, m, size, nOccupied) && nOccupied < UpperBound(|fl|)
    requires x < |fl| == |keys| == |vals| && !fl[x].Live() && Reaches(fl, hash(key), x) && key !in m
    ensures Sealed(hash, fl[x := LIVE], keys[x := key], vals, m[key := vals[x]],
                   size + 1, if fl[x].empty then nOccupied + 1 else nOccupied)
    ensures |m[key := vals[x]]| == |m| + 1
  {
    assert Opened(TableKey);
    InsertConsistent(hash, fl, keys, vals, m, size, nOccupied, x, key);
  }

  lemma {:induction false} SealedDelete<K, V>(hash: K -> nat, fl: seq<Flag>, keys: seq<K>, vals: seq<V>, m: map<K, V>,
                                              size: nat, nOccupied: nat, x: nat)
    requires Sealed(hash, fl, keys, vals, m, size, nOccupied) && x < |fl| == |keys| == |vals| && fl[x].Live()
    ensures keys[x] in m && size > 0 && |m - {keys[x]}| == size - 1
    ensures Sealed(hash, fl[x := DELETED], keys, vals, m - {keys[x]}, size - 1, nOccupied)
  {
    assert Opened(TableKey);
    DeleteConsistent(hash, fl, keys, vals, m, size, nOccupied, x);
  }

  lemma {:induction false} SealedSetValue<K, V>(hash: K -> nat, fl: seq<Flag>, keys: seq<K>, vals: seq<V>, m: map<K, V>,
                                                size: nat, nOccupied: nat, x: nat, v: V)
    requires Sealed(hash, fl, keys, vals, m, size, nOccupied) && x < |fl| == |keys| == |vals| && fl[x].Live()
    ensures keys[x] in m && |m[keys[x] := v]| == size
    ensures Sealed(hash, fl, keys, vals[x := v], m[keys[x] := v], size, nOccupied)
  {
    assert Opened(TableKey);
    SetValueConsistent(hash, fl, keys, vals, m, size, nOccupied, x, v);
    assert x in LiveSet(fl);
  }
}

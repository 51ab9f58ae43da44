/**
 The open-addressing hash table: lookup, insertion with tombstone reuse, deletion and the
 in-place rehash, refining the mathematical map `m`.
 */
module KHash {
  import opened Bits
  import opened Flags
  import opened Seals
  import opened Table

  /** The bucket count that a resize request leads to. */
  function NewSize(requested: nat): nat
    requires requested < TWO32
  {
    if RoundUp32(requested) < 4 then 4 else RoundUp32(requested)
  }

  datatype SizeKey = SizeKey

  /** A request for `requested` buckets is rounded to `n`, sealed. */
  ghost predicate RoundsTo(requested: nat, n: nat)
    requires requested < TWO32
  {
    forall k: SizeKey {:trigger Opened(k)} :: Opened(k) ==> NewSize(requested) == n
  }

  /** The bucket at which the walk for `key` stops: it is empty or holds the key. */
  ghost predicate Stops<K>(fl: seq<Flag>, keys: seq<K>, key: K, i: nat)
    requires |keys| == |fl|
  {
    i < |fl| && (fl[i].empty || (!fl[i].del && keys[i] == key))
  }

  /** The loop of `kh_get`. */
  method ProbeFor<K(==)>(flags: array<nat>, keys: array<K>, n: nat, h: nat, key: K)
    returns (i: nat, wrapped: bool, ghost walk: nat -> nat, ghost s: nat)
    requires n > 0 && IsPow2(n) && keys.Length == n && Covers(flags[..], n)
    ensures IsWalk(walk, h, n) && Missed(Unpack(flags[..], n), keys[..], walk, key, s)
    ensures wrapped ==> s == 2 * n - 1
    ensures !wrapped ==> i == walk(s) && Stops(Unpack(flags[..], n), keys[..], key, i)
  {
    ghost var fl, ks := Unpack(flags[..], n), keys[..];
    var mask: nat, step: nat := n - 1, 0;
    walk := StartWalk(h, n, mask);
    i := And(h, mask);
    var last := i;
    while !IsEmpty(flags[..], i) && (IsDel(flags[..], i) || keys[i] != key)
      invariant step < 2 * n - 1 && i == walk(step) < n
      invariant Missed(fl, ks, walk, key, step)
      decreases 2 * n - step
    {
      step := step + 1;
      WalkOn(fl, ks, h, walk, key, step, i, mask);
      i := And(i + step, mask);
      if i == last {
        return i, true, walk, step;
      }
    }
    return i, false, walk, step;
  }

  /** A deleted bucket on the walk, or none. */
  ghost predicate SiteOk(fl: seq<Flag>, h: nat, site: int)
    requires |fl| > 0
  {
    site == |fl| || (0 <= site < |fl| && fl[site].del && Reaches(fl, h, site))
  }

  /** The loop of `kh_put`: `site` is the last deleted bucket passed. It never goes all the way round. */
  method ProbePast<K(==)>(flags: array<nat>, keys: array<K>, n: nat, h: nat, key: K, first: nat, ghost walk: nat -> nat)
    returns (i: nat, site: int, wrapped: bool, ghost s: nat)
    requires n > 0 && IsPow2(n) && keys.Length == n && Covers(flags[..], n)
    requires exists b: nat :: b < n && Unpack(flags[..], n)[b].empty
    requires IsWalk(walk, h, n) && first == walk(0) < n && Reaches(Unpack(flags[..], n), h, first)
    ensures !wrapped && IsWalk(walk, h, n) && Missed(Unpack(flags[..], n), keys[..], walk, key, s)
    ensures i == walk(s) && Stops(Unpack(flags[..], n), keys[..], key, i) && Reaches(Unpack(flags[..], n), h, i)
    ensures SiteOk(Unpack(flags[..], n), h, site)
  {
    ghost var fl, ks := Unpack(flags[..], n), keys[..];
    var mask: nat, step: nat := n - 1, 0;
    i, site, wrapped := first, n, false;
    while !IsEmpty(flags[..], i) && (IsDel(flags[..], i) || keys[i] != key)
      invariant step < n && i == walk(step) < n && Reaches(fl, h, i)
      invariant Missed(fl, ks, walk, key, step) && SiteOk(fl, h, site) && !wrapped
      decreases n - step
    {
      if IsDel(flags[..], i) { site := i; }
      step := step + 1;
      WalkOnReaches(fl, ks, h, walk, key, step, i, mask);
      i := And(i + step, mask);
      if i == first { wrapped := true; break; }
    }
    s := step;
  }

  /**
   The search of `kh_put`: `i` is the bucket at which the walk stops, `x` the bucket to use,
   which is the last deleted bucket passed when the walk stops at an empty one.
   */
  method ProbeForSlot<K(==)>(flags: array<nat>, keys: array<K>, n: nat, h: nat, key: K)
    returns (x: int, i: nat, ghost walk: nat -> nat, ghost s: nat)
    requires n > 0 && IsPow2(n) && keys.Length == n && Covers(flags[..], n)
    requires exists b: nat :: b < n && Unpack(flags[..], n)[b].empty
    ensures IsWalk(walk, h, n) && Missed(Unpack(flags[..], n), keys[..], walk, key, s)
    ensures i == walk(s) && Stops(Unpack(flags[..], n), keys[..], key, i)
    ensures 0 <= x < n
    ensures !Unpack(flags[..], n)[i].empty ==> x == i
    ensures Unpack(flags[..], n)[i].empty ==> !Unpack(flags[..], n)[x].Live() && Reaches(Unpack(flags[..], n), h, x)
  {
    var mask: nat := n - 1;
    walk := StartWalk(h, n, mask);
    i := And(h, mask);
    MissedReaches(Unpack(flags[..], n), keys[..], h, walk, key, 0);
    x, s := n, 0;
    if IsEmpty(flags[..], i) {
      x := i;
    } else {
      var site, wrapped;
      i, site, wrapped, s := ProbePast(flags, keys, n, h, key, i, walk);
      if wrapped { x := site; }
      if x == n {
        if IsEmpty(flags[..], i) && site != n { x := site; } else { x := i; }
      }
    }
  }

  /** The loop that finds the first empty bucket of the new table on the walk for hash `h`. */
  method FirstEmpty(flags: array<nat>, n: nat, h: nat) returns (i: nat)
    requires n > 0 && IsPow2(n) && Covers(flags[..], n)
    requires exists b: nat :: b < n && Unpack(flags[..], n)[b].empty
    ensures i < n && Unpack(flags[..], n)[i].empty && Reaches(Unpack(flags[..], n), h, i)
  {
    ghost var fl := Unpack(flags[..], n);
    ghost var none := seq(n, _ => false);
    var mask: nat, step: nat := n - 1, 0;
    ghost var walk := StartWalk(h, n, mask);
    i := And(h, mask);
    MissedReaches(fl, none, h, walk, true, 0);
    while !IsEmpty(flags[..], i)
      invariant step < n && i == walk(step) < n && Reaches(fl, h, i)
      invariant Missed(fl, none, walk, true, step)
      decreases n - step
    {
      step := step + 1;
      WalkOnReaches(fl, none, h, walk, true, step, i, mask);
      i := And(i + step, mask);
    }
  }

  /** The arrays a rehash works on are four different objects and the flags cover their tables. */
  ghost predicate Separate<K, V>(oldFlags: array<nat>, n: nat, newFlags: array<nat>, n': nat, keys: array<K>,
      vals: array<V>)
    reads oldFlags, newFlags
  {
    && oldFlags != newFlags && oldFlags as object != keys && oldFlags as object != vals
    && newFlags as object != keys && newFlags as object != vals && keys as object != vals
    && Covers(oldFlags[..], n) && Covers(newFlags[..], n')
  }

  /**
   One round of the kick-out loop: the entry in hand is written to its new bucket; if that bucket
   still holds an entry of the old table, that entry is taken in hand and the loop goes on.
   */
  method KickOnce<K, V>(hash: K -> nat, oldFlags: array<nat>, n: nat, newFlags: array<nat>, n': nat,
                        keys: array<K>, vals: array<V>, key: K, val: V, ghost slots: map<K, V>)
    returns (more: bool, nextKey: K, nextVal: V, ghost slots': map<K, V>)
    requires Separate(oldFlags, n, newFlags, n', keys, vals)
    requires Rehashing(hash, Unpack(oldFlags[..], n), Unpack(newFlags[..], n'), keys[..], vals[..], slots)
    requires key !in slots && |slots| < n'
    modifies oldFlags, newFlags, keys, vals
    ensures Separate(oldFlags, n, newFlags, n', keys, vals)
    ensures Rehashing(hash, Unpack(oldFlags[..], n), Unpack(newFlags[..], n'), keys[..], vals[..], slots')
    ensures !more ==> slots' == slots[key := val]
    ensures !more ==> LiveSet(Unpack(oldFlags[..], n)) == old(LiveSet(Unpack(oldFlags[..], n)))
    ensures more ==> LiveSet(Unpack(oldFlags[..], n)) < old(LiveSet(Unpack(oldFlags[..], n)))
    ensures more ==> nextKey !in slots' && slots'[nextKey := nextVal] == slots[key := val] && |slots'| == |slots|
  {
    ghost var ofl, nfl, ks, vs := Unpack(oldFlags[..], n), Unpack(newFlags[..], n'), keys[..], vals[..];
    RehashRoom(hash, ofl, nfl, ks, vs, slots);
    var i := FirstEmpty(newFlags, n', hash(key));
    SetEmptyFalse(newFlags, i, n');
    nextKey, nextVal := keys[i], vals[i];
    keys[i], vals[i] := key, val;
    assert keys[..] == ks[i := key] && vals[..] == vs[i := val];
    more := i < n && !IsEither(oldFlags[..], i);
    if more {
      slots' := (slots - {nextKey})[key := val];
      RehashSwap(hash, ofl, nfl, ks, vs, slots, i, ofl[i].(del := true), key, val, slots');
      SetDelTrue(oldFlags, i, n);
    } else {
      slots' := slots[key := val];
      RehashPlace(hash, ofl, nfl, ks, vs, slots, i, key, val);
    }
  }

  /** The kick-out loop. */
  method KickOut<K, V>(hash: K -> nat, oldFlags: array<nat>, n: nat, newFlags: array<nat>, n': nat,
                       keys: array<K>, vals: array<V>, key0: K, val0: V, ghost slots0: map<K, V>)
    requires Separate(oldFlags, n, newFlags, n', keys, vals)
    requires Rehashing(hash, Unpack(oldFlags[..], n), Unpack(newFlags[..], n'), keys[..], vals[..], slots0)
    requires key0 !in slots0 && |slots0| < n'
    modifies oldFlags, newFlags, keys, vals
    ensures Separate(oldFlags, n, newFlags, n', keys, vals)
    ensures Rehashing(hash, Unpack(oldFlags[..], n), Unpack(newFlags[..], n'), keys[..], vals[..], slots0[key0 := val0])
    ensures LiveSet(Unpack(oldFlags[..], n)) <= old(LiveSet(Unpack(oldFlags[..], n)))
  {
    var key, val, more := key0, val0, true;
    ghost var slots := slots0;
    while more
      invariant Separate(oldFlags, n, newFlags, n', keys, vals)
      invariant Rehashing(hash, Unpack(oldFlags[..], n), Unpack(newFlags[..], n'), keys[..], vals[..], slots)
      invariant LiveSet(Unpack(oldFlags[..], n)) <= old(LiveSet(Unpack(oldFlags[..], n)))
      invariant more ==> key !in slots && slots[key := val] == slots0[key0 := val0] && |slots| == |slots0|
      invariant !more ==> slots == slots0[key0 := val0]
      decreases more, LiveSet(Unpack(oldFlags[..], n))
    {
      more, key, val, slots := KickOnce(hash, oldFlags, n, newFlags, n', keys, vals, key, val, slots);
    }
  }

  /** The entry in old bucket `j` is taken in hand, and the kick-out loop runs. */
  method MoveEntry<K, V>(hash: K -> nat, oldFlags: array<nat>, n: nat, newFlags: array<nat>, n': nat,
                         keys: array<K>, vals: array<V>, ghost m: map<K, V>, j: nat)
    requires Separate(oldFlags, n, newFlags, n', keys, vals)
    requires Rehashing(hash, Unpack(oldFlags[..], n), Unpack(newFlags[..], n'), keys[..], vals[..], m)
    requires |m| <= n' && j in LiveSet(Unpack(oldFlags[..], n))
    modifies oldFlags, newFlags, keys, vals
    ensures Separate(oldFlags, n, newFlags, n', keys, vals)
    ensures Rehashing(hash, Unpack(oldFlags[..], n), Unpack(newFlags[..], n'), keys[..], vals[..], m)
    ensures LiveSet(Unpack(oldFlags[..], n)) <= old(LiveSet(Unpack(oldFlags[..], n))) - {j}
  {
    ghost var ofl := Unpack(oldFlags[..], n);
    var key, val := keys[j], vals[j];
    TakenBack(m, key, val);
    RehashTake(hash, ofl, Unpack(newFlags[..], n'), keys[..], vals[..], m, j, ofl[j].(del := true));
    SetDelTrue(oldFlags, j, n);
    KickOut(hash, oldFlags, n, newFlags, n', keys, vals, key, val, m - {key});
  }

  /** The rehash loop: every entry of the old table moves to its bucket of the new one. */
  method Rehash<K, V>(hash: K -> nat, oldFlags: array<nat>, n: nat, newFlags: array<nat>, n': nat,
                      keys: array<K>, vals: array<V>, ghost m: map<K, V>)
    requires Separate(oldFlags, n, newFlags, n', keys, vals)
    requires Rehashing(hash, Unpack(oldFlags[..], n), Unpack(newFlags[..], n'), keys[..], vals[..], m)
    requires |m| <= n'
    modifies oldFlags, newFlags, keys, vals
    ensures Separate(oldFlags, n, newFlags, n', keys, vals)
    ensures Rehashing(hash, Unpack(oldFlags[..], n), Unpack(newFlags[..], n'), keys[..], vals[..], m)
    ensures LiveSet(Unpack(oldFlags[..], n)) == {}
  {
    var j: nat := 0;
    while j != n
      invariant j <= n
      invariant Separate(oldFlags, n, newFlags, n', keys, vals)
      invariant Rehashing(hash, Unpack(oldFlags[..], n), Unpack(newFlags[..], n'), keys[..], vals[..], m)
      invariant forall i :: i in LiveSet(Unpack(oldFlags[..], n)) ==> j <= i
    {
      ghost var live := LiveSet(Unpack(oldFlags[..], n));
      if !IsEither(oldFlags[..], j) {
        MoveEntry(hash, oldFlags, n, newFlags, n', keys, vals, m, j);
      }
      assert LiveSet(Unpack(oldFlags[..], n)) <= live - {j};
      j := j + 1;
    }
  }

  lemma {:induction false} TakenBack<K, V>(m: map<K, V>, key: K, val: V)
    requires key in m && m[key] == val
    ensures m == (m - {key})[key := val] && |m - {key}| == |m| - 1
  {
    assert (m - {key}).Keys == m.Keys - {key};
  }

  /** `krealloc` of `a` to `n` elements. */
  method Realloc<T(0)>(a: array<T>, n: nat) returns (b: array<T>)
    ensures fresh(b) && b.Length == n
    ensures n <= a.Length ==> b[..] == a[..n]
    ensures n >= a.Length ==> b[..a.Length] == a[..]
  {
    b := new T[n];
    for i := 0 to n
      invariant forall k :: 0 <= k < i && k < a.Length ==> b[k] == a[k]
    {
      if i < a.Length { b[i] := a[i]; }
    }
  }

  /** Both arrays reallocated to `n` elements. */
  method ReallocBoth<K(0), V(0)>(keys: array<K>, vals: array<V>, n: nat) returns (keys': array<K>, vals': array<V>)
    requires keys.Length == vals.Length
    ensures fresh(keys') && fresh(vals') && keys' as object != vals'
    ensures keys'.Length == vals'.Length == n
    ensures n <= keys.Length ==> keys'[..] == keys[..n] && vals'[..] == vals[..n]
    ensures n >= keys.Length ==> keys'[..keys.Length] == keys[..] && vals'[..keys.Length] == vals[..]
  {
    keys' := Realloc(keys, n);
    vals' := Realloc(vals, n);
  }

  /** The rehash of arrays that have room for both tables. */
  method RehashAll<K, V>(hash: K -> nat, flags: array<nat>, n: nat, keys: array<K>, vals: array<V>, n': nat,
                         ghost m: map<K, V>, ghost size: nat)
    returns (flags': array<nat>)
    requires flags as object != keys && flags as object != vals && keys as object != vals
    requires Covers(flags[..], n) && n <= keys.Length == vals.Length && n' <= keys.Length
    requires Holds(LiveSet(Unpack(flags[..], n)), keys[..n], vals[..n], m)
    requires 4 <= n' && IsPow2(n') && (n' < 16 || n' % 16 == 0) && |m| == size <= UpperBound(n') < n'
    modifies flags, keys, vals
    ensures fresh(flags') && Covers(flags'[..], n')
    ensures Consistent(hash, Unpack(flags'[..], n'), keys[..n'], vals[..n'], m, size, size)
  {
    flags' := FreshFlags(n');
    RehashStart(hash, Unpack(flags[..], n), Unpack(flags'[..], n'), keys[..], vals[..], m);
    Rehash(hash, flags, n, flags', n', keys, vals, m);
    RehashDone(hash, Unpack(flags[..], n), Unpack(flags'[..], n'), keys[..], vals[..], m);
    RebuiltConsistent(hash, Unpack(flags'[..], n'), keys[..n'], vals[..n'], m, size);
  }

  /** The rehashing half of `kh_resize`: from `n` buckets to `n'`, which may be fewer, as many or more. */
  method Rebuild<K(0), V(0)>(hash: K -> nat, flags: array<nat>, n: nat, keys: array<K>, vals: array<V>, n': nat,
                             ghost m: map<K, V>, ghost size: nat)
    returns (flags': array<nat>, keys': array<K>, vals': array<V>)
    requires flags as object != keys && flags as object != vals && keys as object != vals
    requires keys.Length == vals.Length == n && Covers(flags[..], n)
    requires Holds(LiveSet(Unpack(flags[..], n)), keys[..], vals[..], m)
    requires 4 <= n' && IsPow2(n') && (n' < 16 || n' % 16 == 0) && |m| == size <= UpperBound(n') < n'
    modifies flags, keys, vals
    ensures fresh(flags') && (keys' == keys || fresh(keys')) && (vals' == vals || fresh(vals'))
    ensures flags' as object != keys' && flags' as object != vals' && keys' as object != vals'
    ensures keys'.Length == vals'.Length == n' && Covers(flags'[..], n')
    ensures Sealed(hash, Unpack(flags'[..], n'), keys'[..], vals'[..], m, size, size)
  {
    keys', vals' := keys, vals;
    if n < n' {
      keys', vals' := ReallocBoth(keys, vals, n');
    }
    assert keys'[..n] == keys[..] && vals'[..n] == vals[..];
    flags' := RehashAll(hash, flags, n, keys', vals', n', m, size);
    ghost var ks, vs := keys'[..n'], vals'[..n'];
    if n > n' {
      keys', vals' := ReallocBoth(keys', vals', n');
    }
    assert keys'[..] == ks && vals'[..] == vs;
  }

  datatype BucketsKey = BucketsKey

  /** The key is written to bucket `x`, which becomes live. */
  method WriteSlot<K>(flags: array<nat>, keys: array<K>, n: nat, x: nat, key: K)
    requires flags as object != keys && keys.Length == n && Covers(flags[..], n) && x < n
    modifies flags, keys
    ensures Covers(flags[..], n) && Unpack(flags[..], n) == old(Unpack(flags[..], n))[x := LIVE]
    ensures keys[..] == old(keys[..])[x := key]
  {
    keys[x] := key;
    SetBothFalse(flags, x, n);
  }

  /**
   An insertion leaves the number of buckets, or makes the first four, or doubles it when half of them hold
   entries.
   */
  predicate Grown(n: nat, size: nat, n': nat) {
    n' == n || (n == 0 && n' == 4) || (n' == 2 * n && n <= 2 * size)
  }

  class KHash<K(==, 0), V(0)> {
    const hash: K -> nat
    var nBuckets: nat
    var size: nat
    var nOccupied: nat
    var upperBound: nat
    var flags: array<nat>
    var keys: array<K>
    var vals: array<V>
    ghost var m: map<K, V>

    /** Each array is the one it was or a new one. */
    twostate predicate Moved()
      reads this
    {
      && (flags == old(flags) || fresh(flags))
      && (keys == old(keys) || fresh(keys))
      && (vals == old(vals) || fresh(vals))
    }

    ghost predicate Shape()
      reads this, flags, keys, vals
    {
      && flags as object != keys && flags as object != vals && keys as object != vals
      && keys.Length == vals.Length == nBuckets
      && Covers(flags[..], nBuckets)
    }

    ghost function Fl(): seq<Flag>
      requires Shape()
      reads this, flags, keys, vals
    {
      Unpack(flags[..], nBuckets)
    }

    ghost predicate Valid()
      reads this, flags, keys, vals
    {
      && Shape()
      && upperBound == UpperBound(nBuckets)
      && size == |m|
      && Health() == Met
    }

    /** Whether the buckets satisfy the table's invariant; sealed. */
    ghost function Health(): Verdict
      requires Shape()
      reads this, flags, keys, vals
    {
      if forall k: BucketsKey {:trigger Opened(k)} :: Opened(k) ==>
           Sealed(hash, Fl(), keys[..], vals[..], m, size, nOccupied)
      then Met else Unmet
    }

    constructor (hash: K -> nat)
      ensures Valid() && fresh(flags) && fresh(keys) && fresh(vals) && this.hash == hash
      ensures m == map[] && nBuckets == 0
    {
      this.hash := hash;
      nBuckets, size, nOccupied, upperBound := 0, 0, 0, 0;
      flags := new nat[0];
      keys := new K[0];
      vals := new V[0];
      m := map[];
    }

    method Get(key: K) returns (x: nat)
      requires Valid()
      ensures x <= nBuckets
      ensures key in m ==> x < nBuckets && Fl()[x].Live() && keys[x] == key && vals[x] == m[key]
      ensures key !in m ==> x == nBuckets
    {
      assert Opened(BucketsKey) && Opened(TableKey);
      if nBuckets == 0 { return 0; }
      ghost var fl, ks := Fl(), keys[..];
      var i, wrapped, walk, s := ProbeFor(flags, keys, nBuckets, hash(key), key);
      if wrapped || IsEither(flags[..], i) {
        MissedMeansAbsent(hash, fl, ks, vals[..], m, walk, key, s);
        x := nBuckets;
      } else {
        assert i in LiveSet(fl);
        x := i;
      }
    }

    /** The bucket that insertion of `key` uses: the one that holds it, or a free one on its walk. */
    method FindSlot(key: K) returns (x: nat)
      requires Valid() && nOccupied < upperBound
      ensures x < nBuckets
      ensures key in m ==> Fl()[x].Live() && keys[x] == key
      ensures key !in m ==> !Fl()[x].Live() && Reaches(Fl(), hash(key), x)
    {
      assert Opened(BucketsKey) && Opened(TableKey);
      ghost var fl, ks := Fl(), keys[..];
      RoomLeft(fl);
      var x', i, walk, s := ProbeForSlot(flags, keys, nBuckets, hash(key), key);
      x := x';
      if IsEmpty(flags[..], i) {
        MissedMeansAbsent(hash, fl, ks, vals[..], m, walk, key, s);
      } else {
        assert i in LiveSet(fl);
      }
    }
  
    /** Rehash into `n'` buckets. */
    method ResizeTo(n': nat)
      requires Valid() && 4 <= n' && IsPow2(n') && (n' < 16 || n' % 16 == 0)
      requires |m| <= UpperBound(n') < n'
      modifies this, flags, keys, vals
      ensures m == old(m) && nBuckets == n' && nOccupied == size == old(size)
      ensures Moved() && Valid()
    {
      assert Opened(BucketsKey);
      SealedHolds(hash, Fl(), keys[..], vals[..], m, size, nOccupied);
      var flags', keys', vals' := Rebuild(hash, flags, nBuckets, keys, vals, n', m, size);
      Adopt(n', flags', keys', vals');
    }

    /** The rebuilt arrays become the table's. */
    method Adopt(n': nat, flags': array<nat>, keys': array<K>, vals': array<V>)
      requires flags' as object != keys' && flags' as object != vals' && keys' as object != vals'
      requires keys'.Length == vals'.Length == n' && Covers(flags'[..], n') && size == |m|
      requires Sealed(hash, Unpack(flags'[..], n'), keys'[..], vals'[..], m, size, size)
      modifies this
      ensures Valid() && flags == flags' && keys == keys' && vals == vals'
      ensures m == old(m) && nBuckets == n' && nOccupied == size == old(size)
    {
      flags, keys, vals := flags', keys', vals';
      nBuckets, nOccupied, upperBound := n', size, UpperBound(n');
    }

    /** Rehash into `requested` buckets, rounded up, unless the entries would reach the load bound. */
    method Resize(requested: nat, ghost rounded: nat)
      requires Valid() && requested <= 0x8000_0000 && RoundsTo(requested, rounded)
      modifies this, flags, keys, vals
      ensures Valid() && Moved() && m == old(m) && size == old(size)
      ensures old(size) < UpperBound(rounded) ==> nBuckets == rounded && nOccupied == size
      ensures old(size) >= UpperBound(rounded) ==> nBuckets == old(nBuckets) && nOccupied == old(nOccupied)
    {
      assert Opened(SizeKey);
      NewSizeIsPow2(requested);
      var n' := NewSize(requested);
      if size < UpperBound(n') {
        ResizeTo(n');
      }
    }
  
    /** In every reachable table live buckets, buckets in use, the upper bound and all buckets are ordered so. */
    lemma {:induction false} LoadBound()
      requires Valid()
      ensures size <= nOccupied <= upperBound
      ensures nBuckets > 0 ==> 4 <= nBuckets && IsPow2(nBuckets) && upperBound < nBuckets
    {
      assert Opened(BucketsKey);
      SealedBounds(hash, Fl(), keys[..], vals[..], m, size, nOccupied);
    }

    /** The resize check at the head of `kh_put`: afterwards an empty bucket is left. */
    method MakeRoom()
      requires Valid() && nBuckets <= 0x4000_0000
      modifies this, flags, keys, vals
      ensures m == old(m) && size == old(size) && Moved() && Valid()
      ensures nOccupied < upperBound
      ensures Grown(old(nBuckets), old(size), nBuckets)
    {
      LoadBound();
      if nOccupied >= upperBound {
        if nBuckets > 2 * size {
          SameSize(nBuckets, size);
          Resize(nBuckets - 1, nBuckets);
        } else {
          NextSize(nBuckets, size);
          Resize(nBuckets + 1, if nBuckets == 0 then 4 else 2 * nBuckets);
        }
      }
    }

    /** Insert `key`; its value is for the caller to set. `ret` is 0 when the key was present. */
    method Put(key: K) returns (x: nat, ret: int)
      requires Valid() && nBuckets <= 0x4000_0000
      modifies this, flags, keys, vals
      ensures Moved() && Valid()
      ensures x < nBuckets && Fl()[x].Live() && keys[x] == key
      ensures m == if key in old(m) then old(m) else old(m)[key := vals[x]]
      ensures 0 <= ret <= 2 && (ret == 0 <==> key in old(m))
      ensures size == if ret == 0 then old(size) else old(size) + 1
      ensures Grown(old(nBuckets), old(size), nBuckets)
    {
      MakeRoom();
      x := FindSlot(key);
      if IsEither(flags[..], x) {
        ret := Occupy(x, key);
      } else {
        ret := 0;
      }
    }

    /** The two writing branches of `kh_put`. */
    method Occupy(x: nat, key: K) returns (ret: int)
      requires Valid() && nOccupied < upperBound && x < nBuckets
      requires !Fl()[x].Live() && Reaches(Fl(), hash(key), x) && key !in m
      modifies this`size, this`nOccupied, this`m, flags, keys
      ensures Valid() && m == old(m)[key := vals[x]] && size == old(size) + 1
      ensures Fl()[x].Live() && keys[x] == key
      ensures ret == if old(Fl())[x].empty then 1 else 2
    {
      assert Opened(BucketsKey);
      SealedInsert(hash, Fl(), keys[..], vals[..], m, size, nOccupied, x, key);
      ret := if IsEmpty(flags[..], x) then 1 else 2;
      WriteSlot(flags, keys, nBuckets, x, key);
      size, nOccupied, m := size + 1, if ret == 1 then nOccupied + 1 else nOccupied, m[key := vals[x]];
    }

    /** `kh_value(h, x) = v` */
    method SetValue(x: nat, v: V)
      requires Valid() && x < nBuckets && Fl()[x].Live()
      modifies this`m, vals
      ensures Valid() && m == old(m)[keys[x] := v] && keys[x] in old(m)
      ensures Fl() == old(Fl()) && vals[..] == old(vals[..])[x := v]
    {
      assert Opened(BucketsKey);
      SealedSetValue(hash, Fl(), keys[..], vals[..], m, size, nOccupied, x, v);
      ghost var vs := vals[..];
      vals[x] := v;
      m := m[keys[x] := v];
      assert vals[..] == vs[x := v];
    }

    /** The pair of calls every user of the table makes: put the key, then set its value. */
    method Assign(key: K, v: V) returns (ret: int)
      requires Valid() && nBuckets <= 0x4000_0000
      modifies this, flags, keys, vals
      ensures Moved() && Valid()
      ensures m == old(m)[key := v]
      ensures ret == 0 <==> key in old(m)
      ensures size == if ret == 0 then old(size) else old(size) + 1
      ensures Grown(old(nBuckets), old(size), nBuckets)
    {
      var x;
      x, ret := Put(key);
      SetValue(x, v);
    }

    /** Delete the entry in bucket `x`, if there is one. */
    method Del(x: nat)
      requires Valid() && x <= nBuckets
      modifies this`size, this`m, flags
      ensures Valid()
      ensures x < nBuckets && old(Fl())[x].Live() ==>
                keys[x] in old(m) && m == old(m) - {keys[x]} && size == old(size) - 1
      ensures x == nBuckets || !old(Fl())[x].Live() ==> m == old(m) && size == old(size)
    {
      assert Opened(BucketsKey);
      if x != nBuckets && !IsEither(flags[..], x) {
        SealedDelete(hash, Fl(), keys[..], vals[..], m, size, nOccupied, x);
        SetDelTrue(flags, x, nBuckets);
        size := size - 1;
        m := m - {keys[x]};
      }
    }
  }

  /** Requesting one bucket less rehashes into as many buckets as before, with room to spare. */
  lemma {:induction false} SameSize(n: nat, size: nat)
    requires 4 <= n <= 0x8000_0000 && IsPow2(n) && n > 2 * size
    ensures RoundsTo(n - 1, n) && size < UpperBound(n)
  {
    var k: nat :| n == Pow2(k);
    var p := RoundUp32Value(n - 1);
    OnePow2Between(n - 1, k, p);
  }

  /** Requesting one bucket more doubles the table, or makes the first one of four buckets. */
  lemma {:induction false} NextSize(n: nat, size: nat)
    requires n == 0 || (4 <= n <= 0x4000_0000 && IsPow2(n) && size <= UpperBound(n))
    requires n == 0 ==> size == 0
    ensures n + 1 <= 0x8000_0000
    ensures RoundsTo(n + 1, if n == 0 then 4 else 2 * n) && size < UpperBound(if n == 0 then 4 else 2 * n)
  {
    if n == 0 {
      RoundUp32OfOne();
    } else {
      var k: nat :| n == Pow2(k);
      DoublePow2(k);
    }
  }

  lemma {:induction false} DoublePow2(k: nat)
    requires Pow2(k) <= 0x4000_0000
    ensures RoundUp32(Pow2(k) + 1) == 2 * Pow2(k)
  {
    var p := RoundUp32Value(Pow2(k) + 1);
    assert Pow2(k + 1) == 2 * Pow2(k);
    OnePow2Between(Pow2(k) + 1, k + 1, p);
  }

  lemma {:induction false} OnePow2Between(x: nat, p: nat, q: nat)
    requires x <= Pow2(p) < 2 * x && x <= Pow2(q) < 2 * x
    ensures p == q
  {
    if p < q { Pow2Monotone(p, q); }
    if q < p { Pow2Monotone(q, p); }
  }

  lemma {:induction false} NewSizeIsPow2(requested: nat)
    requires requested <= 0x8000_0000
    ensures IsPow2(NewSize(requested)) && 4 <= NewSize(requested)
    ensures requested <= NewSize(requested) && UpperBound(NewSize(requested)) < NewSize(requested)
    ensures NewSize(requested) < 16 || NewSize(requested) % 16 == 0
  {
    assert Pow2(2) == 4;
    if requested == 0 {
      RoundUp32OfZero();
    } else {
      RoundUp32IsLeastPow2(requested);
    }
    var k: nat :| NewSize(requested) == Pow2(k);
    LargePow2(k);
  }

  lemma {:induction false} LargePow2(k: nat)
    ensures Pow2(k) < 16 || Pow2(k) % 16 == 0
  {
    if k >= 4 {
      assert Pow2(k) == 4 * Pow2(k - 2);
      assert Pow2(k - 2) == 4 * Pow2(k - 4);
      ModUnique(Pow2(k), 16, Pow2(k - 4), 0);
    } else {
      Pow2Monotone(k, 4);
      assert Pow2(4) == 16;
    }
  }
}

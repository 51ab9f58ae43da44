/** The buckets of a table in order, as the snapshot scan visits them: every entry of the map, once. */
module Scan {
  import opened Flags
  import opened Table

  /** The entries in the first `n` buckets. */
  ghost function Listed<K, V>(fl: seq<Flag>, keys: seq<K>, vals: seq<V>, n: nat): seq<(K, V)>
    requires n <= |fl| == |keys| == |vals|
  {
    if n == 0 then []
    else if fl[n - 1].Live() then Listed(fl, keys, vals, n - 1) + [(keys[n - 1], vals[n - 1])]
    else Listed(fl, keys, vals, n - 1)
  }

  ghost function LiveBelow(fl: seq<Flag>, n: nat): set<nat>
    requires n <= |fl|
  {
    set i: nat | i < n && fl[i].Live()
  }

  lemma {:induction false} ListedSize<K, V>(fl: seq<Flag>, keys: seq<K>, vals: seq<V>, n: nat)
    requires n <= |fl| == |keys| == |vals|
    ensures |Listed(fl, keys, vals, n)| == |LiveBelow(fl, n)|
    decreases n
  {
    if n > 0 {
      ListedSize(fl, keys, vals, n - 1);
      if fl[n - 1].Live() {
        assert LiveBelow(fl, n) == LiveBelow(fl, n - 1) + {n - 1};
      } else {
        assert LiveBelow(fl, n) == LiveBelow(fl, n - 1);
      }
    }
  }

  lemma {:induction false} ListedOrigin<K, V>(fl: seq<Flag>, keys: seq<K>, vals: seq<V>, n: nat, j: nat)
    returns (i: nat)
    requires n <= |fl| == |keys| == |vals| && j < |Listed(fl, keys, vals, n)|
    ensures i < n && fl[i].Live() && Listed(fl, keys, vals, n)[j] == (keys[i], vals[i])
    decreases n
  {
    if j < |Listed(fl, keys, vals, n - 1)| {
      i := ListedOrigin(fl, keys, vals, n - 1, j);
    } else {
      i := n - 1;
    }
  }

  lemma {:induction false} ListedHas<K, V>(fl: seq<Flag>, keys: seq<K>, vals: seq<V>, n: nat, i: nat) returns (j: nat)
    requires i < n <= |fl| == |keys| == |vals| && fl[i].Live()
    ensures j < |Listed(fl, keys, vals, n)| && Listed(fl, keys, vals, n)[j] == (keys[i], vals[i])
    decreases n
  {
    if i == n - 1 {
      j := |Listed(fl, keys, vals, n - 1)|;
    } else {
      j := ListedHas(fl, keys, vals, n - 1, i);
    }
  }

  ghost predicate Distinct<K, V>(es: seq<(K, V)>) {
    forall i, j :: 0 <= i < j < |es| ==> es[i].0 != es[j].0
  }

  lemma {:induction false} ListedDistinct<K, V>(fl: seq<Flag>, keys: seq<K>, vals: seq<V>, m: map<K, V>, n: nat)
    requires n <= |fl| == |keys| == |vals| && Holds(LiveSet(fl), keys, vals, m)
    ensures Distinct(Listed(fl, keys, vals, n))
    decreases n
  {
    if n > 0 {
      ListedDistinct(fl, keys, vals, m, n - 1);
      if fl[n - 1].Live() {
        var before := Listed(fl, keys, vals, n - 1);
        forall j: nat | j < |before|
          ensures before[j].0 != keys[n - 1]
        {
          var i := ListedOrigin(fl, keys, vals, n - 1, j);
          assert i in LiveSet(fl) && n - 1 in LiveSet(fl);
        }
      }
    }
  }

  /** The list holds the pairs of the map and no others. */
  ghost predicate Lists<K(!new), V>(es: seq<(K, V)>, m: map<K, V>) {
    && (forall j :: 0 <= j < |es| ==> es[j].0 in m && m[es[j].0] == es[j].1)
    && (forall k {:trigger k in m} :: k in m ==> exists j :: 0 <= j < |es| && es[j].0 == k)
  }

  lemma {:induction false} ListedIsMap<K(!new), V>(fl: seq<Flag>, keys: seq<K>, vals: seq<V>, m: map<K, V>)
    requires |fl| == |keys| == |vals| && Holds(LiveSet(fl), keys, vals, m)
    ensures Lists(Listed(fl, keys, vals, |fl|), m)
  {
    var es := Listed(fl, keys, vals, |fl|);
    forall j: nat | j < |es|
      ensures es[j].0 in m && m[es[j].0] == es[j].1
    {
      var i := ListedOrigin(fl, keys, vals, |fl|, j);
      assert i in LiveSet(fl);
    }
    forall k | k in m
      ensures exists j :: 0 <= j < |es| && es[j].0 == k
    {
      assert Located(LiveSet(fl), keys, k);
      var i :| i in LiveSet(fl) && keys[i] == k;
      var j := ListedHas(fl, keys, vals, |fl|, i);
      assert es[j].0 == k;
    }
  }

  /** The scan visits as many buckets as there are keys, each key once, and sees exactly the map. */
  lemma {:induction false} ScanIsExact<K(!new), V>(hash: K -> nat, fl: seq<Flag>, keys: seq<K>, vals: seq<V>,
      m: map<K, V>,
                                                   size: nat, nOccupied: nat)
    requires Sealed(hash, fl, keys, vals, m, size, nOccupied) && |fl| == |keys| == |vals|
    ensures var es := Listed(fl, keys, vals, |fl|);
      |es| == size == |m| && Distinct(es) && Lists(es, m)
  {
    SealedHolds(hash, fl, keys, vals, m, size, nOccupied);
    ListedSize(fl, keys, vals, |fl|);
    assert LiveBelow(fl, |fl|) == LiveSet(fl);
    ListedDistinct(fl, keys, vals, m, |fl|);
    ListedIsMap(fl, keys, vals, m);
  }
}

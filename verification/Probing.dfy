/**
 Triangular probing over a table whose size is a power of two: the bucket reached after
 `s` steps from the home bucket, and which pairs of steps meet in one bucket.
 */
module Probing {
  import opened Bits

  /** The distance covered by `s` probe steps of lengths 1, 2, ..., s. */
  function Tri(s: nat): nat {
    if s == 0 then 0 else Tri(s - 1) + s
  }

  /** The bucket that is examined after `s` steps from the home bucket of `hash`. */
  function Probe(hash: nat, s: nat, n: nat): (i: nat)
    requires n > 0
    ensures i < n
  {
    (hash + Tri(s)) % n
  }

  /** The loop body `i = (i + (++step)) & mask` moves from one probe to the next. */
  lemma {:induction false} ProbeStep(hash: nat, s: nat, n: nat)
    requires n > 0 && IsPow2(n) && s > 0
    ensures And(Probe(hash, s - 1, n) + s, n - 1) == Probe(hash, s, n)
  {
    AndIsMod(Probe(hash, s - 1, n) + s, n);
    ProbeAdds(hash, s, n);
  }

  lemma {:induction false} AndIsMod(x: nat, n: nat)
    requires n > 0 && IsPow2(n)
    ensures And(x, n - 1) == x % n
  {
    var k: nat :| n == Pow2(k);
    AndMask(x, k);
  }

  lemma {:induction false} ProbeAdds(hash: nat, s: nat, n: nat)
    requires n > 0 && s > 0
    ensures (Probe(hash, s - 1, n) + s) % n == Probe(hash, s, n)
  {
    ModOfSum(hash + Tri(s - 1), s, n);
  }

  lemma {:induction false} ProbeHome(hash: nat, n: nat, k: nat)
    requires n == Pow2(k)
    ensures And(hash, n - 1) == Probe(hash, 0, n)
  {
    AndMask(hash, k);
  }

  lemma {:induction false} TriClosed(s: nat)
    ensures 2 * Tri(s) == s * (s + 1)
  {
    if s > 0 {
      TriClosed(s - 1);
      assert s * (s + 1) == (s - 1) * s + 2 * s;
    }
  }

  lemma {:induction false} TriDifference(s: nat, t: nat)
    ensures 2 * (Tri(t) - Tri(s)) == (t - s) * (t + s + 1)
  {
    TriClosed(s);
    TriClosed(t);
    assert t * (t + 1) - s * (s + 1) == (t - s) * (t + s + 1);
  }

  lemma {:induction false} DoubleInProduct(a: int, x: int)
    ensures a * (2 * x) == 2 * (a * x)
  {
  }

  /** An odd factor carries none of the twos. */
  lemma {:induction false} OddFactor(a: int, b: int, q: int, k: nat) returns (c: int)
    requires a % 2 == 1 && a * b == q * Pow2(k)
    ensures b == c * Pow2(k)
    decreases k
  {
    if k == 0 {
      c := b;
    } else {
      var h, half := Pow2(k - 1), b / 2;
      DoubleInProduct(q, h);
      OddTimes(a, b);
      assert b == 2 * half;
      DoubleInProduct(a, half);
      c := OddFactor(a, half, q, k - 1);
      DoubleInProduct(c, h);
    }
  }

  lemma {:induction false} OddTimes(a: int, b: int)
    requires a % 2 == 1 && (a * b) % 2 == 0
    ensures b % 2 == 0
  {
    var x, y := a / 2, b / 2;
    assert a * b == 2 * (x * b + y) + b % 2 by {
      assert a * b == 2 * (x * b) + b;
    }
  }

  lemma {:induction false} EqualResidues(a: int, b: int, n: int)
    requires n > 0
    ensures a % n == b % n <==> exists q: int :: b - a == q * n
  {
    if a % n == b % n {
      assert b - a == (b / n - a / n) * n;
    }
    if q: int :| b - a == q * n {
      ModShift(a, n, q);
    }
  }

  /** Of two factors of different parity, one takes all the twos of the product. */
  lemma {:induction false} TwosInOneFactor(a: int, b: int, q: int, k: nat)
    requires (a + b) % 2 == 1 && a * b == q * Pow2(k)
    ensures a % Pow2(k) == 0 || b % Pow2(k) == 0
  {
    if a % 2 == 1 {
      var c := OddFactor(a, b, q, k);
      ModUnique(b, Pow2(k), c, 0);
    } else {
      assert b * a == q * Pow2(k);
      var c := OddFactor(b, a, q, k);
      ModUnique(a, Pow2(k), c, 0);
    }
  }

  lemma {:induction false} MultipleTimes(a: int, b: int, n: int) returns (q: int)
    requires n > 0 && a % (2 * n) == 0
    ensures a * b == 2 * (q * n)
  {
    var c := a / (2 * n);
    assert a == 2 * (c * n);
    q := c * b;
    assert a * b == 2 * ((c * n) * b);
    assert (c * n) * b == q * n;
  }

  lemma {:induction false} ResidueForth(a: int, b: int, d: int, q: int, n: nat, k: nat)
    requires n == Pow2(k) && a * b == 2 * d && d == q * n && (a + b) % 2 == 1
    ensures a % (2 * n) == 0 || b % (2 * n) == 0
  {
    assert Pow2(k + 1) == 2 * n;
    assert a * b == q * (2 * n);
    TwosInOneFactor(a, b, q, k + 1);
  }

  lemma {:induction false} TriResidue(s: nat, t: nat, n: nat, k: nat)
    requires n == Pow2(k)
    ensures (exists q: int :: Tri(t) - Tri(s) == q * n)
       <==> (t - s) % (2 * n) == 0 || (t + s + 1) % (2 * n) == 0
  {
    TriDifference(s, t);
    var d, a, b := Tri(t) - Tri(s), t - s, t + s + 1;
    if q: int :| d == q * n {
      ResidueForth(a, b, d, q, n, k);
    }
    if a % (2 * n) == 0 {
      var q := MultipleTimes(a, b, n);
      assert d == q * n;
    }
    if b % (2 * n) == 0 {
      var q := MultipleTimes(b, a, n);
      assert d == q * n;
    }
  }

  /** Steps `s` and `t` examine the same bucket exactly when `2n` divides `t - s` or `t + s + 1`. */
  lemma {:induction false} SameBucket(hash: nat, s: nat, t: nat, n: nat, k: nat)
    requires n == Pow2(k)
    ensures Probe(hash, s, n) == Probe(hash, t, n)
       <==> (t - s) % (2 * n) == 0 || (t + s + 1) % (2 * n) == 0
  {
    EqualResidues(hash + Tri(s), hash + Tri(t), n);
    TriResidue(s, t, n, k);
  }

  lemma {:induction false} NotMultiple(a: int, m: int)
    requires 0 < a < m
    ensures a % m != 0
  {
  }

  /** The first `n` probes examine `n` different buckets. */
  lemma {:induction false} ProbesDistinct(hash: nat, s: nat, t: nat, n: nat, k: nat)
    requires n == Pow2(k) && s < t < n
    ensures Probe(hash, s, n) != Probe(hash, t, n)
  {
    SameBucket(hash, s, t, n, k);
    NotMultiple(t - s, 2 * n);
    NotMultiple(t + s + 1, 2 * n);
  }

  /** The walk first comes back to its home bucket at step `2n - 1`. */
  lemma {:induction false} FirstReturn(hash: nat, s: nat, n: nat, k: nat)
    requires n == Pow2(k) && 0 < s <= 2 * n - 1
    ensures Probe(hash, s, n) == Probe(hash, 0, n) <==> s == 2 * n - 1
  {
    SameBucket(hash, 0, s, n, k);
    FirstMultiple(s, 2 * n);
  }

  lemma {:induction false} FirstMultiple(s: nat, m: nat)
    requires 0 < s < m
    ensures s % m != 0
    ensures (s + 1) % m == 0 <==> s == m - 1
  {
    if s == m - 1 { ModUnique(s + 1, m, 1, 0); }
  }

  /** The buckets examined by the first `m` probes. */
  ghost function Visited(hash: nat, m: nat, n: nat): (r: set<nat>)
    requires n > 0
  {
    if m == 0 then {} else Visited(hash, m - 1, n) + {Probe(hash, m - 1, n)}
  }

  lemma {:induction false} VisitedMember(hash: nat, m: nat, n: nat, i: nat)
    requires n > 0
    ensures i in Visited(hash, m, n) <==> exists s: nat :: s < m && Probe(hash, s, n) == i
  {
    if m > 0 {
      VisitedMember(hash, m - 1, n, i);
    }
  }

  lemma {:induction false} VisitedCount(hash: nat, m: nat, n: nat, k: nat)
    requires n == Pow2(k) && m <= n
    ensures |Visited(hash, m, n)| == m
  {
    if m > 0 {
      VisitedCount(hash, m - 1, n, k);
      var i := Probe(hash, m - 1, n);
      VisitedMember(hash, m - 1, n, i);
      if s: nat :| s < m - 1 && Probe(hash, s, n) == i {
        ProbesDistinct(hash, s, m - 1, n, k);
        assert false;
      }
    }
  }

  /** The numbers below `n`. */
  ghost function Below(n: nat): (r: set<nat>)
    ensures |r| == n
    ensures forall i: nat :: i in r <==> i < n
  {
    if n == 0 then {} else Below(n - 1) + {n - 1}
  }

  lemma {:induction false} FullSubset(a: set<nat>, b: set<nat>)
    requires a <= b && |a| == |b|
    ensures a == b
  {
    if x :| x in b && x !in a {
      FewerThan(a, b, x);
      assert false;
    }
  }

  lemma {:induction false} FewerThan(a: set<nat>, b: set<nat>, x: nat)
    requires a <= b && x in b && x !in a
    ensures |a| < |b|
  {
    SubsetSize(a, b - {x});
  }

  lemma {:induction false} SubsetSize(a: set<nat>, b: set<nat>)
    requires a <= b
    ensures |a| <= |b|
  {
    if a != {} {
      var x :| x in a;
      SubsetSize(a - {x}, b - {x});
    }
  }

  /** The first `n` probes examine every bucket. */
  lemma {:induction false} ProbesComplete(hash: nat, i: nat, n: nat, k: nat) returns (s: nat)
    requires n == Pow2(k) && i < n
    ensures s < n && Probe(hash, s, n) == i
  {
    VisitedCount(hash, n, n, k);
    forall j | j in Visited(hash, n, n) ensures j in Below(n) {
      VisitedMember(hash, n, n, j);
    }
    FullSubset(Visited(hash, n, n), Below(n));
    VisitedMember(hash, n, n, i);
    s :| s < n && Probe(hash, s, n) == i;
  }
}

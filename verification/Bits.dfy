/**
 Bit-level arithmetic on natural numbers: the C operators `&`, `|` and `>>` as the
 hash table uses them, powers of two, and the rounding macro `kroundup32`.
 */
module Bits {

  function Pow2(k: nat): (r: nat)
    ensures r >= 1
  {
    if k == 0 then 1 else 2 * Pow2(k - 1)
  }

  /** `n` is a power of two. */
  ghost predicate IsPow2(n: nat) {
    exists k: nat :: n == Pow2(k)
  }

  function Bit(a: nat, i: nat): bool {
    if i == 0 then a % 2 == 1 else Bit(a / 2, i - 1)
  }

  /** The C expression `a | b`. */
  function Or(a: nat, b: nat): nat
    decreases a + b
  {
    if a == 0 && b == 0 then 0
    else 2 * Or(a / 2, b / 2) + (if a % 2 == 1 || b % 2 == 1 then 1 else 0)
  }

  /** The C expression `a & b`. */
  function And(a: nat, b: nat): nat {
    if a == 0 || b == 0 then 0
    else 2 * And(a / 2, b / 2) + (if a % 2 == 1 && b % 2 == 1 then 1 else 0)
  }

  /** The C expression `a >> m`. */
  function Shr(a: nat, m: nat): nat {
    if m == 0 then a else Shr(a / 2, m - 1)
  }

  /** The two parts of a number written in binary. */
  lemma {:induction false} Halved(k: nat, r: nat)
    requires r <= 1
    ensures (2 * k + r) / 2 == k && (2 * k + r) % 2 == r
  {
  }

  lemma {:induction false} OrHalved(a: nat, b: nat)
    ensures Or(a, b) / 2 == Or(a / 2, b / 2)
    ensures Or(a, b) % 2 == 1 <==> a % 2 == 1 || b % 2 == 1
  {
    if a != 0 || b != 0 { Halved(Or(a / 2, b / 2), if a % 2 == 1 || b % 2 == 1 then 1 else 0); }
  }

  lemma {:induction false} BitOfOr(a: nat, b: nat, i: nat)
    ensures Bit(Or(a, b), i) <==> Bit(a, i) || Bit(b, i)
    decreases i
  {
    OrHalved(a, b);
    if i > 0 { BitOfOr(a / 2, b / 2, i - 1); }
  }

  lemma {:induction false} BitOfShr(a: nat, m: nat, i: nat)
    ensures Bit(Shr(a, m), i) == Bit(a, i + m)
    decreases m
  {
    if m > 0 {
      BitOfShr(a / 2, m - 1, i);
    }
  }

  /** The C expression `a << m`. */
  function Shl(a: nat, m: nat): nat {
    if m == 0 then a else 2 * Shl(a, m - 1)
  }

  /** The C expression `a & ~b`. */
  function AndNot(a: nat, b: nat): nat {
    if a == 0 then 0
    else 2 * AndNot(a / 2, b / 2) + (if a % 2 == 1 && b % 2 == 0 then 1 else 0)
  }

  lemma {:induction false} BitOfAnd(a: nat, b: nat, i: nat)
    ensures Bit(And(a, b), i) <==> Bit(a, i) && Bit(b, i)
    decreases i
  {
    if a == 0 || b == 0 {
      NoBits(i);
    } else {
      Halved(And(a / 2, b / 2), if a % 2 == 1 && b % 2 == 1 then 1 else 0);
      if i > 0 { BitOfAnd(a / 2, b / 2, i - 1); }
    }
  }

  lemma {:induction false} BitOfAndNot(a: nat, b: nat, i: nat)
    ensures Bit(AndNot(a, b), i) <==> Bit(a, i) && !Bit(b, i)
    decreases i
  {
    if a == 0 {
      NoBits(i);
    } else {
      Halved(AndNot(a / 2, b / 2), if a % 2 == 1 && b % 2 == 0 then 1 else 0);
      if i > 0 { BitOfAndNot(a / 2, b / 2, i - 1); }
    }
  }

  lemma {:induction false} BitOfShl(a: nat, m: nat, i: nat)
    ensures Bit(Shl(a, m), i) <==> i >= m && Bit(a, i - m)
    decreases m
  {
    if m > 0 {
      Halved(Shl(a, m - 1), 0);
      if i > 0 { BitOfShl(a, m - 1, i - 1); }
    }
  }

  lemma {:induction false} Pow2Monotone(j: nat, k: nat)
    requires j < k
    ensures 2 * Pow2(j) <= Pow2(k)
    decreases k
  {
    if j < k - 1 {
      Pow2Monotone(j, k - 1);
    }
  }

  /** Masking with `2^k - 1` is the remainder modulo `2^k`. */
  lemma {:induction false} AndMask(a: nat, k: nat)
    ensures And(a, Pow2(k) - 1) == a % Pow2(k)
    decreases k
  {
    if k > 0 {
      AndMask(a / 2, k - 1);
      AndMaskDouble(a, Pow2(k - 1));
    }
  }

  lemma {:induction false} AndMaskDouble(a: nat, h: nat)
    requires h >= 1 && And(a / 2, h - 1) == (a / 2) % h
    ensures And(a, 2 * h - 1) == a % (2 * h)
  {
    ModDouble(a, h);
    AndOdd(a, h);
  }

  lemma {:induction false} AndOdd(a: nat, h: nat)
    requires h >= 1
    ensures And(a, 2 * h - 1) == 2 * And(a / 2, h - 1) + a % 2
  {
    var b := 2 * h - 1;
    assert b / 2 == h - 1 && b % 2 == 1;
  }

  lemma {:induction false} ModDouble(a: nat, h: nat)
    requires h >= 1
    ensures a % (2 * h) == 2 * ((a / 2) % h) + a % 2
  {
    var q, r := (a / 2) / h, (a / 2) % h;
    assert a == (2 * h) * q + (2 * r + a % 2) by {
      assert a / 2 == h * q + r;
    }
    ModUnique(a, 2 * h, q, 2 * r + a % 2);
  }

  lemma {:induction false} ModUnique(a: int, n: int, q: int, r: int)
    requires n > 0 && 0 <= r < n && a == n * q + r
    ensures a % n == r && a / n == q
  {
    var d := a / n - q;
    assert n * d == r - a % n;
    SmallMultiple(n, d);
  }

  lemma {:induction false} SmallMultiple(n: int, d: int)
    requires n > 0 && -n < n * d < n
    ensures d == 0
  {
  }

  lemma {:induction false} ModShift(a: int, n: int, q: int)
    requires n > 0
    ensures (a + n * q) % n == a % n
  {
    ModUnique(a + n * q, n, a / n + q, a % n);
  }

  /** A remainder may be taken before or after an addition. */
  lemma {:induction false} ModOfSum(a: int, d: int, n: int)
    requires n > 0
    ensures (a % n + d) % n == (a + d) % n
  {
    ModShift(a % n + d, n, a / n);
  }

  // ---------------------------------------------------------------- kroundup32

  const TWO32: nat := 0x1_0000_0000

  /** One smearing step of the macro, `x |= x >> m`. */
  function Smear(x: nat, m: nat): nat { Or(x, Shr(x, m)) }

  /** `kroundup32(x)` on an unsigned 32-bit `x`, wrap-around included. */
  function RoundUp32(x: nat): nat
    requires x < TWO32
  {
    var a := if x == 0 then TWO32 - 1 else x - 1;
    (Smear(Smear(Smear(Smear(Smear(a, 1), 2), 4), 8), 16) + 1) % TWO32
  }

  /** Bit `p` is the top bit of `x`, and the `m` bits from `p` down are all set. */
  ghost predicate TopOnes(x: nat, p: nat, m: nat) {
    && (forall i: nat | i > p :: !Bit(x, i))
    && (forall i: nat | i <= p < i + m :: Bit(x, i))
  }

  lemma {:induction false} HasTopBit(a: nat) returns (p: nat)
    requires a >= 1
    ensures TopOnes(a, p, 1) && Pow2(p) <= a < 2 * Pow2(p)
  {
    if a == 1 {
      p := 0;
      forall i: nat | i > 0 ensures !Bit(a, i) { NoBits(i - 1); }
    } else {
      var q := HasTopBit(a / 2);
      p := q + 1;
      forall i: nat | i > p ensures !Bit(a, i) { assert !Bit(a / 2, i - 1); }
      assert Bit(a, p) by { assert Bit(a / 2, q); }
    }
  }

  lemma {:induction false} NoBits(i: nat)
    ensures !Bit(0, i)
  {
    if i > 0 { NoBits(i - 1); }
  }

  /** A smearing step by `m` doubles the run of ones. */
  lemma {:induction false} SmearDoubles(x: nat, p: nat, m: nat)
    requires TopOnes(x, p, m)
    ensures TopOnes(Smear(x, m), p, 2 * m)
  {
    forall i: nat
      ensures i > p ==> !Bit(Smear(x, m), i)
      ensures i <= p < i + 2 * m ==> Bit(Smear(x, m), i)
    {
      BitOfOr(x, Shr(x, m), i);
      BitOfShr(x, m, i);
    }
  }

  lemma {:induction false} AllOnes(x: nat, p: nat)
    requires TopOnes(x, p, p + 1)
    ensures x == 2 * Pow2(p) - 1
    decreases p
  {
    assert Bit(x, 0);
    if p == 0 {
      if x / 2 >= 1 {
        var t := HasTopBit(x / 2);
        assert Bit(x, t + 1);
      }
    } else {
      forall i: nat
        ensures i > p - 1 ==> !Bit(x / 2, i)
        ensures i <= p - 1 ==> Bit(x / 2, i)
      {
        assert Bit(x, i + 1) == Bit(x / 2, i);
      }
      AllOnes(x / 2, p - 1);
    }
  }

  /** After the five smearing steps every bit from the top bit down is set. */
  lemma {:induction false} SmearFully(a: nat) returns (p: nat)
    requires 1 <= a < 0x8000_0000
    ensures Pow2(p) <= a < 2 * Pow2(p) && p <= 30
    ensures Smear(Smear(Smear(Smear(Smear(a, 1), 2), 4), 8), 16) == 2 * Pow2(p) - 1
  {
    p := HasTopBit(a);
    Pow2Of31();
    if p >= 31 {
      if p > 31 { Pow2Monotone(31, p); }
      assert false;
    }
    SmearDoubles(a, p, 1);
    SmearDoubles(Smear(a, 1), p, 2);
    SmearDoubles(Smear(Smear(a, 1), 2), p, 4);
    SmearDoubles(Smear(Smear(Smear(a, 1), 2), 4), p, 8);
    SmearDoubles(Smear(Smear(Smear(Smear(a, 1), 2), 4), 8), p, 16);
    AllOnes(Smear(Smear(Smear(Smear(Smear(a, 1), 2), 4), 8), 16), p);
  }

  /** `kroundup32` yields the least power of two that is not below its argument. */
  lemma {:induction false} RoundUp32IsLeastPow2(x: nat)
    requires 1 <= x <= 0x8000_0000
    ensures IsPow2(RoundUp32(x)) && x <= RoundUp32(x) <= 0x8000_0000
    ensures forall k: nat :: x <= Pow2(k) ==> RoundUp32(x) <= Pow2(k)
  {
    var p := RoundUp32Value(x);
    BetweenPowers(x, p);
  }

  lemma {:induction false} RoundUp32Value(x: nat) returns (p: nat)
    requires 1 <= x <= 0x8000_0000
    ensures p <= 31 && RoundUp32(x) == Pow2(p) && x <= Pow2(p) < 2 * x
  {
    if x == 1 {
      RoundUp32OfOne();
      p := 0;
    } else {
      var q := SmearFully(x - 1);
      BelowTwo31(q);
      p := q + 1;
      assert Pow2(p) == 2 * Pow2(q);
      IncrementBelow(2 * Pow2(q) - 1);
    }
  }

  lemma {:induction false} IncrementBelow(a: nat)
    requires a < 0x8000_0000
    ensures (a + 1) % TWO32 == a + 1
  {
  }

  lemma {:induction false} BelowTwo31(q: nat)
    requires q <= 30
    ensures 2 * Pow2(q) <= 0x8000_0000
  {
    Pow2Of31();
    Pow2Monotone(q, 31);
  }

  lemma {:induction false} BetweenPowers(x: nat, p: nat)
    requires x <= Pow2(p) < 2 * x && p <= 31
    ensures IsPow2(Pow2(p)) && Pow2(p) <= 0x8000_0000
    ensures forall k: nat :: x <= Pow2(k) ==> Pow2(p) <= Pow2(k)
  {
    if p > 0 { BelowTwo31(p - 1); }
    forall k: nat | x <= Pow2(k) ensures Pow2(p) <= Pow2(k) {
      if k < p { Pow2Monotone(k, p); }
      if k > p { Pow2Monotone(p, k); }
    }
  }

  lemma {:induction false} RoundUp32OfOne()
    ensures RoundUp32(1) == 1 == Pow2(0)
  {
    ShrZero(1); ShrZero(2); ShrZero(4); ShrZero(8); ShrZero(16);
  }

  /** An argument of zero wraps around to zero. */
  lemma {:induction false} RoundUp32OfZero()
    ensures RoundUp32(0) == 0
  {
    var a := TWO32 - 1;
    Pow2Of31();
    OnesAreOnes(31);
    SmearKeepsOnes(a, 31, 1);
    SmearKeepsOnes(a, 31, 2);
    SmearKeepsOnes(a, 31, 4);
    SmearKeepsOnes(a, 31, 8);
    SmearKeepsOnes(a, 31, 16);
  }

  lemma {:induction false} OnesAreOnes(p: nat)
    ensures TopOnes(2 * Pow2(p) - 1, p, p + 1)
  {
    var x := 2 * Pow2(p) - 1;
    if p == 0 {
      forall i: nat | i > 0 ensures !Bit(x, i) { NoBits(i - 1); }
    } else {
      OnesAreOnes(p - 1);
      assert x / 2 == 2 * Pow2(p - 1) - 1;
      forall i: nat
        ensures i > p ==> !Bit(x, i)
        ensures i <= p ==> Bit(x, i)
      {
        if i > 0 { assert Bit(x, i) == Bit(x / 2, i - 1); }
      }
    }
  }

  lemma {:induction false} SmearKeepsOnes(x: nat, p: nat, m: nat)
    requires TopOnes(x, p, p + 1)
    ensures Smear(x, m) == x
  {
    forall i: nat
      ensures i > p ==> !Bit(Smear(x, m), i)
      ensures i <= p ==> Bit(Smear(x, m), i)
    {
      BitOfOr(x, Shr(x, m), i);
      BitOfShr(x, m, i);
    }
    AllOnes(Smear(x, m), p);
    AllOnes(x, p);
  }

  lemma {:induction false} ShrZero(m: nat)
    ensures Shr(0, m) == 0
  {
    if m > 0 { ShrZero(m - 1); }
  }

  lemma {:induction false} Pow2Of31()
    ensures Pow2(31) == 0x8000_0000
  {
    assert Pow2(8) == 256;
    assert Pow2(16) == 65536;
    assert Pow2(24) == 16777216;
  }
}

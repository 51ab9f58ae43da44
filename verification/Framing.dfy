/** Items written one after the other, and a reader that takes a given number of them off the front. */
module Framing {
  import opened Decimal

  /** What reading one item leaves: whether it went through, the bytes after it, and the state. */
  datatype Taken<D> = Taken(ok: bool, rest: Bytes, state: D)

  function Flat<A>(enc: A -> Bytes, xs: seq<A>): Bytes {
    if xs == [] then [] else Flat(enc, xs[..|xs| - 1]) + enc(xs[|xs| - 1])
  }

  function Fold<A, D>(put: (D, A) -> D, xs: seq<A>, d: D): D {
    if xs == [] then d else Fold(put, xs[1..], put(d, xs[0]))
  }

  /** `n` items, or up to the first that fails. */
  function Repeat<D>(step: (Bytes, D) -> Taken<D>, n: nat, s: Bytes, d: D): Taken<D>
    decreases n
  {
    if n == 0 then Taken(true, s, d)
    else
      var p := step(s, d);
      if p.ok then Repeat(step, n - 1, p.rest, p.state) else p
  }

  lemma {:induction false} RepeatOnce<D>(step: (Bytes, D) -> Taken<D>, n: nat, s: Bytes, d: D)
    requires n > 0
    ensures Repeat(step, n, s, d)
      == if step(s, d).ok then Repeat(step, n - 1, step(s, d).rest, step(s, d).state) else step(s, d)
  {
  }

  /** A step that goes through takes at least a byte. */
  ghost predicate Shrinks<D>(step: (Bytes, D) -> Taken<D>, s: Bytes, d: D) {
    step(s, d).ok ==> |step(s, d).rest| < |s|
  }

  ghost predicate Shrinking<D(!new)>(step: (Bytes, D) -> Taken<D>) {
    forall s, d {:trigger Shrinks(step, s, d)} :: Shrinks(step, s, d)
  }

  lemma {:induction false} RepeatShrinks<D(!new)>(step: (Bytes, D) -> Taken<D>, n: nat, s: Bytes, d: D)
    requires Shrinking(step)
    ensures Repeat(step, n, s, d).ok ==> |Repeat(step, n, s, d).rest| <= |s|
    decreases n
  {
    if n > 0 && step(s, d).ok {
      assert Shrinks(step, s, d);
      RepeatShrinks(step, n - 1, step(s, d).rest, step(s, d).state);
    }
  }

  /** The items before the first that is not good. */
  function GoodPrefix<A>(good: A -> bool, xs: seq<A>): seq<A> {
    if xs == [] || !good(xs[0]) then [] else [xs[0]] + GoodPrefix(good, xs[1..])
  }

  ghost predicate All<A(!new)>(good: A -> bool, xs: seq<A>) {
    forall x {:trigger good(x)} :: x in xs ==> good(x)
  }

  /** The step takes a good item off the front of its encoding and whatever follows, and fails on any other. */
  ghost predicate ReadsOne<A, D>(step: (Bytes, D) -> Taken<D>, enc: A -> Bytes, good: A -> bool, put: (D, A) -> D,
                                 x: A, t: Bytes, d: D) {
    step(enc(x) + t, d) == if good(x) then Taken(true, t, put(d, x)) else Taken(false, [], d)
  }

  ghost predicate Reads<A(!new), D(!new)>(step: (Bytes, D) -> Taken<D>, enc: A -> Bytes, fits: A -> bool,
                                          good: A -> bool, put: (D, A) -> D) {
    forall x, t, d {:trigger ReadsOne(step, enc, good, put, x, t, d)} ::
      fits(x) ==> ReadsOne(step, enc, good, put, x, t, d)
  }

  lemma {:induction false} FlatSnoc<A>(enc: A -> Bytes, xs: seq<A>, x: A)
    ensures Flat(enc, xs + [x]) == Flat(enc, xs) + enc(x)
  {
    assert (xs + [x])[..|xs|] == xs;
  }

  lemma {:induction false} FlatTwo<A>(enc: A -> Bytes, x: A, y: A)
    ensures Flat(enc, [x, y]) == enc(x) + enc(y)
  {
    FlatSnoc(enc, [x], y);
    FlatSnoc(enc, [], x);
    assert [x] + [y] == [x, y] && [] + [x] == [x];
  }

  lemma {:induction false} LastOfAppend<A>(xs: seq<A>, ys: seq<A>, n: nat)
    requires |ys| == n + 1
    ensures xs + ys == (xs + ys[..n]) + [ys[n]] && ys == ys[..n] + [ys[n]]
  {
  }

  lemma {:induction false} FlatAppend<A>(enc: A -> Bytes, xs: seq<A>, ys: seq<A>)
    ensures Flat(enc, xs + ys) == Flat(enc, xs) + Flat(enc, ys)
    decreases |ys|
  {
    if ys == [] {
      assert xs + ys == xs;
    } else {
      var n := |ys| - 1;
      var init, y := ys[..n], ys[n];
      LastOfAppend(xs, ys, n);
      FlatSnoc(enc, xs + init, y);
      FlatSnoc(enc, init, y);
      FlatAppend(enc, xs, init);
    }
  }

  lemma {:induction false} FlatCons<A>(enc: A -> Bytes, xs: seq<A>)
    requires xs != []
    ensures Flat(enc, xs) == enc(xs[0]) + Flat(enc, xs[1..])
  {
    FlatSnoc(enc, [], xs[0]);
    assert [] + [xs[0]] == [xs[0]];
    FlatAppend(enc, [xs[0]], xs[1..]);
    assert [xs[0]] + xs[1..] == xs;
  }

  lemma {:induction false} FlatHead<A>(enc: A -> Bytes, xs: seq<A>, t: Bytes)
    requires xs != []
    ensures Flat(enc, xs) + t == enc(xs[0]) + (Flat(enc, xs[1..]) + t)
  {
    FlatCons(enc, xs);
  }

  lemma {:induction false} FlatSplit<A>(enc: A -> Bytes, xs: seq<A>, n: nat)
    requires n <= |xs|
    ensures Flat(enc, xs) == Flat(enc, xs[..n]) + Flat(enc, xs[n..])
  {
    FlatAppend(enc, xs[..n], xs[n..]);
    assert xs[..n] + xs[n..] == xs;
  }

  /** More is asked for than there are good items: the reader goes on into what follows. */
  lemma {:induction false} RepeatPast<A(!new), D(!new)>(step: (Bytes, D) -> Taken<D>, enc: A -> Bytes, fits: A -> bool,
      good: A -> bool, put: (D, A) -> D, xs: seq<A>, n: nat, t: Bytes, d: D)
    requires Reads(step, enc, fits, good, put) && All(fits, xs) && All(good, xs) && |xs| <= n
    ensures Repeat(step, n, Flat(enc, xs) + t, d) == Repeat(step, n - |xs|, t, Fold(put, xs, d))
    decreases |xs|
  {
    if xs == [] {
      assert Flat(enc, xs) + t == t;
    } else {
      var x, tail := xs[0], xs[1..];
      assert fits(x) && good(x);
      FlatHead(enc, xs, t);
      assert ReadsOne(step, enc, good, put, x, Flat(enc, tail) + t, d);
      RepeatPast(step, enc, fits, good, put, tail, n - 1, t, put(d, x));
    }
  }

  /** With a bad item among them the reader fails there, with what came before. */
  lemma {:induction false} RepeatFails<A(!new), D(!new)>(step: (Bytes, D) -> Taken<D>, enc: A -> Bytes, fits: A -> bool,
      good: A -> bool, put: (D, A) -> D, xs: seq<A>, n: nat, t: Bytes, d: D)
    requires Reads(step, enc, fits, good, put) && All(fits, xs) && !All(good, xs) && |xs| <= n
    ensures Repeat(step, n, Flat(enc, xs) + t, d) == Taken(false, [], Fold(put, GoodPrefix(good, xs), d))
    decreases |xs|
  {
    var x, tail := xs[0], xs[1..];
    assert fits(x);
    FlatHead(enc, xs, t);
    assert ReadsOne(step, enc, good, put, x, Flat(enc, tail) + t, d);
    if good(x) {
      RepeatFails(step, enc, fits, good, put, tail, n - 1, t, put(d, x));
      assert ([x] + GoodPrefix(good, tail))[1..] == GoodPrefix(good, tail);
    }
  }

  lemma {:induction false} GoodPrefixIsAll<A(!new)>(good: A -> bool, xs: seq<A>)
    requires All(good, xs)
    ensures GoodPrefix(good, xs) == xs
    decreases |xs|
  {
    if xs != [] {
      assert good(xs[0]);
      GoodPrefixIsAll(good, xs[1..]);
    }
  }

  lemma {:induction false} GoodPrefixFrom<A(!new)>(good: A -> bool, xs: seq<A>)
    ensures forall x :: x in GoodPrefix(good, xs) ==> x in xs && good(x)
    decreases |xs|
  {
    if xs != [] { GoodPrefixFrom(good, xs[1..]); }
  }
}

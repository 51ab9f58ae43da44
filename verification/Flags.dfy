/**
 The hash table's bucket flags: two bits a bucket, sixteen buckets to a 32-bit word.
 `Unpack` gives the flags as a sequence; the macros that read and write single bits are
 proved to read and update exactly one element of it.
 */
module Flags {
  import opened Bits

  /** The two bits of one bucket: the high bit is `empty`, the low bit is `del`. */
  datatype Flag = Flag(empty: bool, del: bool) {
    predicate Live() { !empty && !del }
  }

  const EMPTY := Flag(true, false)
  const DELETED := Flag(false, true)
  const LIVE := Flag(false, false)

  /** The flag in slot `p` of a word. */
  function Slot(w: nat, p: nat): Flag {
    Flag(Bit(w, 2 * p + 1), Bit(w, 2 * p))
  }

  function FlagAt(words: seq<nat>, i: nat): Flag
    requires i / 16 < |words|
  {
    Slot(words[i / 16], i % 16)
  }

  /** `__ac_fsize`: the number of words for `m` buckets. */
  function WordCount(m: nat): nat {
    if m < 16 then 1 else m / 16
  }

  ghost predicate Covers(words: seq<nat>, n: nat) {
    n <= 16 * |words|
  }

  ghost function Unpack(words: seq<nat>, n: nat): (r: seq<Flag>)
    requires Covers(words, n)
    ensures |r| == n
    ensures forall i {:trigger FlagAt(words, i)} :: 0 <= i < n ==> r[i] == FlagAt(words, i)
  {
    if n == 0 then [] else Unpack(words, n - 1) + [FlagAt(words, n - 1)]
  }

  // The expressions of the flag macros on the word `w` that holds the bucket in slot `p`.

  function ReadBits(w: nat, p: nat, mask: nat): bool { And(Shr(w, 2 * p), mask) != 0 }

  function SetDel(w: nat, p: nat): nat { Or(w, Shl(1, 2 * p)) }

  function ClearEmpty(w: nat, p: nat): nat { AndNot(w, Shl(2, 2 * p)) }

  function ClearBoth(w: nat, p: nat): nat { AndNot(w, Shl(3, 2 * p)) }

  lemma {:induction false} SmallBits(i: nat)
    ensures Bit(1, i) <==> i == 0
    ensures Bit(2, i) <==> i == 1
    ensures Bit(3, i) <==> i <= 1
  {
    if i >= 1 { NoBits(i - 1); }
    if i >= 2 { NoBits(i - 2); }
  }

  lemma {:induction false} NonZeroHasBit(a: nat)
    ensures a != 0 <==> exists i: nat :: Bit(a, i)
  {
    if a != 0 {
      var p := HasTopBit(a);
      assert Bit(a, p) && (exists i: nat :: Bit(a, i));
    } else {
      forall i: nat ensures !Bit(a, i) { NoBits(i); }
    }
  }

  /** Reading with mask 2, 1 or 3 tells `empty`, `del`, or whether either is set. */
  lemma {:induction false} ReadsSlot(w: nat, p: nat)
    ensures ReadBits(w, p, 2) <==> Slot(w, p).empty
    ensures ReadBits(w, p, 1) <==> Slot(w, p).del
    ensures ReadBits(w, p, 3) <==> Slot(w, p).empty || Slot(w, p).del
  {
    var v := Shr(w, 2 * p);
    BitOfShr(w, 2 * p, 0);
    BitOfShr(w, 2 * p, 1);
    MaskedBits(v, 1);
    MaskedBits(v, 2);
    MaskedBits(v, 3);
  }

  lemma {:induction false} MaskedBits(v: nat, mask: nat)
    requires 1 <= mask <= 3
    ensures And(v, mask) != 0 <==> (Bit(mask, 0) && Bit(v, 0)) || (Bit(mask, 1) && Bit(v, 1))
  {
    NonZeroHasBit(And(v, mask));
    forall i: nat ensures Bit(And(v, mask), i) <==> i <= 1 && Bit(v, i) && Bit(mask, i) {
      BitOfAnd(v, mask, i);
      SmallBits(i);
    }
  }

  lemma {:induction false} SetDelWrites(w: nat, p: nat, q: nat)
    ensures Slot(SetDel(w, p), q) == if q == p then Slot(w, q).(del := true) else Slot(w, q)
  {
    forall i | i in {2 * q, 2 * q + 1} ensures Bit(SetDel(w, p), i) <==> Bit(w, i) || i == 2 * p {
      BitOfOr(w, Shl(1, 2 * p), i);
      BitOfShl(1, 2 * p, i);
      if i >= 2 * p { SmallBits(i - 2 * p); }
    }
  }

  lemma {:induction false} ClearEmptyWrites(w: nat, p: nat, q: nat)
    ensures Slot(ClearEmpty(w, p), q) == if q == p then Slot(w, q).(empty := false) else Slot(w, q)
  {
    forall i | i in {2 * q, 2 * q + 1} ensures Bit(ClearEmpty(w, p), i) <==> Bit(w, i) && i != 2 * p + 1 {
      BitOfAndNot(w, Shl(2, 2 * p), i);
      BitOfShl(2, 2 * p, i);
      if i >= 2 * p { SmallBits(i - 2 * p); }
    }
  }

  lemma {:induction false} ClearBothWrites(w: nat, p: nat, q: nat)
    ensures Slot(ClearBoth(w, p), q) == if q == p then LIVE else Slot(w, q)
  {
    forall i | i in {2 * q, 2 * q + 1}
      ensures Bit(ClearBoth(w, p), i) <==> Bit(w, i) && i != 2 * p && i != 2 * p + 1
    {
      BitOfAndNot(w, Shl(3, 2 * p), i);
      BitOfShl(3, 2 * p, i);
      if i >= 2 * p { SmallBits(i - 2 * p); }
    }
  }

  const FRESH_WORD: nat := 0xaaaa_aaaa

  /** The word with `m` slots that are all empty: the digit 2 in base four, `m` times. */
  function AllEmptyWord(m: nat): nat { if m == 0 then 0 else 4 * AllEmptyWord(m - 1) + 2 }

  lemma {:induction false} FirstSlot(w: nat, u: nat)
    requires w == 4 * u + 2
    ensures w / 2 == 2 * u + 1 && Slot(w, 0) == EMPTY
  {
    Halved(2 * u + 1, 0);
    Halved(u, 1);
    assert Bit(w, 1) == Bit(2 * u + 1, 0);
  }

  lemma {:induction false} BitBehind(w: nat, u: nat, i: nat)
    requires w == 4 * u + 2
    ensures Bit(w, i + 2) == Bit(u, i)
  {
    FirstSlot(w, u);
    Halved(u, 1);
    assert Bit(w, i + 2) == Bit(2 * u + 1, i + 1);
  }

  /** The slots of a word from the second on are those of the word shifted by one slot. */
  lemma {:induction false} SlotBehind(w: nat, u: nat, p: nat)
    requires w == 4 * u + 2
    ensures Slot(w, p + 1) == Slot(u, p)
  {
    BitBehind(w, u, 2 * p);
    BitBehind(w, u, 2 * p + 1);
    assert 2 * (p + 1) == 2 * p + 2;
  }

  lemma {:induction false} FreshSlot(m: nat, p: nat)
    requires p < m
    ensures Slot(AllEmptyWord(m), p) == EMPTY
    decreases m
  {
    var w, u := AllEmptyWord(m), AllEmptyWord(m - 1);
    if p == 0 {
      FirstSlot(w, u);
    } else {
      FreshSlot(m - 1, p - 1);
      SlotBehind(w, u, p - 1);
    }
  }

  lemma {:induction false} FreshWordSlots(p: nat)
    requires p < 16
    ensures Slot(FRESH_WORD, p) == EMPTY
  {
    assert AllEmptyWord(4) == 0xaa;
    assert AllEmptyWord(8) == 0xaaaa;
    assert AllEmptyWord(12) == 0xaa_aaaa;
    assert AllEmptyWord(16) == FRESH_WORD;
    FreshSlot(16, p);
  }

  /** `__ac_isempty`, `__ac_isdel` and `__ac_iseither`. */
  predicate IsEmpty(words: seq<nat>, i: nat)
    requires i / 16 < |words|
    ensures IsEmpty(words, i) <==> FlagAt(words, i).empty
  {
    ReadsSlot(words[i / 16], i % 16);
    ReadBits(words[i / 16], i % 16, 2)
  }

  predicate IsDel(words: seq<nat>, i: nat)
    requires i / 16 < |words|
    ensures IsDel(words, i) <==> FlagAt(words, i).del
  {
    ReadsSlot(words[i / 16], i % 16);
    ReadBits(words[i / 16], i % 16, 1)
  }

  predicate IsEither(words: seq<nat>, i: nat)
    requires i / 16 < |words|
    ensures IsEither(words, i) <==> !FlagAt(words, i).Live()
  {
    ReadsSlot(words[i / 16], i % 16);
    ReadBits(words[i / 16], i % 16, 3)
  }

  /** Writing slot `i % 16` of word `i / 16` writes bucket `i`. */
  lemma {:induction false} UnpackWrite(words: seq<nat>, n: nat, i: nat, w: nat, f: Flag)
    requires i < n && Covers(words, n)
    requires forall q: nat :: q < 16 ==> Slot(w, q) == if q == i % 16 then f else Slot(words[i / 16], q)
    ensures Unpack(words[i / 16 := w], n) == Unpack(words, n)[i := f]
  {
    var words' := words[i / 16 := w];
    forall j: nat | j < n ensures Unpack(words', n)[j] == Unpack(words, n)[i := f][j] {
      assert FlagAt(words', j) == if j == i then f else FlagAt(words, j) by {
        if j / 16 == i / 16 && j % 16 == i % 16 {
          assert j == i;
        }
      }
    }
  }

  /** `__ac_set_isdel_true` */
  method SetDelTrue(flags: array<nat>, i: nat, ghost n: nat)
    requires i < n && Covers(flags[..], n)
    modifies flags
    ensures Covers(flags[..], n)
    ensures Unpack(flags[..], n) == old(Unpack(flags[..], n))[i := old(FlagAt(flags[..], i)).(del := true)]
  {
    ghost var words, w := flags[..], SetDel(flags[i / 16], i % 16);
    forall q: nat { SetDelWrites(words[i / 16], i % 16, q); }
    UnpackWrite(words, n, i, w, FlagAt(words, i).(del := true));
    flags[i / 16] := SetDel(flags[i / 16], i % 16);
    assert flags[..] == words[i / 16 := w];
  }

  /** `__ac_set_isempty_false` */
  method SetEmptyFalse(flags: array<nat>, i: nat, ghost n: nat)
    requires i < n && Covers(flags[..], n)
    modifies flags
    ensures Covers(flags[..], n)
    ensures Unpack(flags[..], n) == old(Unpack(flags[..], n))[i := old(FlagAt(flags[..], i)).(empty := false)]
  {
    ghost var words, w := flags[..], ClearEmpty(flags[i / 16], i % 16);
    forall q: nat { ClearEmptyWrites(words[i / 16], i % 16, q); }
    UnpackWrite(words, n, i, w, FlagAt(words, i).(empty := false));
    flags[i / 16] := ClearEmpty(flags[i / 16], i % 16);
    assert flags[..] == words[i / 16 := w];
  }

  /** `__ac_set_isboth_false` */
  method SetBothFalse(flags: array<nat>, i: nat, ghost n: nat)
    requires i < n && Covers(flags[..], n)
    modifies flags
    ensures Covers(flags[..], n)
    ensures Unpack(flags[..], n) == old(Unpack(flags[..], n))[i := LIVE]
  {
    ghost var words, w := flags[..], ClearBoth(flags[i / 16], i % 16);
    forall q: nat { ClearBothWrites(words[i / 16], i % 16, q); }
    UnpackWrite(words, n, i, w, LIVE);
    flags[i / 16] := ClearBoth(flags[i / 16], i % 16);
    assert flags[..] == words[i / 16 := w];
  }

  /** A block of flag words filled with 0xaa bytes: every bucket empty. */
  method FreshFlags(n: nat) returns (flags: array<nat>)
    requires n < 16 || n % 16 == 0
    ensures fresh(flags) && Covers(flags[..], n)
    ensures forall i :: 0 <= i < n ==> Unpack(flags[..], n)[i] == EMPTY
  {
    flags := new nat[WordCount(n)](_ => FRESH_WORD);
    forall i: nat | i < n ensures Unpack(flags[..], n)[i] == EMPTY {
      assert FlagAt(flags[..], i) == EMPTY by { FreshWordSlots(i % 16); }
    }
  }
}

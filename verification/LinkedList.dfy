/** The doubly linked list behind list values: pushes at both ends and range reads, refining a sequence. */
module LinkedList {
  import opened Decimal

  // ------------------------------------------------------------------------ ranges

  /** A `size_t` stored into an `int`. */
  function ToInt(x: int): int { (x + 0x8000_0000) % 0x1_0000_0000 - 0x8000_0000 }

  lemma {:induction false} ToIntKeeps(x: int)
    requires -0x8000_0000 <= x < 0x8000_0000
    ensures ToInt(x) == x
  {
  }

  /** An index counted from the end when negative. */
  function FromEnd(n: int, i: int): int { if i < 0 then n + i else i }

  /** The range `lrange` promises: both ends inclusive, empty for a start outside the list. */
  function RangeOf<T>(items: seq<T>, start: int, end: int): seq<T> {
    var lo, hi := FromEnd(|items|, start), FromEnd(|items|, end);
    if lo < 0 || lo >= |items| || hi < lo then []
    else items[lo .. if hi < |items| then hi + 1 else |items|]
  }

  /** The same index in the code, where the sum goes through an `int`. */
  function IntFromEnd(n: int, i: int): int { if i < 0 then ToInt(n + i) else i }

  /** The range `lrange` reads: the sums and the count go through `int`, and no count above its range is allocated. */
  function RangeRead<T>(items: seq<T>, start: int, end: int): seq<T> {
    var lo, hi := IntFromEnd(|items|, start), IntFromEnd(|items|, end);
    if lo < 0 || lo >= |items| || hi < lo then []
    else
      var to := if hi < |items| then hi + 1 else |items|;
      if to - lo <= INT_MAX then items[lo..to] else []
  }

  /**
   Where the sums and the count fit an `int`, and so for every list of fewer than 2^31 items, it is the
   promised one.
   */
  lemma {:induction false} RangeReadIsPromised<T>(items: seq<T>, start: int, end: int)
    requires INT_MIN <= start <= INT_MAX && INT_MIN <= end <= INT_MAX
    requires FromEnd(|items|, start) <= INT_MAX && FromEnd(|items|, end) <= INT_MAX
    requires |items| <= INT_MAX || FromEnd(|items|, start) != 0
    ensures RangeRead(items, start, end) == RangeOf(items, start, end)
  {
    if start < 0 { ToIntKeeps(|items| + start); }
    if end < 0 { ToIntKeeps(|items| + end); }
  }

  /** The items whose index lies between the two ends, wherever those are. */
  function Between<T>(items: seq<T>, lo: int, hi: int): seq<T> {
    var from := if lo < 0 then 0 else lo;
    var to := if hi < |items| then hi + 1 else |items|;
    if from < to then items[from..to] else []
  }

  /** A start before the head empties the range even where later items lie in it; nothing else does. */
  lemma {:induction false} RangeIsBetweenIff<T>(items: seq<T>, start: int, end: int)
    ensures RangeOf(items, start, end) == Between(items, FromEnd(|items|, start), FromEnd(|items|, end))
       <==> !(FromEnd(|items|, start) < 0 && items != [] && FromEnd(|items|, end) >= 0)
  {
    var lo, hi := FromEnd(|items|, start), FromEnd(|items|, end);
    var all := Between(items, lo, hi);
    if lo < 0 && items != [] && hi >= 0 {
      assert |all| > 0;
    }
  }

  /** Ranges that meet cut the list without losing or repeating an item. */
  lemma {:induction false} RangesJoin<T>(items: seq<T>, k: nat)
    requires 0 < k < |items|
    ensures RangeOf(items, 0, k - 1) + RangeOf(items, k, -1) == items
    ensures RangeOf(items, 0, -1) == items
    ensures RangeOf(items, k, k) == [items[k]] == RangeOf(items, k - |items|, k - |items|)
  {
  }

  /** Up to `count` items from `start` on. */
  function SliceOf<T>(items: seq<T>, start: nat, count: nat): seq<T> {
    if start < |items| then items[start .. if start + count < |items| then start + count else |items|] else []
  }

  /** The sums that the code computes in `int` once the range is known to meet the list, and what they select. */
  lemma {:induction false} IntRange<T>(items: seq<T>, lo: int, hi: int, start: int, end: int)
    requires INT_MIN <= start <= INT_MAX && INT_MIN <= end <= INT_MAX
    requires lo == IntFromEnd(|items|, start) && hi == IntFromEnd(|items|, end) && 0 <= lo <= hi && lo < |items|
    ensures hi >= |items| ==> ToInt(|items| - 1) == |items| - 1
    ensures var top := if hi >= |items| then |items| - 1 else hi;
      var count := ToInt(top - lo + 1);
      RangeRead(items, start, end)
        == if count < 0 then [] else SliceOf(items, lo, count)
  {
    if hi >= |items| { ToIntKeeps(|items| - 1); }
    var top := if hi >= |items| then |items| - 1 else hi;
    if top - lo + 1 <= INT_MAX { ToIntKeeps(top - lo + 1); }
  }

  // ------------------------------------------------------------------------ the list

  class Node {
    var data: Bytes
    var prev: Node?
    var next: Node?
    /** The list the node belongs to. */
    ghost const owner: object

    constructor (data: Bytes, ghost owner: object)
      ensures this.data == data && prev == null && next == null && this.owner == owner
    {
      this.data := data;
      this.owner := owner;
      prev, next := null, null;
    }
  }

  ghost function NodeAt(nodes: seq<Node>, i: int): Node? {
    if 0 <= i < |nodes| then nodes[i] else null
  }

  /** `k` steps along `next`. */
  ghost function Ahead(n: Node?, k: nat, s: set<Node>): Node?
    reads s
    decreases k
  {
    if k == 0 then n else if n == null || n !in s then null else Ahead(n.next, k - 1, s)
  }

  /** `k` steps along `prev`. */
  ghost function Behind(n: Node?, k: nat, s: set<Node>): Node?
    reads s
    decreases k
  {
    if k == 0 then n else if n == null || n !in s then null else Behind(n.prev, k - 1, s)
  }

  class List {
    var head: Node?
    var tail: Node?
    var length: nat
    ghost var nodes: seq<Node>
    ghost var contents: seq<Bytes>
    /** The key the list is made for. */
    ghost const home: Bytes

    /** The length is what the creator found in memory until the first push sets it. */
    ghost predicate Valid()
      reads this, nodes
    {
      && (forall i :: 0 <= i < |nodes| ==> nodes[i].owner == this)
      && (forall i, j :: 0 <= i < j < |nodes| ==> nodes[i] != nodes[j])
      && (forall i {:trigger nodes[i].next} :: 0 <= i < |nodes| ==> nodes[i].next == NodeAt(nodes, i + 1))
      && (forall i {:trigger nodes[i].prev} :: 0 <= i < |nodes| ==> nodes[i].prev == NodeAt(nodes, i - 1))
      && |contents| == |nodes| && (forall i :: 0 <= i < |nodes| ==> nodes[i].data == contents[i])
      && (if nodes == [] then head == null && tail == null
          else head == nodes[0] && tail == nodes[|nodes| - 1] && length == |nodes|)
    }

    constructor (garbage: nat, ghost home: Bytes)
      ensures Valid() && contents == [] && nodes == [] && this.home == home
    {
      this.home := home;
      head, tail, length, nodes, contents := null, null, garbage, [], [];
    }

    /** The first node of an empty list, whose length is set here and not before. */
    method PushFirst(data: Bytes)
      requires Valid() && nodes == []
      modifies this
      ensures Valid() && contents == [data] && fresh(set n <- nodes)
    {
      var n := new Node(data, this);
      head, tail, length := n, n, 1;
      nodes, contents := [n], [data];
    }

    method PushFront(data: Bytes)
      requires Valid() && nodes != []
      modifies this, nodes
      ensures Valid() && contents == [data] + old(contents) && forall n :: n in nodes ==> n in old(nodes) || fresh(n)
    {
      var n := new Node(data, this);
      n.next := head;
      head.prev := n;
      head := n;
      length := length + 1;
      ghost var was := nodes;
      nodes, contents := [n] + was, [data] + contents;
      assert forall i :: 0 < i < |nodes| ==> nodes[i] == was[i - 1];
    }

    method PushBack(data: Bytes)
      requires Valid() && nodes != []
      modifies this, nodes
      ensures Valid() && contents == old(contents) + [data] && forall n :: n in nodes ==> n in old(nodes) || fresh(n)
    {
      var n := new Node(data, this);
      n.prev := tail;
      tail.next := n;
      tail := n;
      length := length + 1;
      ghost var was := nodes;
      nodes, contents := was + [n], contents + [data];
      assert forall i :: 0 <= i < |was| ==> nodes[i] == was[i];
    }

    /** `lpush` */
    method PushLeft(data: Bytes) returns (len: int)
      requires Valid()
      modifies this, nodes
      ensures Valid() && forall n :: n in nodes ==> n in old(nodes) || fresh(n)
      ensures contents == [data] + old(contents)
      ensures length == |nodes| && len == ToInt(|nodes|)
    {
      if head == null && tail == null { PushFirst(data); } else { PushFront(data); }
      len := ToInt(length);
    }

    /** `rpush` */
    method PushRight(data: Bytes) returns (len: int)
      requires Valid()
      modifies this, nodes
      ensures Valid() && forall n :: n in nodes ==> n in old(nodes) || fresh(n)
      ensures contents == old(contents) + [data]
      ensures length == |nodes| && len == ToInt(|nodes|)
    {
      if head == null && tail == null { PushFirst(data); } else { PushBack(data); }
      len := ToInt(length);
    }

    /** Walk to `start`, then copy up to `count` items. */
    method Walk(start: nat, count: nat) returns (items: seq<Bytes>)
      requires Valid()
      ensures items == SliceOf(contents, start, count)
    {
      var cur := head;
      var i := 0;
      while i < start && cur != null
        invariant 0 <= i <= start && i <= |nodes|
        invariant cur == if i < |nodes| then nodes[i] else null
      {
        cur := cur.next;
        i := i + 1;
      }
      items := [];
      ghost var from := i;
      while |items| < count && cur != null
        invariant |items| <= count && from + |items| <= |nodes|
        invariant cur == if from + |items| < |nodes| then nodes[from + |items|] else null
        invariant items == contents[from .. from + |items|]
      {
        items := items + [cur.data];
        cur := cur.next;
      }
    }

    method Range(start: int, end: int) returns (items: seq<Bytes>)
      requires Valid() && INT_MIN <= start <= INT_MAX && INT_MIN <= end <= INT_MAX
      ensures items == RangeRead(contents, start, end)
    {
      var lo, hi := IntFromEnd(length, start), IntFromEnd(length, end);
      if lo < 0 || lo >= length || hi < lo { return []; }
      if nodes != [] { IntRange(contents, lo, hi, start, end); }
      if hi >= length { hi := ToInt(length - 1); }
      var count := ToInt(hi - lo + 1);
      if count < 0 { return []; }
      items := Walk(lo, count);
    }

    ghost function NodeSet(): set<Node>
      reads this
    {
      set n <- nodes
    }

    /** The chain of `next` pointers from the head is the chain of `prev` pointers from the tail, reversed. */
    lemma {:induction false} ChainsAgree(k: nat)
      requires Valid() && k < |nodes|
      ensures Ahead(head, k, NodeSet()) == nodes[k] == Behind(tail, |nodes| - 1 - k, NodeSet())
      ensures Ahead(head, |nodes|, NodeSet()) == null == Behind(tail, |nodes|, NodeSet())
    {
      AheadFrom(0, k);
      AheadFrom(0, |nodes|);
      BehindFrom(|nodes| - 1, |nodes| - 1 - k);
      BehindFrom(|nodes| - 1, |nodes|);
    }

    lemma {:induction false} AheadFrom(i: nat, k: nat)
      requires Valid() && i < |nodes| && i + k <= |nodes|
      ensures Ahead(nodes[i], k, NodeSet()) == if i + k < |nodes| then nodes[i + k] else null
      decreases k
    {
      assert nodes[i] in NodeSet();
      if k > 0 {
        assert Ahead(nodes[i], k, NodeSet()) == Ahead(nodes[i].next, k - 1, NodeSet());
        if i + 1 < |nodes| { AheadFrom(i + 1, k - 1); }
      }
    }

    lemma {:induction false} BehindFrom(i: nat, k: nat)
      requires Valid() && i < |nodes| && k <= i + 1
      ensures Behind(nodes[i], k, NodeSet()) == if k <= i then nodes[i - k] else null
      decreases k
    {
      assert nodes[i] in NodeSet();
      if k > 0 {
        assert Behind(nodes[i], k, NodeSet()) == Behind(nodes[i].prev, k - 1, NodeSet());
        if i > 0 { BehindFrom(i - 1, k - 1); }
      }
    }
  }
}

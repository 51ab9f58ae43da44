/** What the table's entries point to: strings, and list objects that change behind the pointer. */
module Cells {
  import opened Decimal
  import opened LinkedList
  import opened Scan
  import opened Store

  datatype CellValue = StrCell(s: Bytes) | ListCell(list: List)

  datatype Cell = Cell(value: CellValue, expiration: int)

  type Cells = map<Bytes, Cell>

  /** What each list holds. */
  type Lists = map<List, seq<Bytes>>

  /** The entry a cell shows. */
  function Shown(c: Cell, lists: Lists): Entry {
    match c.value
    case StrCell(s) => Entry(Str(s), c.expiration)
    case ListCell(l) => Entry(ListOf(if l in lists then lists[l] else []), c.expiration)
  }

  /** The store that a table of cells shows. */
  ghost function StoreOf(m: Cells, lists: Lists): Db { map k | k in m :: Shown(m[k], lists) }

  /** A list belongs to its key alone. */
  ghost predicate AtHome(k: Bytes, c: Cell, lists: Lists) {
    c.value.ListCell? ==> c.value.list in lists && c.value.list.home == k
  }

  ghost function Strays(m: Cells, lists: Lists): set<Bytes> {
    set k | k in m && !AtHome(k, m[k], lists)
  }

  /** No two keys share a list. */
  ghost predicate Homes(m: Cells, lists: Lists) { Strays(m, lists) == {} }

  ghost predicate Holding(l: List, items: seq<Bytes>, nodes: set<Node>)
    reads l, nodes
  {
    (forall n :: n in l.nodes ==> n in nodes) && l.Valid() && l.contents == items
  }

  /** The lists that are not well formed or do not hold what is said of them. */
  ghost function Broken(lists: Lists, nodes: set<Node>): set<List>
    reads lists.Keys, nodes
  {
    set l | l in lists && !Holding(l, lists[l], nodes)
  }

  ghost predicate Intact(lists: Lists, nodes: set<Node>)
    reads lists.Keys, nodes
  {
    Broken(lists, nodes) == {}
  }

  lemma {:induction false} AtHomeUnder(m: Cells, lists: Lists, key: Bytes)
    requires Homes(m, lists) && key in m
    ensures AtHome(key, m[key], lists)
  {
    assert key !in Strays(m, lists);
  }

  lemma {:induction false} StringPut(m: Cells, lists: Lists, key: Bytes, s: Bytes, e: int)
    requires Homes(m, lists)
    ensures var m' := m[key := Cell(StrCell(s), e)];
      StoreOf(m', lists) == Set(StoreOf(m, lists), key, Str(s), e) && Homes(m', lists)
  {
    assert forall k :: k in m ==> k !in Strays(m, lists);
  }

  lemma {:induction false} CellDeleted(m: Cells, lists: Lists, key: Bytes)
    requires Homes(m, lists)
    ensures StoreOf(m - {key}, lists) == Delete(StoreOf(m, lists), key) && Homes(m - {key}, lists)
  {
    assert forall k :: k in m ==> k !in Strays(m, lists);
  }

  lemma {:induction false} ListPut(m: Cells, lists: Lists, key: Bytes, l: List, e: int)
    requires Homes(m, lists) && l !in lists && l.home == key
    ensures var m', lists' := m[key := Cell(ListCell(l), e)], lists[l := []];
      StoreOf(m', lists') == Set(StoreOf(m, lists), key, ListOf([]), e) && Homes(m', lists')
  {
    assert forall k :: k in m ==> k !in Strays(m, lists);
  }

  /** One list changes behind its pointer: the key it belongs to shows the change, and no other. */
  lemma {:induction false} ListChanged(m: Cells, lists: Lists, key: Bytes, l: List, items: seq<Bytes>)
    requires Homes(m, lists) && key in m && m[key].value == ListCell(l)
    ensures var db, lists' := StoreOf(m, lists), lists[l := items];
      key in db && StoreOf(m, lists') == Set(db, key, ListOf(items), db[key].expiration) && Homes(m, lists')
  {
    assert forall k :: k in m ==> k !in Strays(m, lists);
  }

  /** The pairs that listed cells show. */
  function EntriesOf(cs: seq<(Bytes, Cell)>, lists: Lists): (es: seq<Pair>)
    ensures |es| == |cs|
  {
    if cs == [] then [] else EntriesOf(cs[..|cs| - 1], lists) + [(cs[|cs| - 1].0, Shown(cs[|cs| - 1].1, lists))]
  }

  lemma {:induction false} EntriesAt(cs: seq<(Bytes, Cell)>, lists: Lists)
    ensures forall i :: 0 <= i < |cs| ==> EntriesOf(cs, lists)[i] == (cs[i].0, Shown(cs[i].1, lists))
    decreases |cs|
  {
    if cs != [] { EntriesAt(cs[..|cs| - 1], lists); }
  }

  lemma {:induction false} EntriesSnoc(cs: seq<(Bytes, Cell)>, c: (Bytes, Cell), lists: Lists)
    ensures EntriesOf(cs + [c], lists) == EntriesOf(cs, lists) + [(c.0, Shown(c.1, lists))]
  {
    assert (cs + [c])[..|cs|] == cs;
  }

  lemma {:induction false} StoreSize(m: Cells, lists: Lists)
    ensures |StoreOf(m, lists)| == |m|
  {
    assert StoreOf(m, lists).Keys == m.Keys;
    assert |StoreOf(m, lists).Keys| == |StoreOf(m, lists)| && |m.Keys| == |m|;
  }

  lemma {:induction false} EntriesFrom(cs: seq<(Bytes, Cell)>, m: Cells, lists: Lists, k: Bytes)
    requires Scan.Lists(cs, m) && k in PutAll(EntriesOf(cs, lists), map[])
    ensures k in m && PutAll(EntriesOf(cs, lists), map[])[k] == Shown(m[k], lists)
  {
    EntriesAt(cs, lists);
    var j := PutAllOrigin(EntriesOf(cs, lists), map[], k);
    assert cs[j].0 in m;
  }

  lemma {:induction false} EntriesShow(cs: seq<(Bytes, Cell)>, m: Cells, lists: Lists)
    requires Distinct(cs) && Scan.Lists(cs, m)
    ensures DistinctKeys(EntriesOf(cs, lists)) && PutAll(EntriesOf(cs, lists), map[]) == StoreOf(m, lists)
  {
    EntriesAt(cs, lists);
    var es := EntriesOf(cs, lists);
    var all := PutAll(es, map[]);
    forall k | k in all
      ensures k in m && all[k] == Shown(m[k], lists)
    {
      EntriesFrom(cs, m, lists, k);
    }
    forall k | k in m
      ensures k in all
    {
      var j: nat :| j < |cs| && cs[j].0 == k;
      j := LastPut(es, map[], k, j);
    }
  }

  lemma {:induction false} HoldingOf(lists: Lists, nodes: set<Node>, l: List)
    requires Intact(lists, nodes) && l in lists
    ensures Holding(l, lists[l], nodes)
  {
    assert l !in Broken(lists, nodes);
  }

  lemma {:induction false} IntactNew(lists: Lists, nodes: set<Node>, l: List)
    requires Intact(lists, nodes) && Holding(l, [], nodes)
    ensures Intact(lists[l := []], nodes)
  {
    var lists' := lists[l := []];
    forall l' | l' in lists'
      ensures l' !in Broken(lists', nodes)
    {
      assert l' !in Broken(lists, nodes);
    }
  }

  method PushEither(l: List, left: bool, item: Bytes) returns (len: int)
    requires l.Valid()
    modifies l, l.nodes
    ensures l.Valid() && forall n :: n in l.nodes ==> n in old(l.nodes) || fresh(n)
    ensures l.contents == Pushed(left, item, old(l.contents)) && len == ToInt(|old(l.contents)| + 1)
  {
    if left {
      len := l.PushLeft(item);
    } else {
      len := l.PushRight(item);
    }
  }

  /** A push onto one of the lists leaves all others as they are. */
  method PushOn(l: List, left: bool, item: Bytes, ghost lists: Lists, ghost nodes: set<Node>)
    returns (len: int, ghost nodes': set<Node>)
    requires l in lists && Intact(lists, nodes) && Holding(l, lists[l], nodes)
    modifies l, l.nodes
    ensures Intact(lists[l := Pushed(left, item, lists[l])], nodes')
    ensures nodes <= nodes' && forall n :: n in nodes' ==> n in nodes || fresh(n)
    ensures len == ToInt(|lists[l]| + 1)
  {
    assert forall l' :: l' in lists ==> l' !in Broken(lists, nodes);
    len := PushEither(l, left, item);
    nodes' := nodes + set n <- l.nodes;
    ghost var lists' := lists[l := Pushed(left, item, lists[l])];
    forall l' | l' in lists'
      ensures Holding(l', lists'[l'], nodes')
    {
      if l' != l {
        assert forall n :: n in l'.nodes ==> n.owner == l';
      }
    }
  }
}

/** `core_list_init`: the list the benchmark starts from. */
module ListInit {
  import opened StableSort
  import opened ListItems
  import opened ListHeap
  import opened ListBench

  // ---- the items ----

  /** The low 16 bits of a counter. */
  function Low16(i: nat): bv16 { if i == 0 then 0 else Plus16(Low16(i - 1), 1) }

  function Plus16(x: bv16, y: bv16): bv16 { x + y }

  /** The data of inserted item `b`: the same seven bits in both bytes. */
  function DataFor(seed: bv16, b: bv16): bv16 {
    var dat := (((seed ^ b) & 0xf) << 3) | (b & 7);
    (dat << 8) | dat
  }

  /** A new item holds no cached value and has equal bytes; its operation is the last three
      bits of its number, its argument four bits of number and seed. */
  lemma NewItemData(seed: bv16, b: bv16)
    ensures var x := DataFor(seed, b);
      && !Cached(x) && SameBytes(x) && x % 8 == b % 8 && (x / 8) % 16 == (seed ^ b) % 16
  {
  }

  /** The index of a cell behind the first fifth. */
  function Mixed(seed: bv16, b: bv16): (r: bv16)
    ensures r < 0x4000
  {
    0x3fff & ((((b + 1) & 7) << 8) | (b ^ seed))
  }

  /** A 16-bit value as a number. */
  function ToInt(x: bv16): (n: nat)
    ensures n < 0x1_0000
  {
    x as int
  }

  lemma BelowRange(x: bv16)
    requires x < 0x4000
    ensures ToInt(x) < 0x4000
  {
  }

  function IndexFor(size: nat, seed: bv16, i: nat): Int16 {
    if i < size / 5 then Wrap16(i)
    else
      BelowRange(Mixed(seed, Low16(i)));
      ToInt(Mixed(seed, Low16(i)))
  }

  /** The item at position `t` when `k` items were inserted between head and tail. */
  function InsertedItem(seed: bv16, k: nat, t: nat): Item
    requires t <= k + 1
  {
    if t == 0 then Item(0, 0x8080)
    else if t == k + 1 then Item(0x7fff, 0xffff)
    else Item(0x7fff, DataFor(seed, Low16(k - t)))
  }

  /** The item at position `t` of the finished list, before the sort. */
  function InitialItem(size: nat, seed: bv16, t: nat): Item
    requires size >= 3 && t + 1 < size
  {
    var it := InsertedItem(seed, size - 3, t);
    if t == 0 || t == size - 2 then it else it.(idx := IndexFor(size, seed, t))
  }

  // ---- building the list ----

  ghost predicate DistinctInfos(s: seq<Cell>) {
    forall i, j :: 0 <= i < j < |s| ==> s[i].info != s[j].info
  }

  /** Head, `k` inserted items, tail. */
  ghost predicate Inserted(s: seq<Cell>, seed: bv16, k: nat)
    reads Infos(s)
  {
    |s| == k + 2 && forall t :: 0 <= t < |s| ==> s[t] in s && Holds(s[t].info, InsertedItem(seed, k, t))
  }

  /** As before the sort: the cells before position `n` have got their indices. */
  ghost predicate Indexed(s: seq<Cell>, size: nat, seed: bv16, n: nat)
    reads Infos(s)
  {
    && size >= 3 && |s| == size - 1
    && forall t :: 0 <= t < |s| ==>
      && s[t] in s
      && Holds(s[t].info, if t < n then InitialItem(size, seed, t) else InsertedItem(seed, size - 3, t))
  }

  /** The cells before the sort, with their items. */
  ghost predicate Initial(items: map<ListData, Item>, base: seq<Cell>, size: nat, seed: bv16) {
    && size >= 3 && |base| == size - 1 && DistinctInfos(base) && items.Keys == Infos(base)
    && forall t :: 0 <= t < |base| ==> Get(items, base[t].info) == InitialItem(size, seed, t)
  }

  /** `core_list_insert_new`: behind the head, unless the memory block is used up. */
  method InsertNew(head: ListHead, data16: bv16, idx: Int16, used0: nat, size: nat, ghost s: seq<Cell>)
    returns (used: nat, ghost out: seq<Cell>)
    requires IsList(head, s) && s != []
    modifies head`next
    ensures used0 + 1 >= size ==> used == used0 && out == s
    ensures used0 + 1 < size ==>
              && used == used0 + 1 && |out| == |s| + 1 && out[0] == s[0] && out[2..] == s[1..]
              && fresh(out[1].node) && fresh(out[1].info) && Holds(out[1].info, Item(idx, data16))
    ensures IsList(head, out)
  {
    if used0 + 1 >= size {
      return used0, s;
    }
    CellsOfList(head, s);
    used := used0 + 1;
    var info := new ListData(data16, idx);
    var newitem := new ListHead(head.next, info);
    head.next := newitem;
    out := [s[0], Cell(newitem, info)] + s[1..];
    ListByCells(head, out);
  }

  /** `core_list_init`: a new list, sorted by index, of the cells and items described. */
  method CoreListInit(size: nat, seed: bv16) returns (list: ListHead, ghost out: seq<Cell>, ghost base: seq<Cell>)
    requires size >= 3
    ensures fresh(Nodes(out)) && fresh(Infos(out)) && IsList(list, out) && multiset(out) == multiset(base)
    ensures var items := Snapshot(Infos(out), Regs(0, 0, 0, 0)).items;
      Sorted(ByIndex(items), out) && Initial(items, base, size, seed)
  {
    hide *;
    var head;
    head, base := InsertAll(size, seed);
    SetIndices(head, size, seed, base);
    list, out := SortNew(head, base, size, seed);
  }

  /** Head, tail, and all other items between them. */
  method InsertAll(size: nat, seed: bv16) returns (head: ListHead, ghost s: seq<Cell>)
    requires size >= 3
    ensures fresh(Nodes(s)) && fresh(Infos(s)) && IsList(head, s)
    ensures DistinctInfos(s) && Inserted(s, seed, size - 3)
  {
    hide DataFor, Low16, IsList, Inserted, DistinctInfos, InsertedItem;
    var used;
    head, used, s := HeadAndTail(size, seed);
    ghost var k := 0;
    for i := 0 to size
      invariant k == (if i < size - 3 then i else size - 3) && used == k + 2
      invariant fresh(Nodes(s)) && fresh(Infos(s)) && IsList(head, s) && DistinctInfos(s)
      invariant Inserted(s, seed, k) && s != [] && fresh(head)
    {
      ghost var before := s;
      used, s := InsertNew(head, DataFor(seed, Low16(i)), 0x7fff, used, size, s);
      if i < size - 3 {
        OneMore(before, s, seed, k);
        k := k + 1;
      }
    }
  }

  /** The fake items for the list head and tail. */
  method HeadAndTail(size: nat, ghost seed: bv16) returns (head: ListHead, used: nat, ghost s: seq<Cell>)
    requires size >= 3
    ensures used == 2 && s != [] && fresh(head) && fresh(Nodes(s)) && fresh(Infos(s)) && IsList(head, s)
    ensures DistinctInfos(s) && Inserted(s, seed, 0)
  {
    hide DataFor, Low16;
    var info := new ListData(0x8080, 0);
    head := new ListHead(null, info);
    s := [Cell(head, info)];
    ListByCells(head, s);
    used, s := InsertNew(head, 0xffff, 0x7fff, 1, size, s);
    assert s == [Cell(head, info), s[1]];
  }

  lemma OneMore(s: seq<Cell>, out: seq<Cell>, seed: bv16, k: nat)
    requires Inserted(s, seed, k) && DistinctInfos(s)
    requires |out| == |s| + 1 && out[0] == s[0] && out[2..] == s[1..]
    requires out[1].info !in Infos(s) && Holds(out[1].info, Item(0x7fff, DataFor(seed, Low16(k))))
    ensures |out| == k + 3 && Inserted(out, seed, k + 1) && DistinctInfos(out)
    ensures Nodes(out) == Nodes(s) + {out[1].node} && Infos(out) == Infos(s) + {out[1].info}
  {
    hide DataFor, Low16, Holds;
    Shifted(s, out);
    assert forall t :: 0 <= t < |out| ==> out[t] in out;
  }

  lemma Shifted(s: seq<Cell>, out: seq<Cell>)
    requires s != [] && |out| == |s| + 1 && out[0] == s[0] && out[2..] == s[1..]
    ensures forall t :: 2 <= t < |out| ==> out[t] == s[t - 1]
    ensures Nodes(out) == Nodes(s) + {out[1].node} && Infos(out) == Infos(s) + {out[1].info}
  {
    forall t | 2 <= t < |out| ensures out[t] == s[t - 1] {
      assert out[2..][t - 2] == s[1..][t - 2];
    }
    assert out == [s[0], out[1]] + s[1..] && s == [s[0]] + s[1..];
  }

  /** The indices of all cells but head and tail. */
  method SetIndices(list: ListHead, size: nat, seed: bv16, ghost s: seq<Cell>)
    requires IsList(list, s) && DistinctInfos(s) && size >= 3 && Inserted(s, seed, size - 3)
    modifies Infos(s)`idx
    ensures IsList(list, s) && Indexed(s, size, seed, size - 1)
  {
    hide InsertedItem, IndexFor, IsList;
    HeadIndexed(s, size, seed);
    CellAt(list, s, 0);
    var finder := list.next;
    var i := 1;
    CellAt(list, s, 1);
    while finder.next != null
      invariant 1 <= i < |s| && finder == s[i].node
      invariant finder.next == NodeAt(s, i + 1) && finder.info == s[i].info
      invariant IsList(list, s) && Indexed(s, size, seed, i)
      decreases |s| - i
    {
      SetIndex(list, finder.info, IndexFor(size, seed, i), s);
      finder := finder.next;
      i := i + 1;
      CellAt(list, s, i);
    }
  }

  method SetIndex(list: ListHead, d: ListData, idx: Int16, ghost s: seq<Cell>)
    requires IsList(list, s)
    modifies d`idx
    ensures IsList(list, s) && Holds(d, Item(idx, d.data16))
  {
    d.idx := idx;
  }

  lemma CellAt(list: ListHead, s: seq<Cell>, t: nat)
    requires IsList(list, s) && t < |s|
    ensures s[t] in s && s[t].node.next == NodeAt(s, t + 1) && s[t].node.info == s[t].info
    ensures t == 0 ==> list == s[t].node
  {
  }

  lemma HeadIndexed(s: seq<Cell>, size: nat, seed: bv16)
    requires size >= 3 && Inserted(s, seed, size - 3)
    ensures Indexed(s, size, seed, 1)
  {
  }

  /** The closing sort. */
  method SortNew(list0: ListHead, ghost s: seq<Cell>, ghost size: nat, ghost seed: bv16)
    returns (list: ListHead, ghost out: seq<Cell>)
    requires size >= 3 && IsList(list0, s) && DistinctInfos(s) && Indexed(s, size, seed, size - 1)
    modifies Nodes(s)`next, Infos(s)`data16
    ensures IsList(list, out) && multiset(out) == multiset(s) && Nodes(out) == Nodes(s) && Infos(out) == Infos(s)
    ensures var items := Snapshot(Infos(out), Regs(0, 0, 0, 0)).items;
      Sorted(ByIndex(items), out) && Initial(items, s, size, seed)
  {
    IndexedInitial(s, size, seed);
    hide *;
    ghost var st := Snapshot(Infos(s), Regs(0, 0, 0, 0));
    NoRegs();
    SortBack(s, st);
    RebuiltInitial(st.items, s, size, seed);
    list, out := MergeSort(list0, CmpIdx(true), null, s, Infos(s));
    SameCells(out, s);
  }

  lemma NoRegs()
    ensures RegsOf(null) == Regs(0, 0, 0, 0) && ResSet(null) == {} && Matches(CmpIdx(true), null)
  {
  }

  lemma IndexedInitial(s: seq<Cell>, size: nat, seed: bv16)
    requires size >= 3 && DistinctInfos(s) && Indexed(s, size, seed, size - 1)
    ensures s != [] && |s| >= 2
    ensures Snapshot(Infos(s), Regs(0, 0, 0, 0)).items.Keys == Infos(s)
    ensures Initial(Snapshot(Infos(s), Regs(0, 0, 0, 0)).items, s, size, seed)
  {
    hide InitialItem, InsertedItem;
    forall t | 0 <= t < |s|
      ensures Get(Snapshot(Infos(s), Regs(0, 0, 0, 0)).items, s[t].info) == InitialItem(size, seed, t)
    {
      assert s[t] in s;
    }
  }

  lemma DataSameBytes(seed: bv16, b: bv16)
    ensures SameBytes(DataFor(seed, b)) && SameBytes(0x8080) && SameBytes(0xffff)
  {
  }

  lemma RebuiltInitial(items: map<ListData, Item>, s: seq<Cell>, size: nat, seed: bv16)
    requires Initial(items, s, size, seed)
    ensures forall d <- items :: SameBytes(items[d].data16)
    ensures AllRebuilt(items) == items
  {
    hide DataFor, SameBytes, Rebuilt, Low16, IndexFor;
    forall d | d in items ensures SameBytes(items[d].data16) {
      var c :| c in s && c.info == d;
      var t :| 0 <= t < |s| && s[t] == c;
      DataSameBytes(seed, Low16(if 0 < t < size - 2 then size - 3 - t else 0));
      assert items[d] == InitialItem(size, seed, t);
    }
    forall d | d in items ensures AllRebuilt(items)[d] == items[d] {
      RebuiltFacts(items[d].data16);
    }
  }
}

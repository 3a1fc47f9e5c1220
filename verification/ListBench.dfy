/** `core_bench_list` and the loop around it: search, sort by data, remove and undo, sort
    by index -- and the promise that the list is then back in its original state. */
module ListBench {
  import Crc
  import opened StableSort
  import opened ListItems
  import opened ListHeap

  // ---- the benchmark on values ----

  /** State of the search loop: the list, the index looked for, and the tallies. */
  datatype Probe = Probe(list: seq<Cell>, idx: Int16, retval: bv16, found: bv16, missed: bv16)

  function LowByteOf(i: nat): bv16 { (i % 256) as bv16 }

  /** What a missed search adds: bit 8 of the second item. */
  function MissBonus(data16: bv16): bv16 { (data16 >> 8) & 1 }

  /** What a successful search adds: bit 9 of an item whose bit 0 is set. */
  function HitBonus(data16: bv16): bv16 { if data16 & 1 == 1 then (data16 >> 9) & 1 else 0 }

  /** 16-bit addition, and the bonus for hits less the misses. */
  function Plus(a: bv16, b: bv16): bv16 { a + b }

  function Tally(retval: bv16, found: bv16, missed: bv16): bv16 { retval + (found * 4 - missed) }

  function NextIdx(idx: Int16): Int16 { if idx >= 0 then Wrap16(idx + 1) else idx }

  /** Search, reverse, and move the successor of a found item to the second place. */
  ghost function Search(x: Probe, items: map<ListData, Item>, i: nat): (y: Probe)
    requires |x.list| >= 2
    ensures |y.list| == |x.list| && multiset(y.list) == multiset(x.list)
  {
    var r := Reversed(x.list);
    var j := |r| - 1 - FindFrom(x.list, items, x.idx, LowByteOf(i));  // where the found cell is now
    if j == -1 then
      Probe(r, NextIdx(x.idx), Plus(x.retval, MissBonus(Get(items, r[1].info).data16)), x.found, Plus(x.missed, 1))
    else
      Probe(WithSuccessorCached(r, j), NextIdx(x.idx),
            Plus(x.retval, HitBonus(Get(items, r[j].info).data16)), Plus(x.found, 1), x.missed)
  }

  ghost function WithSuccessorCached(r: seq<Cell>, j: nat): (s: seq<Cell>)
    requires j < |r|
    ensures |s| == |r| && multiset(s) == multiset(r)
  {
    if j + 1 < |r| then CacheNext(r, j) else r
  }

  ghost function Searches(x: Probe, items: map<ListData, Item>, n: nat): (y: Probe)
    requires |x.list| >= 2
    ensures |y.list| == |x.list| && multiset(y.list) == multiset(x.list)
  {
    if n == 0 then x else Search(Searches(x, items, n - 1), items, n - 1)
  }

  ghost function CrcRepeat(data16: bv16, n: nat, crc: bv16): bv16 {
    if n == 0 then crc else Crc.U16(data16, CrcRepeat(data16, n - 1, crc))
  }

  /** The crc over the list while the cell after the second one is out of it. */
  ghost function CrcWithoutThird(s: seq<Cell>, items: map<ListData, Item>, idx: Int16, data16: bv16, crc: bv16): bv16
    requires |s| >= 3
  {
    var r := Removed(s, 1);
    CrcRepeat(Get(items, r[0].info).data16, |r| - CrcStart(r, items, idx, data16), crc)
  }

  datatype Outcome = Outcome(list: seq<Cell>, store: Store, retval: bv16)

  /** The list and the store when the searches and the sort by data are done. */
  ghost function SortByData(s: seq<Cell>, st: Store, bench: Bench, finderIdx: Int16): (r: (seq<Cell>, Store))
    ensures |r.0| == |s| && multiset(r.0) == multiset(s)
  {
    SortListPermutes(CmpComplex(bench), s, st);
    if finderIdx > 0 then SortList(CmpComplex(bench), 1, s, st) else (s, st)
  }

  /** What the search loop and the sort by data leave for the rest of the benchmark. */
  datatype Middle = Middle(sorted: seq<Cell>, store: Store, idx: Int16, data16: bv16, tally: bv16)

  ghost function FirstHalf(s: seq<Cell>, st: Store, bench: Bench, seed3: Int16, finderIdx: Int16): (m: Middle)
    requires |s| >= 3
    ensures |m.sorted| == |s| && multiset(m.sorted) == multiset(s)
  {
    var n := if seed3 > 0 then seed3 as nat else 0;
    var x := Searches(Probe(s, finderIdx, 0, 0, 0), st.items, n);
    var (sorted, st1) := SortByData(x.list, st, bench, finderIdx);
    Middle(sorted, st1, x.idx, if n == 0 then 0 else LowByteOf(n - 1), Tally(x.retval, x.found, x.missed))
  }

  /** The list and the items after the sort by index; the registers are not touched. */
  ghost function SortByIndex(s: seq<Cell>, st: Store): (r: (seq<Cell>, Store))
    ensures |r.0| == |s| && multiset(r.0) == multiset(s)
  {
    var before := Store(st.items, Regs(0, 0, 0, 0));
    SortListPermutes(CmpIdx(true), s, before);
    var (back, st2) := SortList(CmpIdx(true), 1, s, before);
    (back, Store(st2.items, st.regs))
  }

  /** `core_bench_list` as a function of the list, its items and the registers. */
  ghost function Benchmark(s: seq<Cell>, st: Store, bench: Bench, seed3: Int16, finderIdx: Int16): (o: Outcome)
    requires |s| >= 3
    ensures |o.list| == |s| && multiset(o.list) == multiset(s)
  {
    var m := FirstHalf(s, st, bench, seed3, finderIdx);
    var crc1 := CrcWithoutThird(m.sorted, m.store.items, m.idx, m.data16, m.tally);
    var (back, st2) := SortByIndex(m.sorted, m.store);
    Outcome(back, st2, CrcRepeat(Get(st2.items, back[0].info).data16, |back| - 1, crc1))
  }

  lemma {:induction false} SortListPermutesFrom(cmp: Comparator, k: nat, s: seq<Cell>, st: Store)
    requires k > 0
    ensures multiset(SortList(cmp, k, s, st).0) == multiset(s)
    decreases if k < |s| then |s| - k else 0
  {
    hide SortPass;
    var (r, st1) := SortPass(cmp, k, s, st);
    SortPassPermutes(cmp, k, s, st);
    SortPassLength(cmp, k, s, st);
    if |s| > 2 * k {
      SortListPermutesFrom(cmp, 2 * k, r, st1);
    }
  }

  lemma SortListPermutes(cmp: Comparator, s: seq<Cell>, st: Store)
    ensures multiset(SortList(cmp, 1, s, st).0) == multiset(s)
    ensures |SortList(cmp, 1, s, st).0| == |s|
  {
    SortListPermutesFrom(cmp, 1, s, st);
    assert |multiset(SortList(cmp, 1, s, st).0)| == |multiset(s)|;
  }

  // ---- back to the original state ----

  /** Every item rebuilt from its backup byte. */
  ghost function AllRebuilt(items: map<ListData, Item>): map<ListData, Item> {
    map d <- items :: Item(items[d].idx, Rebuilt(items[d].data16))
  }

  ghost function ByIndex(items: map<ListData, Item>): (Cell, Cell) -> bool {
    (x: Cell, y: Cell) => Get(items, x.info).idx <= Get(items, y.info).idx
  }

  ghost predicate DistinctIndices(s: seq<Cell>, items: map<ListData, Item>) {
    forall i, j :: 0 <= i < j < |s| ==> Get(items, s[i].info).idx != Get(items, s[j].info).idx
  }

  lemma MembersShared(r: seq<Cell>, s: seq<Cell>, c: Cell)
    requires multiset(r) == multiset(s)
    ensures c in r <==> c in s
  {
    assert c in multiset(r) <==> c in multiset(s);
  }

  lemma RebuiltByBackup(x: bv16, y: bv16)
    requires HighByte(x) == HighByte(y)
    ensures Rebuilt(x) == Rebuilt(y)
  {
  }

  /** No sort changes what the backup bytes and the indices say. */
  lemma RebuiltCarries(cmp: Comparator, st: Store, st1: Store)
    requires Follows(cmp, st, st1)
    ensures AllRebuilt(st1.items) == AllRebuilt(st.items)
    ensures forall d :: Get(st1.items, d).idx == Get(st.items, d).idx
  {
    hide Rebuilt, HighByte, Settled;
    forall d | d in st.items ensures AllRebuilt(st1.items)[d] == AllRebuilt(st.items)[d] {
      RebuiltByBackup(st1.items[d].data16, st.items[d].data16);
    }
  }

  lemma SettledMeansRebuilt(s: seq<Cell>, st: Store, st1: Store)
    requires Follows(CmpIdx(true), st, st1) && AllSettled(CmpIdx(true), s, st1) && st.items.Keys == Infos(s)
    ensures st1.items == AllRebuilt(st.items)
  {
    hide Rebuilt, HighByte, SameBytes;
    forall d | d in st.items ensures st1.items[d] == AllRebuilt(st.items)[d] {
      var i :| 0 <= i < |s| && s[i].info == d;
      BackupDetermines(st1.items[d].data16, st.items[d].data16);
    }
  }

  lemma SortedAlike(items: map<ListData, Item>, items1: map<ListData, Item>, s: seq<Cell>)
    requires forall d :: Get(items1, d).idx == Get(items, d).idx
    requires Sorted(InOrder(CmpIdx(true), items1), s)
    ensures Sorted(ByIndex(items), s)
  {
    forall i, j | 0 <= i < j < |s| ensures ByIndex(items)(s[i], s[j]) {
      assert InOrder(CmpIdx(true), items1)(s[i], s[j]);
      assert Get(items1, s[i].info).idx == Get(items, s[i].info).idx;
      assert Get(items1, s[j].info).idx == Get(items, s[j].info).idx;
    }
  }

  /** The final sort: in order of index, and every item rebuilt. */
  lemma SortBack(s: seq<Cell>, st: Store)
    requires |s| >= 2 && st.items.Keys == Infos(s)
    ensures var (r, st1) := SortList(CmpIdx(true), 1, s, st);
      && multiset(r) == multiset(s) && Sorted(ByIndex(st.items), r) && st1.items == AllRebuilt(st.items)
  {
    hide SortList, AllRebuilt, Stable, InOrder, ByIndex, Sorted, AllSettled, Settled;
    var cmp := CmpIdx(true);
    var (r, st1) := SortList(cmp, 1, s, st);
    OwnComparisonsOrdered(cmp);
    ImpureSortCorrect(cmp, s, st);
    SameCells(r, s);
    RebuiltCarries(cmp, st, st1);
    SettledMeansRebuilt(r, st, st1);
    SortedAlike(st.items, st1.items, r);
  }

  /** For every list of at least three nodes, whatever its contents: the same cells come
      back, sorted by index, each with its index and with its data rebuilt. */
  lemma BenchOutcome(s: seq<Cell>, st: Store, bench: Bench, seed3: Int16, finderIdx: Int16)
    requires |s| >= 3 && st.items.Keys == Infos(s)
    ensures var o := Benchmark(s, st, bench, seed3, finderIdx);
      && multiset(o.list) == multiset(s)
      && Sorted(ByIndex(st.items), o.list)
      && o.store.items == AllRebuilt(st.items)
  {
    hide Searches, SortList, CrcWithoutThird, CrcRepeat, AllRebuilt, Stable, InOrder, Sorted, AllSettled, Follows,
      LowByteOf;
    var n := if seed3 > 0 then seed3 as nat else 0;
    var x := Searches(Probe(s, finderIdx, 0, 0, 0), st.items, n);
    var cmp := CmpComplex(bench);
    SameCells(x.list, s);
    OwnComparisonsOrdered(cmp);
    ImpureSortCorrect(cmp, x.list, st);
    RebuiltCarries(cmp, st, SortList(cmp, 1, x.list, st).1);
    FollowsKeys(cmp, st, SortList(cmp, 1, x.list, st).1);
    var (sorted, st1) := SortByData(x.list, st, bench, finderIdx);
    SameCells(sorted, s);
    SortBack(sorted, Store(st1.items, Regs(0, 0, 0, 0)));
    SameOrder(st.items, st1.items);
  }

  lemma FollowsKeys(cmp: Comparator, st: Store, st1: Store)
    requires Follows(cmp, st, st1)
    ensures st.items.Keys == st1.items.Keys
  {
  }

  lemma SameOrder(items: map<ListData, Item>, items1: map<ListData, Item>)
    requires forall d :: Get(items1, d).idx == Get(items, d).idx
    ensures forall s: seq<Cell> :: Sorted(ByIndex(items1), s) ==> Sorted(ByIndex(items), s)
  {
    forall s: seq<Cell> | Sorted(ByIndex(items1), s) ensures Sorted(ByIndex(items), s) {
      forall i, j | 0 <= i < j < |s| ensures ByIndex(items)(s[i], s[j]) {
        assert ByIndex(items1)(s[i], s[j]);
        assert Get(items1, s[i].info).idx == Get(items, s[i].info).idx;
        assert Get(items1, s[j].info).idx == Get(items, s[j].info).idx;
      }
    }
  }

  /** With distinct indices, the benchmark leaves the list in its original state -- the
      same nodes in the same order, holding the same items with the same values -- exactly
      when that state is sorted by index and every item's bytes are equal. */
  lemma DistinctRestored(s: seq<Cell>, st: Store, bench: Bench, seed3: Int16, finderIdx: Int16)
    requires |s| >= 3 && st.items.Keys == Infos(s) && DistinctIndices(s, st.items)
    ensures var o := Benchmark(s, st, bench, seed3, finderIdx);
      o.list == s && o.store.items == st.items
      <==> Sorted(ByIndex(st.items), s) && forall d <- st.items :: SameBytes(st.items[d].data16)
  {
    hide Benchmark, Rebuilt, SameBytes;
    var o := Benchmark(s, st, bench, seed3, finderIdx);
    BenchOutcome(s, st, bench, seed3, finderIdx);
    if Sorted(ByIndex(st.items), s) {
      SortedUnique(ByIndex(st.items), o.list, s);
    }
    forall d | d in st.items ensures SameBytes(st.items[d].data16) <==> AllRebuilt(st.items)[d] == st.items[d] {
      RebuiltFacts(st.items[d].data16);
    }
    if forall d <- st.items :: SameBytes(st.items[d].data16) {
      assert AllRebuilt(st.items) == st.items;
    }
  }

  ghost function TwoAlike(a: ListData, b: ListData, c: ListData): map<ListData, Item> {
    map[a := Item(0, 0x8080), b := Item(1, 0x0101), c := Item(1, 0x0202)]
  }

  /** Distinct indices are needed: three cells, sorted, with equal bytes, but with two
      equal indices; one search that misses already reverses their order for good. */
  lemma EqualIndicesNotRestored(a: Cell, b: Cell, c: Cell, bench: Bench)
    requires a.info != b.info && a.info != c.info && b.info != c.info
    ensures var items := TwoAlike(a.info, b.info, c.info);
      && Sorted(ByIndex(items), [a, b, c])
      && (forall d <- items :: SameBytes(items[d].data16))
      && Benchmark([a, b, c], Store(items, Regs(0, 0, 0, 0)), bench, 1, -1).list == [a, c, b]
  {
    var items := TwoAlike(a.info, b.info, c.info);
    var s := [a, b, c];
    hide *;
    TwoAlikeFacts(a, b, c);
    MissedSearch(s, items);
    assert Reversed(s) == [c, b, a];
    SortsTo(a, b, c, Store(items, Regs(0, 0, 0, 0)));
    SearchedThenSorted(s, Store(items, Regs(0, 0, 0, 0)), bench, -1);
  }

  /** A single search, and the closing sort. */
  lemma SearchedThenSorted(s: seq<Cell>, st: Store, bench: Bench, finderIdx: Int16)
    requires |s| >= 3 && finderIdx <= 0
    ensures var t := Searches(Probe(s, finderIdx, 0, 0, 0), st.items, 1).list;
      Benchmark(s, st, bench, 1, finderIdx).list
      == SortList(CmpIdx(true), 1, t, Store(st.items, Regs(0, 0, 0, 0))).0
  {
    hide SortList, Searches, CrcWithoutThird, CrcRepeat;
  }

  lemma TwoAlikeFacts(a: Cell, b: Cell, c: Cell)
    requires a.info != b.info && a.info != c.info && b.info != c.info
    ensures var items := TwoAlike(a.info, b.info, c.info);
      && Get(items, a.info) == Item(0, 0x8080) && Get(items, b.info) == Item(1, 0x0101)
      && Get(items, c.info) == Item(1, 0x0202)
      && Sorted(ByIndex(items), [a, b, c])
      && InStore([c, b, a], Store(items, Regs(0, 0, 0, 0)))
      && (forall e <- [a, b, c] :: WorkingByte(Get(items, e.info).data16) != 0)
      && (forall d <- items :: SameBytes(items[d].data16))
  {
    SampleBytes();
    hide SameBytes, WorkingByte;
  }

  function WorkingByte(x: bv16): bv16 { x & 0xff }

  lemma SampleBytes()
    ensures SameBytes(0x8080) && SameBytes(0x0101) && SameBytes(0x0202)
    ensures WorkingByte(0x8080) != 0 && WorkingByte(0x0101) != 0 && WorkingByte(0x0202) != 0
  {
  }

  lemma MissedSearch(s: seq<Cell>, items: map<ListData, Item>)
    requires |s| >= 2 && forall c <- s :: WorkingByte(Get(items, c.info).data16) != 0
    ensures Searches(Probe(s, -1, 0, 0, 0), items, 1).list == Reversed(s)
  {
    var probe := Probe(s, -1, 0, 0, 0);
    assert LowByteOf(0) == 0;
    FirstSought(s, items, -1, 0, |s|);
    assert Searches(probe, items, 0) == probe;
    assert Searches(probe, items, 1) == Search(probe, items, 0);
  }

  lemma SortThree(leq: (Cell, Cell) -> bool, a: Cell, b: Cell, c: Cell)
    requires leq(c, b) && !leq(c, a)
    ensures SortFrom(leq, 1, [c, b, a]) == [a, c, b]
  {
    var s, r := [c, b, a], [c, b, a];
    assert s[..1] == [c] && s[1..2] == [b] && s[2..] == [a];
    assert Merge(leq, [c], [b]) == [c, b] by {
      assert [c][1..] == [];
    }
    assert [a][..1] == [a] && [a][1..1] == [] && [a][1..] == [];
    assert MergePass(leq, 1, [a]) == [a] by {
      assert MergePass(leq, 1, [a][1..]) == [];
    }
    assert MergePass(leq, 1, s) == r;
    assert r[..2] == [c, b] && r[2..3] == [a] && r[3..] == [];
    assert Merge(leq, [c, b], [a]) == [a, c, b] by {
      assert [a][1..] == [];
    }
    assert MergePass(leq, 2, r) == [a, c, b];
    assert SortFrom(leq, 2, r) == [a, c, b];
  }

  lemma SortsTo(a: Cell, b: Cell, c: Cell, st: Store)
    requires InStore([c, b, a], st) && Get(st.items, a.info).idx == 0
    requires Get(st.items, b.info).idx == 1 && Get(st.items, c.info).idx == 1
    ensures SortList(CmpIdx(true), 1, [c, b, a], st).0 == [a, c, b]
  {
    hide SortList, SortFrom;
    var s := [c, b, a];
    SingletonsReady(CmpIdx(true), s, st);
    SortListFacts(CmpIdx(true), 1, s, st);
    var st1 := SortList(CmpIdx(true), 1, s, st).1;
    RebuiltCarries(CmpIdx(true), st, st1);
    assert Get(st1.items, a.info).idx == 0 && Get(st1.items, b.info).idx == 1 && Get(st1.items, c.info).idx == 1;
    SortThree(InOrder(CmpIdx(true), st1.items), a, b, c);
  }

  // ---- the C functions ----

  lemma SnapshotHolds(s: seq<Cell>, items: set<ListData>, regs: Regs)
    requires Infos(s) <= items
    ensures ItemsHeld(s, Snapshot(items, regs).items)
  {
    forall c | c in s ensures Get(Snapshot(items, regs).items, c.info) == Item(c.info.idx, c.info.data16) {
      assert c.info in Infos(s);
    }
  }

  lemma ItemAt(s: seq<Cell>, its: map<ListData, Item>, k: nat)
    requires ItemsHeld(s, its) && k < |s|
    ensures Get(its, s[k].info) == Item(s[k].info.idx, s[k].info.data16)
  {
    assert s[k] in s;
  }

  lemma ItemsHeldPermutes(r: seq<Cell>, s: seq<Cell>, its: map<ListData, Item>)
    requires ItemsHeld(s, its) && multiset(r) == multiset(s)
    ensures ItemsHeld(r, its)
  {
    forall c | c in r ensures Get(its, c.info) == Item(c.info.idx, c.info.data16) {
      MembersShared(r, s, c);
    }
  }

  /** "cache next item at the head of the list (if any)" */
  method CacheSuccessor(list: ListHead, found: ListHead, ghost s: seq<Cell>, ghost j: nat,
                        ghost its: map<ListData, Item>)
    returns (ghost out: seq<Cell>)
    requires IsList(list, s) && j < |s| && found == s[j].node && ItemsHeld(s, its)
    modifies Nodes(s)`next
    ensures out == WithSuccessorCached(s, j)
    ensures IsList(list, out) && ItemsHeld(out, its)
  {
    CellInfo(list, s, j);
    FoundPosition(list, s, j + 1);
    hide IsList, CacheNext;
    out := s;
    if found.next != null {
      MoveNext(list, found, s, j);
      out := CacheNext(s, j);
    }
    ItemsHeldPermutes(out, s, its);
  }

  /** The tallies of one turn, read off the reversed list. */
  method Count(list: ListHead, thisFind: ListHead?, retval0: bv16, found0: bv16, missed0: bv16,
               ghost r: seq<Cell>, ghost j: int, ghost its: map<ListData, Item>)
    returns (retval: bv16, found: bv16, missed: bv16)
    requires IsList(list, r) && |r| >= 2 && ItemsHeld(r, its) && -1 <= j < |r|
    requires thisFind == if j == -1 then null else r[j].node
    ensures if j == -1 then
        retval == Plus(retval0, MissBonus(Get(its, r[1].info).data16)) && found == found0 && missed == Plus(missed0, 1)
      else
        retval == Plus(retval0, HitBonus(Get(its, r[j].info).data16)) && found == Plus(found0, 1) && missed == missed0
    ensures IsList(list, r) && ItemsHeld(r, its)
  {
    CellInfo(list, r, 0);
    CellInfo(list, r, 1);
    ItemAt(r, its, 1);
    if j >= 0 {
      CellInfo(list, r, j);
      ItemAt(r, its, j);
    }
    hide IsList, HitBonus, MissBonus, Plus, Get, ItemsHeld;
    retval, found, missed := retval0, found0, missed0;
    if thisFind == null {
      missed := Plus(missed, 1);
      retval := Plus(retval, MissBonus(list.next.info.data16));
    } else {
      found := Plus(found, 1);
      retval := Plus(retval, HitBonus(thisFind.info.data16));
    }
  }

  lemma SearchFields(x: Probe, its: map<ListData, Item>, i: nat, j: int)
    requires |x.list| >= 2 && j == |x.list| - 1 - FindFrom(x.list, its, x.idx, LowByteOf(i))
    ensures -1 <= j < |x.list| && Search(x, its, i).idx == NextIdx(x.idx)
    ensures var y := Search(x, its, i); var r := Reversed(x.list);
      if j == -1 then
        && y.list == r && y.found == x.found && y.missed == Plus(x.missed, 1)
        && y.retval == Plus(x.retval, MissBonus(Get(its, r[1].info).data16))
      else
        && y.list == WithSuccessorCached(r, j) && y.found == Plus(x.found, 1) && y.missed == x.missed
        && y.retval == Plus(x.retval, HitBonus(Get(its, r[j].info).data16))
  {
    hide FindFrom, HitBonus, MissBonus, LowByteOf, Plus, NextIdx, CacheNext, Get, WithSuccessorCached, Reversed, Wrap16,
      Searches, Crc.OfMessage, Crc.U16, Sought;
  }

  lemma FoundInReversed(head: ListHead?, s: seq<Cell>, k: nat)
    requires IsList(head, s) && k <= |s|
    ensures NodeAt(s, k) == if k == |s| then null else Reversed(s)[|s| - 1 - k].node
  {
  }

  method ReverseHeld(list0: ListHead, ghost s: seq<Cell>, ghost its: map<ListData, Item>) returns (list: ListHead)
    requires IsList(list0, s) && s != [] && ItemsHeld(s, its)
    modifies Nodes(s)`next
    ensures IsList(list, Reversed(s)) && ItemsHeld(Reversed(s), its)
  {
    var l := Reverse(list0, s);
    ItemsHeldPermutes(Reversed(s), s, its);
    list := NonEmptyList(l, Reversed(s));
  }

  method NonEmptyList(l: ListHead?, ghost r: seq<Cell>) returns (list: ListHead)
    requires IsList(l, r) && r != []
    ensures list == l && IsList(list, r)
  {
    list := l;
  }

  /** One turn of the search loop. */
  method SearchOnce(list0: ListHead, idx: Int16, i: nat, retval0: bv16, found0: bv16, missed0: bv16,
                    ghost s: seq<Cell>, ghost its: map<ListData, Item>)
    returns (list: ListHead, retval: bv16, found: bv16, missed: bv16, ghost out: seq<Cell>)
    requires IsList(list0, s) && |s| >= 2 && ItemsHeld(s, its)
    modifies Nodes(s)`next
    ensures Probe(out, NextIdx(idx), retval, found, missed)
         == Search(Probe(s, idx, retval0, found0, missed0), its, i)
    ensures IsList(list, out) && ItemsHeld(out, its)
  {
    hide *;
    ghost var k := FindFrom(s, its, idx, LowByteOf(i));
    ghost var j := |s| - 1 - k;
    ghost var r := Reversed(s);
    FoundInReversed(list0, s, k);
    SearchFields(Probe(s, idx, retval0, found0, missed0), its, i, j);
    SameCells(r, s);
    var thisFind := Find(list0, idx, LowByteOf(i), s, its);
    list := ReverseHeld(list0, s, its);
    retval, found, missed := Count(list, thisFind, retval0, found0, missed0, r, j, its);
    out := r;
    if thisFind != null {
      out := CacheSuccessor(list, thisFind, r, j, its);
    }
  }

  lemma FoundPosition(head: ListHead, s: seq<Cell>, k: nat)
    requires IsList(head, s) && k <= |s|
    ensures NodeAt(s, k) == if k == |s| then null else s[k].node
  {
  }

  /** What the fields of the node at position `k` of a list say. */
  lemma CellInfo(head: ListHead?, s: seq<Cell>, k: nat)
    requires IsList(head, s)
    ensures k < |s| ==> s[k].node.info == s[k].info && s[k].node.next == NodeAt(s, k + 1) && s[k].info in Infos(s)
    ensures head == NodeAt(s, 0)
  {
    if k < |s| {
      assert s[k] in s;
    }
  }

  /** The whole search loop. */
  method SearchLoop(list0: ListHead, finderIdx: Int16, findNum: Int16, ghost s: seq<Cell>,
                    ghost its: map<ListData, Item>)
    returns (list: ListHead, idx: Int16, data16: bv16, tally: bv16, ghost x: Probe)
    requires IsList(list0, s) && |s| >= 2 && ItemsHeld(s, its)
    modifies Nodes(s)`next
    ensures var n := if findNum > 0 then findNum as nat else 0;
      && x == Searches(Probe(s, finderIdx, 0, 0, 0), its, n)
      && idx == x.idx && data16 == (if n == 0 then 0 else LowByteOf(n - 1))
      && tally == Tally(x.retval, x.found, x.missed)
    ensures IsList(list, x.list) && ItemsHeld(x.list, its)
  {
    hide IsList, Search, LowByteOf, NextIdx, Tally, ItemsHeld, Nodes;
    ghost var start := Probe(s, finderIdx, 0, 0, 0);
    var retval: bv16, found: bv16, missed: bv16 := 0, 0, 0;
    list, idx, data16, x := list0, finderIdx, 0, start;
    var i := 0;
    while i < findNum
      invariant 0 <= i && (i <= findNum || i == 0)
      invariant IsList(list, x.list) && |x.list| == |s| && multiset(x.list) == multiset(s)
      invariant ItemsHeld(x.list, its)
      invariant x == Probe(x.list, idx, retval, found, missed)
      invariant x == Searches(start, its, i)
      invariant data16 == if i == 0 then 0 else LowByteOf(i - 1)
    {
      SameCells(x.list, s);
      data16 := LowByteOf(i);
      ghost var out;
      list, retval, found, missed, out := SearchOnce(list, idx, i, retval, found, missed, x.list, its);
      idx := NextIdx(idx);
      x := Probe(out, idx, retval, found, missed);
      i := i + 1;
    }
    tally := Tally(retval, found, missed);
  }

  lemma CrcRepeatMore(data16: bv16, n: nat, crc: bv16)
    ensures CrcRepeat(data16, 0, crc) == crc
    ensures CrcRepeat(data16, n + 1, crc) == Crc.U16(data16, CrcRepeat(data16, n, crc))
  {
    hide Crc.U16;
  }

  lemma AtEnd(s: seq<Cell>, k: nat)
    ensures NodeAt(s, k) == if k < |s| then s[k].node else null
  {
  }

  method FeedFirst(list: ListHead, crc0: bv16, ghost s: seq<Cell>, ghost its: map<ListData, Item>) returns (crc: bv16)
    requires IsList(list, s) && s != [] && ItemsHeld(s, its)
    ensures crc == Crc.U16(Get(its, s[0].info).data16, crc0)
    ensures IsList(list, s) && ItemsHeld(s, its)
  {
    CellInfo(list, s, 0);
    ItemAt(s, its, 0);
    hide IsList, Crc.U16, Infos, Distinct, Crc.OfMessage, ItemsHeld, Get, Linked, InfosHeld;
    crc := Crc.Crc16(list.info.data16, crc0);
  }

  /** `while (finder) retval = crc16(list->info->data16, retval);` */
  method CrcWalk(list: ListHead, finder0: ListHead?, crc0: bv16, ghost s: seq<Cell>, ghost k: nat,
                 ghost its: map<ListData, Item>)
    returns (retval: bv16)
    requires IsList(list, s) && k <= |s| && s != [] && finder0 == NodeAt(s, k) && ItemsHeld(s, its)
    ensures retval == CrcRepeat(Get(its, s[0].info).data16, |s| - k, crc0)
    ensures IsList(list, s) && ItemsHeld(s, its)
  {
    hide *;
    ghost var x := Get(its, s[0].info).data16;
    CrcRepeatMore(x, 0, crc0);
    AtEnd(s, k);
    retval := crc0;
    var finder := finder0;
    ghost var n := 0;
    while finder != null
      invariant k + n <= |s| && finder == NodeAt(s, k + n) && (finder == null <==> k + n == |s|)
      invariant retval == CrcRepeat(x, n, crc0)
      invariant IsList(list, s) && ItemsHeld(s, its)
      decreases |s| - n
    {
      CrcRepeatMore(x, n, crc0);
      retval := FeedFirst(list, retval, s, its);
      AtEnd(s, k + n);
      CellInfo(list, s, k + n);
      finder := finder.next;
      n := n + 1;
      AtEnd(s, k + n);
    }
  }

  method RemoveThird(list: ListHead, ghost s: seq<Cell>, ghost its: map<ListData, Item>) returns (remover: ListHead)
    requires IsList(list, s) && |s| >= 3 && ItemsHeld(s, its)
    modifies Nodes(s)`next, Nodes(s)`info
    ensures remover == s[2].node && remover.info == s[1].info
    ensures IsList(list, Removed(s, 1)) && ItemsHeld(Removed(s, 1), its)
  {
    CellInfo(list, s, 0);
    hide IsList, Get;
    remover := Remove(list.next, s, 1, list);
    ghost var r := Removed(s, 1);
    forall t | 0 <= t < |r| ensures Get(its, r[t].info) == Item(r[t].info.idx, r[t].info.data16) {
      ghost var j := if t == 0 then 0 else t + 1;
      assert s[j] in s && r[t].info == s[j].info;
    }
  }

  /** Put the removed cell back. */
  method RestoreThird(list: ListHead, remover: ListHead, ghost s: seq<Cell>)
    requires |s| >= 3 && Distinct(s) && IsList(list, Removed(s, 1))
    requires remover == s[2].node && remover.info == s[1].info
    modifies Nodes(s)`next, Nodes(s)`info
    ensures IsList(list, s)
  {
    ghost var r := Removed(s, 1);
    RemovedNodes(s);
    CellInfo(list, r, 0);
    UndoInvertsRemove(s, 1);
    hide IsList, Removed, Restored, Distinct;
    UndoRemove(remover, list.next, r, 1, list);
  }

  /** Where the crc starts: at the cell found, or at the second one. */
  ghost function CrcStart(r: seq<Cell>, its: map<ListData, Item>, idx: Int16, data16: bv16): (k: nat)
    ensures k == 1 || k < |r|
  {
    var k := FindFrom(r, its, idx, data16);
    if k == |r| then 1 else k
  }

  method FindStart(list: ListHead, idx: Int16, data16: bv16, ghost r: seq<Cell>, ghost its: map<ListData, Item>)
    returns (finder: ListHead?)
    requires IsList(list, r) && |r| >= 2 && ItemsHeld(r, its)
    ensures finder == NodeAt(r, CrcStart(r, its, idx, data16))
    ensures IsList(list, r) && ItemsHeld(r, its)
  {
    FoundPosition(list, r, FindFrom(r, its, idx, data16));
    hide IsList, ItemsHeld, FindFrom, Get, Linked, InfosHeld, Distinct, Sought;
    finder := Find(list, idx, data16, r, its);
    CellInfo(list, r, 0);
    if finder == null {
      finder := list.next;
    }
  }

  /** Remove the third cell, take the crc of the rest, and put the cell back. */
  method RemoveCrcRestore(list: ListHead, idx: Int16, data16: bv16, retval0: bv16,
                          ghost s: seq<Cell>, ghost its: map<ListData, Item>)
    returns (retval: bv16)
    requires IsList(list, s) && |s| >= 3 && ItemsHeld(s, its)
    modifies Nodes(s)`next, Nodes(s)`info
    ensures retval == CrcWithoutThird(s, its, idx, data16, retval0)
    ensures IsList(list, s)
  {
    ghost var r := Removed(s, 1);
    CellsOfList(list, s);
    RemovedNodes(s);
    hide IsList, ItemsHeld, CrcRepeat, CrcStart, Get, Removed, Distinct;
    var remover := RemoveThird(list, s, its);
    var finder := FindStart(list, idx, data16, r, its);
    retval := CrcWalk(list, finder, retval0, r, CrcStart(r, its, idx, data16), its);
    RestoreThird(list, remover, s);
  }

  lemma RemovedNodes(s: seq<Cell>)
    requires |s| >= 3 && Distinct(s)
    ensures var r := Removed(s, 1);
      && |r| == |s| - 1 && Nodes(r) <= Nodes(s) && r[1].node == s[1].node
      && s[2].node !in Nodes(r) && s[2].node in Nodes(s)
  {
    var r := Removed(s, 1);
    RemovedShape(s, 1);
    forall c | c in r ensures c.node in Nodes(s) && c.node != s[2].node {
      var t :| 0 <= t < |r| && r[t] == c;
      var j := if t <= 1 then t else t + 1;
      assert c.node == s[j].node && s[j] in s;
    }
    assert s[2] in s;
  }

  lemma SnapshotRegs(items: set<ListData>, regs: Regs)
    ensures Snapshot(items, regs).regs == regs
  {
  }

  /** The same, said of the whole store: no item changes. */
  method RemoveCrcRestoreStore(list: ListHead, idx: Int16, data16: bv16, retval0: bv16,
                               ghost s: seq<Cell>, ghost items: set<ListData>, ghost st: Store)
    returns (retval: bv16)
    requires IsList(list, s) && |s| >= 3 && Infos(s) <= items && st == Snapshot(items, st.regs)
    modifies Nodes(s)`next, Nodes(s)`info
    ensures retval == CrcWithoutThird(s, st.items, idx, data16, retval0)
    ensures IsList(list, s) && Snapshot(items, st.regs) == st
  {
    SnapshotHolds(s, items, st.regs);
    hide IsList, ItemsHeld, CrcWithoutThird, Nodes, Infos;
    retval := RemoveCrcRestore(list, idx, data16, retval0, s, st.items);
    assert Snapshot(items, st.regs).items == st.items;
  }

  /** The sort by data, done or not according to `finder_idx`. */
  method SortByDataInPlace(list0: ListHead, res: CoreResults, finderIdx: Int16,
                           ghost s: seq<Cell>, ghost items: set<ListData>)
    returns (list: ListHead, ghost sorted: seq<Cell>)
    requires IsList(list0, s) && s != [] && Infos(s) <= items
    modifies Nodes(s)`next, items`data16, res`crc, res`crcstate, res`crcmatrix, res`runs
    ensures (sorted, Snapshot(items, res.View()))
         == SortByData(s, old(Snapshot(items, res.View())), res.bench, finderIdx)
    ensures IsList(list, sorted)
  {
    hide IsList, SortList;
    list, sorted := list0, s;
    if finderIdx > 0 {
      MatchesComplex(res);
      list, sorted := MergeSort(list, CmpComplex(res.bench), res, s, items);
    }
  }

  method SearchAndSort(res: CoreResults, finderIdx: Int16, ghost s: seq<Cell>, ghost items: set<ListData>)
    returns (list: ListHead, idx: Int16, data16: bv16, tally: bv16, ghost m: Middle)
    requires IsList(res.list, s) && |s| >= 3 && Infos(s) <= items
    modifies Nodes(s)`next, items`data16, res`crc, res`crcstate, res`crcmatrix, res`runs
    ensures m == FirstHalf(s, old(Snapshot(items, res.View())), res.bench, res.seed3, finderIdx)
    ensures m == Middle(m.sorted, Snapshot(items, res.View()), idx, data16, tally)
    ensures IsList(list, m.sorted)
  {
    hide IsList, Searches, SortByData, LowByteOf, Tally, ItemsHeld, Snapshot, Get;
    SnapshotHolds(s, items, res.View());
    ghost var st := Snapshot(items, res.View());
    ghost var x;
    list, idx, data16, tally, x := SearchLoop(res.list, finderIdx, res.seed3, s, st.items);
    SameCells(x.list, s);
    ghost var sorted;
    list, sorted := SortByDataInPlace(list, res, finderIdx, x.list, items);
    m := Middle(sorted, Snapshot(items, res.View()), idx, data16, tally);
  }

  /** The sort by index, which passes no `res` and so rebuilds the items, and the last crc. */
  method SortBackAndCrc(list0: ListHead, res: CoreResults, crc: bv16, ghost s: seq<Cell>, ghost items: set<ListData>)
    returns (list: ListHead, retval: bv16, ghost back: seq<Cell>)
    requires IsList(list0, s) && s != [] && Infos(s) <= items
    modifies Nodes(s)`next, items`data16
    ensures (back, Snapshot(items, res.View())) == SortByIndex(s, old(Snapshot(items, res.View())))
    ensures IsList(list, back) && back != []
    ensures retval == CrcRepeat(Get(Snapshot(items, res.View()).items, back[0].info).data16, |back| - 1, crc)
  {
    hide IsList, SortList, CrcRepeat, ItemsHeld, Get;
    MatchesIdx();
    list, back := MergeSort(list0, CmpIdx(true), null, s, items);
    SameCells(back, s);
    SnapshotHolds(back, items, res.View());
    CellInfo(list, back, 0);
    retval := CrcWalk(list, list.next, crc, back, 1, Snapshot(items, res.View()).items);
  }

  /** `core_bench_list`: its result, the items, the registers and the final list are those
      of the benchmark on values. */
  method CoreBenchList(res: CoreResults, finderIdx: Int16, ghost s: seq<Cell>)
    returns (retval: bv16, ghost o: Outcome)
    requires IsList(res.list, s) && |s| >= 3
    modifies Nodes(s)`next, Nodes(s)`info, Infos(s)`data16, res`crc, res`crcstate, res`crcmatrix, res`runs
    ensures o == Benchmark(s, old(Snapshot(Infos(s), res.View())), res.bench, res.seed3, finderIdx)
    ensures retval == o.retval && Snapshot(Infos(s), res.View()) == o.store
    ensures IsList(NodeAt(o.list, 0), o.list)
  {
    hide IsList, FirstHalf, SortByIndex, CrcWithoutThird, CrcRepeat, ItemsHeld, Snapshot, Get, Infos, Nodes;
    ghost var D := Infos(s);
    var list, idx, data16, tally, m := SearchAndSort(res, finderIdx, s, D);
    SameCells(m.sorted, s);
    SnapshotRegs(D, res.View());
    retval := RemoveCrcRestoreStore(list, idx, data16, tally, m.sorted, D, m.store);
    ghost var back;
    list, retval, back := SortBackAndCrc(list, res, retval, m.sorted, D);
    CellInfo(list, back, 0);
    o := Outcome(back, Snapshot(D, res.View()), retval);
  }

  lemma MatchesComplex(res: CoreResults)
    ensures Matches(CmpComplex(res.bench), res)
  {
  }

  lemma MatchesIdx()
    ensures Matches(CmpIdx(true), null)
  {
  }

  // ---- whole runs ----

  /** A list as `core_list_init` means to leave it: sorted by distinct indices, and every
      working byte equal to its backup. */
  ghost predicate Original(s: seq<Cell>, items: map<ListData, Item>) {
    && |s| >= 3 && items.Keys == Infos(s)
    && DistinctIndices(s, items) && Sorted(ByIndex(items), s)
    && forall d <- items :: SameBytes(items[d].data16)
  }

  lemma OriginalRestored(s: seq<Cell>, st: Store, bench: Bench, seed3: Int16, finderIdx: Int16)
    requires Original(s, st.items)
    ensures var o := Benchmark(s, st, bench, seed3, finderIdx); o.list == s && o.store.items == st.items
  {
    hide Benchmark, SameBytes, DistinctIndices, Sorted, ByIndex;
    DistinctRestored(s, st, bench, seed3, finderIdx);
  }

  /** A backward pass (negative index) runs no kernel: it leaves the registers alone and its
      result does not depend on them, so every iteration's backward pass is the same. */
  lemma BackwardPassRepeatable(s: seq<Cell>, items: map<ListData, Item>, r1: Regs, r2: Regs,
                               bench: Bench, seed3: Int16, finderIdx: Int16)
    requires |s| >= 3 && finderIdx <= 0
    ensures var o1 := Benchmark(s, Store(items, r1), bench, seed3, finderIdx);
      var o2 := Benchmark(s, Store(items, r2), bench, seed3, finderIdx);
      o1.retval == o2.retval && o1.list == o2.list && o1.store.regs == r1
  {
    hide Searches, SortList, CrcWithoutThird, CrcRepeat, Get, LowByteOf, Tally;
  }

  /** Registers, and the crc remembered from the first iteration. */
  datatype Totals = Totals(regs: Regs, crclist: bv16)

  ghost function Fold(o: Outcome): Regs {
    o.store.regs.(crc := Crc.U16(o.retval, o.store.regs.crc))
  }

  /** `n` iterations on a list that is always the original one. */
  ghost function Iterations(s: seq<Cell>, items: map<ListData, Item>, bench: Bench, seed3: Int16, runs: nat,
                            n: nat): Totals
    requires |s| >= 3
  {
    if n == 0 then Totals(Regs(0, 0, 0, runs), 0)
    else
      var t := Iterations(s, items, bench, seed3, runs, n - 1);
      var r1 := Fold(Benchmark(s, Store(items, t.regs), bench, seed3, 1));
      var r2 := Fold(Benchmark(s, Store(items, r1), bench, seed3, -1));
      Totals(r2, if n == 1 then r2.crc else t.crclist)
  }

  /** One benchmark pass on an original list, folded into the running crc. */
  method BenchAndFold(res: CoreResults, finderIdx: Int16, ghost s: seq<Cell>, ghost items: set<ListData>,
                      ghost st: Store)
    requires items == Infos(s) && IsList(res.list, s) && st == Snapshot(items, res.View()) && Original(s, st.items)
    modifies Nodes(s)`next, Nodes(s)`info, items`data16, res`crc, res`crcstate, res`crcmatrix, res`runs
    ensures IsList(res.list, s)
    ensures Snapshot(items, res.View())
         == Store(st.items, Fold(Benchmark(s, st, res.bench, res.seed3, finderIdx)))
  {
    hide Original, Benchmark, IsList, Crc.U16, Nodes;
    OriginalSize(s, st.items);
    OriginalRestored(s, st, res.bench, res.seed3, finderIdx);
    CellInfo(res.list, s, 0);
    var crc, o := CoreBenchList(res, finderIdx, s);
    FoldCrc(res, crc, s, items);
  }

  /** `res->crc = crcu16(crc, res->crc);` */
  method FoldCrc(res: CoreResults, crc: bv16, ghost s: seq<Cell>, ghost items: set<ListData>)
    requires IsList(res.list, s)
    modifies res`crc
    ensures IsList(res.list, s)
    ensures var st := old(Snapshot(items, res.View()));
      Snapshot(items, res.View()) == Store(st.items, st.regs.(crc := Crc.U16(crc, st.regs.crc)))
  {
    hide Crc.U16;
    res.crc := Crc.CrcU16(crc, res.crc);
    assert Snapshot(items, res.View()).items == old(Snapshot(items, res.View()).items);
  }

  lemma OriginalSize(s: seq<Cell>, items: map<ListData, Item>)
    requires Original(s, items)
    ensures |s| >= 3
  {
  }

  /** `iterate`: after any number of iterations the list and its items are in their
      original state, and the registers are those of running every pass on that state. */
  method Iterate(res: CoreResults, ghost s: seq<Cell>, ghost items: set<ListData>, ghost its: map<ListData, Item>)
    requires items == Infos(s) && IsList(res.list, s)
    requires its == Snapshot(items, res.View()).items && Original(s, its)
    modifies Nodes(s)`next, Nodes(s)`info, items`data16, res`crc, res`crclist, res`crcstate, res`crcmatrix, res`runs
    ensures IsList(res.list, s)
    ensures |s| >= 3 && Store(its, Iterations(s, its, res.bench, res.seed3, old(res.runs), res.iterations).regs)
         == Snapshot(items, res.View())
    ensures res.crclist == Iterations(s, its, res.bench, res.seed3, old(res.runs), res.iterations).crclist
  {
    OriginalSize(s, its);
    hide Original, IsList, Nodes, Infos, Iterations, Snapshot;
    ghost var runs := res.runs;
    ClearRegs(res, s, items);
    IterateLoop(res, s, items, its, runs);
  }

  method IterateLoop(res: CoreResults, ghost s: seq<Cell>, ghost items: set<ListData>, ghost its: map<ListData, Item>,
                     ghost runs: nat)
    requires items == Infos(s) && IsList(res.list, s) && |s| >= 3
    requires Snapshot(items, res.View()) == Store(its, res.View()) && Original(s, its)
    requires res.View() == Regs(0, 0, 0, runs) && res.crclist == 0
    modifies Nodes(s)`next, Nodes(s)`info, items`data16, res`crc, res`crclist, res`crcstate, res`crcmatrix, res`runs
    ensures IsList(res.list, s) && Snapshot(items, res.View()) == Store(its, res.View())
    ensures Totals(res.View(), res.crclist) == Iterations(s, its, res.bench, res.seed3, runs, res.iterations)
  {
    hide Original, IsList, Nodes, Infos, Iterations, Snapshot, Fold, Benchmark;
    IterationsStep(s, its, res.bench, res.seed3, runs, 0);
    ghost var t := Totals(Regs(0, 0, 0, runs), 0);
    var n := res.iterations;
    for i := 0 to n
      invariant IsList(res.list, s)
      invariant t == Iterations(s, its, res.bench, res.seed3, runs, i)
      invariant res.View() == t.regs && res.crclist == t.crclist
      invariant Snapshot(items, res.View()) == Store(its, res.View())
    {
      IterationsStep(s, its, res.bench, res.seed3, runs, i);
      IterateOnce(res, i == 0, s, items, its);
      t := Totals(res.View(), res.crclist);
    }
  }

  lemma IterationsStep(s: seq<Cell>, items: map<ListData, Item>, bench: Bench, seed3: Int16, runs: nat, n: nat)
    requires |s| >= 3
    ensures Iterations(s, items, bench, seed3, runs, 0) == Totals(Regs(0, 0, 0, runs), 0)
    ensures var t := Iterations(s, items, bench, seed3, runs, n);
      var r1 := Fold(Benchmark(s, Store(items, t.regs), bench, seed3, 1));
      var r2 := Fold(Benchmark(s, Store(items, r1), bench, seed3, -1));
      Iterations(s, items, bench, seed3, runs, n + 1) == Totals(r2, if n == 0 then r2.crc else t.crclist)
  {
    hide Fold, Benchmark;
  }

  method ClearRegs(res: CoreResults, ghost s: seq<Cell>, ghost items: set<ListData>)
    requires IsList(res.list, s)
    modifies res`crc, res`crclist, res`crcstate, res`crcmatrix
    ensures res.View() == Regs(0, 0, 0, old(res.runs)) && res.crclist == 0
    ensures IsList(res.list, s)
    ensures Snapshot(items, res.View()) == Store(old(Snapshot(items, res.View())).items, res.View())
  {
    res.crc, res.crclist, res.crcmatrix, res.crcstate := 0, 0, 0, 0;
    assert Snapshot(items, res.View()).items == old(Snapshot(items, res.View())).items;
  }

  /** One iteration: a pass forward and a pass backward, both folded into the crc. */
  method IterateOnce(res: CoreResults, first: bool, ghost s: seq<Cell>, ghost items: set<ListData>,
                     ghost its: map<ListData, Item>)
    requires items == Infos(s) && IsList(res.list, s) && |s| >= 3
    requires Snapshot(items, res.View()) == Store(its, res.View()) && Original(s, its)
    modifies Nodes(s)`next, Nodes(s)`info, items`data16, res`crc, res`crclist, res`crcstate, res`crcmatrix, res`runs
    ensures IsList(res.list, s) && Snapshot(items, res.View()) == Store(its, res.View())
    ensures var r1 := Fold(Benchmark(s, Store(its, old(res.View())), res.bench, res.seed3, 1));
      res.View() == Fold(Benchmark(s, Store(its, r1), res.bench, res.seed3, -1))
    ensures res.crclist == if first then res.crc else old(res.crclist)
  {
    hide Original, IsList, Nodes, Infos, Fold, Benchmark, Snapshot;
    BenchAndFold(res, 1, s, items, Store(its, res.View()));
    SnapshotRegs(items, res.View());
    BenchAndFold(res, -1, s, items, Store(its, res.View()));
    SnapshotRegs(items, res.View());
    SetCrcList(res, first, s, items);
    SnapshotRegs(items, res.View());
  }

  /** `if (i == 0) res->crclist = res->crc;` */
  method SetCrcList(res: CoreResults, first: bool, ghost s: seq<Cell>, ghost items: set<ListData>)
    requires IsList(res.list, s)
    modifies res`crclist
    ensures IsList(res.list, s)
    ensures res.crclist == if first then res.crc else old(res.crclist)
    ensures Snapshot(items, res.View()) == old(Snapshot(items, res.View()))
  {
    if first {
      res.crclist := res.crc;
    }
    assert Snapshot(items, res.View()).items == old(Snapshot(items, res.View()).items);
  }
}

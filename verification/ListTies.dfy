/** Which lists a benchmark pass restores: the ones sorted by distinct indices, with equal
    data bytes, and no others. One search reverses the order of any two cells with the
    same index, and the closing sort, being stable, does not turn it back. */
module ListTies {
  import opened StableSort
  import opened ListItems
  import opened ListHeap
  import opened ListBench

  // ---- two cells of a list ----

  ghost function OneOf(a: Cell, b: Cell): Cell -> bool {
    c => c == a || c == b
  }

  lemma {:induction false} FilterTwice(p: Cell -> bool, q: Cell -> bool, s: seq<Cell>)
    requires forall c <- s :: q(c) ==> p(c)
    ensures Filter(q, Filter(p, s)) == Filter(q, s)
  {
    if s != [] {
      FilterTwice(p, q, s[1..]);
      FilterAppend(q, Head(p, s), Filter(p, s[1..]));
      FilterOne(q, s[0]);
    }
  }

  lemma FilterOne(q: Cell -> bool, c: Cell)
    ensures Filter(q, [c]) == if q(c) then [c] else []
    ensures Filter(q, []) == []
  {
    assert [c][1..] == [];
  }

  lemma PairOfParts(x: seq<Cell>, a: Cell, y: seq<Cell>, b: Cell, z: seq<Cell>)
    requires a !in x && a !in y && a !in z && b !in x && b !in y && b !in z
    ensures Filter(OneOf(a, b), x + [a] + y + [b] + z) == [a, b]
  {
    var q := OneOf(a, b);
    hide Filter;
    FilterNone(q, x);
    FilterNone(q, y);
    FilterNone(q, z);
    FilterOne(q, a);
    FilterOne(q, b);
    FilterAppend(q, x, [a]);
    FilterAppend(q, x + [a], y);
    FilterAppend(q, x + [a] + y, [b]);
    FilterAppend(q, x + [a] + y + [b], z);
  }

  /** What a filter for two cells leaves of a list without repetitions. */
  lemma PairFiltered(s: seq<Cell>, i: nat, j: nat)
    requires i < j < |s| && Distinct(s)
    ensures Filter(OneOf(s[i], s[j]), s) == [s[i], s[j]]
  {
    var a, b := s[i], s[j];
    Elsewhere(s, i, 0, i);
    Elsewhere(s, i, i + 1, j);
    Elsewhere(s, i, j + 1, |s|);
    Elsewhere(s, j, 0, i);
    Elsewhere(s, j, i + 1, j);
    Elsewhere(s, j, j + 1, |s|);
    hide *;
    PairOfParts(s[..i], a, s[i + 1..j], b, s[j + 1..]);
    InParts(s, i, j);
  }

  lemma InParts(s: seq<Cell>, i: nat, j: nat)
    requires i < j < |s|
    ensures s[..i] + [s[i]] + s[i + 1..j] + [s[j]] + s[j + 1..] == s
  {
  }

  lemma Elsewhere(s: seq<Cell>, i: nat, lo: nat, hi: nat)
    requires i < |s| && lo <= hi <= |s| && !(lo <= i < hi) && Distinct(s)
    ensures s[i] !in s[lo..hi]
  {
    forall t | 0 <= t < hi - lo ensures s[lo..hi][t] != s[i] {
      assert s[lo..hi][t] == s[lo + t];
    }
  }

  // ---- ties ----

  /** `u` and `v` are the places in `t`, in this order, of the cells `j` and `i` of `s`. */
  ghost predicate Turned(s: seq<Cell>, t: seq<Cell>, i: nat, j: nat, u: nat, v: nat) {
    i < j < |s| && u < v < |t| && t[u] == s[j] && t[v] == s[i]
  }

  /** Any two cells of `s` with the same index are in the other order in `t`. */
  ghost predicate TiesTurned(s: seq<Cell>, t: seq<Cell>, items: map<ListData, Item>) {
    forall i: nat, j: nat :: i < j < |s| && Get(items, s[i].info).idx == Get(items, s[j].info).idx ==>
      exists u: nat, v: nat :: Turned(s, t, i, j, u, v)
  }

  /** A stable sort does not give back a list whose ties were turned. */
  lemma TiesStay(s: seq<Cell>, t: seq<Cell>, items: map<ListData, Item>, leq: (Cell, Cell) -> bool)
    requires Distinct(s) && Distinct(t) && TiesTurned(s, t, items) && Stable(leq, s, t)
    requires forall a <- s, b <- s :: Get(items, a.info).idx == Get(items, b.info).idx ==> leq(a, b)
    ensures DistinctIndices(s, items)
  {
    forall i, j | 0 <= i < j < |s| ensures Get(items, s[i].info).idx != Get(items, s[j].info).idx {
      if Get(items, s[i].info).idx == Get(items, s[j].info).idx {
        var u: nat, v: nat :| Turned(s, t, i, j, u, v);
        PairsDiffer(s, t, i, j, u, v, leq);
      }
    }
  }

  lemma PairsDiffer(s: seq<Cell>, t: seq<Cell>, i: nat, j: nat, u: nat, v: nat, leq: (Cell, Cell) -> bool)
    requires Distinct(s) && Distinct(t) && Turned(s, t, i, j, u, v)
    requires leq(s[i], s[j]) && leq(s[j], s[i]) && leq(s[i], s[i])
    ensures !Stable(leq, s, t)
  {
    var a, b := s[i], s[j];
    var p, q := Equiv(leq, a), OneOf(a, b);
    PairFiltered(s, i, j);
    PairFiltered(t, u, v);
    FilterTwice(p, q, s);
    FilterTwice(p, q, t);
    SameFilter(OneOf(b, a), q, t);
    hide Filter;
    assert [a, b][0] != [b, a][0] by {
      assert a.node != b.node;
    }
    assert Filter(p, s) != Filter(p, t);
    assert a in t;
  }

  lemma {:induction false} SameFilter(p: Cell -> bool, q: Cell -> bool, s: seq<Cell>)
    requires forall c :: p(c) == q(c)
    ensures Filter(p, s) == Filter(q, s)
  {
    if s != [] {
      SameFilter(p, q, s[1..]);
    }
  }

  // ---- one search ----

  /** A reversal turns all ties. */
  lemma ReversedTurns(s: seq<Cell>, items: map<ListData, Item>)
    ensures TiesTurned(s, Reversed(s), items)
  {
    forall i: nat, j: nat | i < j < |s| && Get(items, s[i].info).idx == Get(items, s[j].info).idx
      ensures exists u: nat, v: nat :: Turned(s, Reversed(s), i, j, u, v)
    {
      assert Turned(s, Reversed(s), i, j, |s| - 1 - j, |s| - 1 - i);
    }
  }

  /** Where moving the successor of cell `k` to the second place takes the cell at `x`. */
  function MovedTo(k: nat, x: nat): nat {
    if x == 0 || x > k + 1 then x else if x == k + 1 then 1 else x + 1
  }

  lemma MovedCellAt(r: seq<Cell>, k: nat, x: nat)
    requires k + 1 < |r| && x < |r|
    ensures MovedTo(k, x) < |r| && CacheNext(r, k)[MovedTo(k, x)] == r[x]
  {
  }

  /** A search for index 0 that finds cell `k` of a sorted list turns all ties, too: the
      successor that is moved has a smaller index than every cell it overtakes. */
  lemma FoundTurns(s: seq<Cell>, items: map<ListData, Item>, k: nat)
    requires 0 < k < |s| && Sorted(ByIndex(items), s)
    requires Get(items, s[k].info).idx == 0 && Get(items, s[k - 1].info).idx != 0
    ensures TiesTurned(s, CacheNext(Reversed(s), |s| - 1 - k), items)
  {
    var t := CacheNext(Reversed(s), |s| - 1 - k);
    forall i: nat, j: nat | i < j < |s| && Get(items, s[i].info).idx == Get(items, s[j].info).idx
      ensures exists u: nat, v: nat :: Turned(s, t, i, j, u, v)
    {
      NotOvertaken(s, items, k, i, j);
      hide *;
      var u, v := MovedPair(s, k, i, j);
    }
  }

  lemma MovedPair(s: seq<Cell>, k: nat, i: nat, j: nat) returns (u: nat, v: nat)
    requires 0 < k < |s| && i < j < |s| && i != k - 1
    ensures Turned(s, CacheNext(Reversed(s), |s| - 1 - k), i, j, u, v)
  {
    hide Reversed, CacheNext;
    var n := |s|;
    u, v := MovedTo(n - 1 - k, n - 1 - j), MovedTo(n - 1 - k, n - 1 - i);
    MovedCellAt(Reversed(s), n - 1 - k, n - 1 - j);
    MovedCellAt(Reversed(s), n - 1 - k, n - 1 - i);
  }

  lemma NotOvertaken(s: seq<Cell>, items: map<ListData, Item>, k: nat, i: nat, j: nat)
    requires 0 < k < |s| && Sorted(ByIndex(items), s)
    requires Get(items, s[k].info).idx == 0 && Get(items, s[k - 1].info).idx != 0
    requires i < j < |s| && Get(items, s[i].info).idx == Get(items, s[j].info).idx
    ensures i != k - 1
  {
    assert ByIndex(items)(s[k - 1], s[k]);
    assert k < j ==> ByIndex(items)(s[k], s[j]);
  }

  /** The list after one search for index 0. */
  lemma SearchZeroTurns(s: seq<Cell>, items: map<ListData, Item>)
    requires |s| >= 2 && Distinct(s) && Sorted(ByIndex(items), s)
    ensures var t := Searches(Probe(s, 0, 0, 0, 0), items, 1).list;
      Distinct(t) && TiesTurned(s, t, items)
  {
    hide Searches, CacheNext, Reversed, Distinct, TiesTurned, Sorted, ByIndex, LowByteOf, FindFrom;
    var k := FindFrom(s, items, 0, LowByteOf(0));
    SearchZero(s, items);
    if 0 < k < |s| {
      FoundAt(s, items, k);
      MovedTurns(s, items, k);
    } else {
      ReversedDistinct(s);
      ReversedTurns(s, items);
    }
  }

  lemma MovedTurns(s: seq<Cell>, items: map<ListData, Item>, k: nat)
    requires 0 < k < |s| && Distinct(s) && Sorted(ByIndex(items), s)
    requires Get(items, s[k].info).idx == 0 && Get(items, s[k - 1].info).idx != 0
    ensures var t := CacheNext(Reversed(s), |s| - 1 - k); Distinct(t) && TiesTurned(s, t, items)
  {
    hide *;
    FoundTurns(s, items, k);
    ReversedDistinct(s);
    CacheNextDistinct(Reversed(s), |s| - 1 - k);
  }

  lemma FoundAt(s: seq<Cell>, items: map<ListData, Item>, k: nat)
    requires k == FindFrom(s, items, 0, LowByteOf(0)) && 0 < k < |s|
    ensures Get(items, s[k].info).idx == 0 && Get(items, s[k - 1].info).idx != 0
  {
    hide LowByteOf;
    assert !Sought(Get(items, s[k - 1].info), 0, LowByteOf(0));
  }

  lemma SearchZero(s: seq<Cell>, items: map<ListData, Item>)
    requires |s| >= 2
    ensures var k := FindFrom(s, items, 0, LowByteOf(0));
      Searches(Probe(s, 0, 0, 0, 0), items, 1).list
      == if 0 < k < |s| then CacheNext(Reversed(s), |s| - 1 - k) else Reversed(s)
  {
    hide CacheNext, Reversed, FindFrom, LowByteOf, Plus, HitBonus, MissBonus, NextIdx, Get, Wrap16;
    var probe := Probe(s, 0, 0, 0, 0);
    assert Searches(probe, items, 0) == probe;
    assert Searches(probe, items, 1) == Search(probe, items, 0);
  }

  // ---- restoration ----

  /** The pass leaves the list and its items as they were. */
  ghost predicate Unchanged(s: seq<Cell>, st: Store, bench: Bench, seed3: Int16, finderIdx: Int16)
    requires |s| >= 3
  {
    var o := Benchmark(s, st, bench, seed3, finderIdx);
    o.list == s && o.store.items == st.items
  }

  /** A restored list was sorted, and its items had equal bytes. */
  lemma RestoredWas(s: seq<Cell>, st: Store, bench: Bench, seed3: Int16, finderIdx: Int16)
    requires |s| >= 3 && st.items.Keys == Infos(s) && Unchanged(s, st, bench, seed3, finderIdx)
    ensures Sorted(ByIndex(st.items), s) && forall d <- st.items :: SameBytes(st.items[d].data16)
  {
    hide Benchmark, Rebuilt, SameBytes, Sorted, ByIndex;
    BenchOutcome(s, st, bench, seed3, finderIdx);
    forall d | d in st.items ensures SameBytes(st.items[d].data16) {
      RebuiltFacts(st.items[d].data16);
      assert AllRebuilt(st.items)[d] == st.items[d];
    }
  }

  /** A pass of one search that turns the ties of sorted lists restores the original ones
      and no others. */
  lemma OneSearchDecides(s: seq<Cell>, st: Store, bench: Bench, finderIdx: Int16)
    requires |s| >= 3 && Distinct(s) && st.items.Keys == Infos(s) && finderIdx <= 0
    requires Sorted(ByIndex(st.items), s) ==>
               var t := Searches(Probe(s, finderIdx, 0, 0, 0), st.items, 1).list;
               Distinct(t) && TiesTurned(s, t, st.items)
    ensures Unchanged(s, st, bench, 1, finderIdx) <==> Original(s, st.items)
  {
    if Original(s, st.items) {
      OriginalRestored(s, st, bench, 1, finderIdx);
    }
    if Unchanged(s, st, bench, 1, finderIdx) {
      RestoredWas(s, st, bench, 1, finderIdx);
      var t := Searches(Probe(s, finderIdx, 0, 0, 0), st.items, 1).list;
      var st0 := Store(st.items, Regs(0, 0, 0, 0));
      SearchedThenSorted(s, st, bench, finderIdx);
      SortIsStable(s, t, st0);
    }
  }

  lemma SortIsStable(s: seq<Cell>, t: seq<Cell>, st: Store)
    requires Distinct(s) && Distinct(t) && TiesTurned(s, t, st.items) && multiset(t) == multiset(s)
    requires st.items.Keys == Infos(s) && SortList(CmpIdx(true), 1, t, st).0 == s
    ensures DistinctIndices(s, st.items)
  {
    var cmp := CmpIdx(true);
    var st1 := SortList(cmp, 1, t, st).1;
    hide SortList, Stable, Sorted, Settled, TiesTurned, Distinct;
    OwnComparisonsOrdered(cmp);
    SameCells(t, s);
    ImpureSortCorrect(cmp, t, st);
    RebuiltCarries(cmp, st, st1);
    TiesStay(s, t, st.items, InOrder(cmp, st1.items));
  }

  /** For every list, whatever its indices: a pass with one search, for index 0, restores it
      if and only if it was sorted by distinct indices with equal bytes; and these lists
      are the ones that every pass restores. */
  lemma BenchRestores(s: seq<Cell>, st: Store, bench: Bench)
    requires |s| >= 3 && Distinct(s) && st.items.Keys == Infos(s)
    ensures Unchanged(s, st, bench, 1, 0) <==> Original(s, st.items)
    ensures (forall seed3: Int16, finderIdx: Int16 :: Unchanged(s, st, bench, seed3, finderIdx))
       <==> Original(s, st.items)
  {
    if Sorted(ByIndex(st.items), s) {
      SearchZeroTurns(s, st.items);
    }
    hide Benchmark, Sorted, ByIndex, Original, TiesTurned, Searches;
    OneSearchDecides(s, st, bench, 0);
    if Original(s, st.items) {
      forall seed3: Int16, finderIdx: Int16 ensures Unchanged(s, st, bench, seed3, finderIdx) {
        OriginalRestored(s, st, bench, seed3, finderIdx);
      }
    }
  }

  /** The same for the backward pass of the program when its one search finds nothing. */
  lemma MissRestores(s: seq<Cell>, st: Store, bench: Bench)
    requires |s| >= 3 && Distinct(s) && st.items.Keys == Infos(s)
    requires forall c <- s :: WorkingByte(Get(st.items, c.info).data16) != 0
    ensures Unchanged(s, st, bench, 1, -1) <==> Original(s, st.items)
  {
    hide Sorted, ByIndex, Original, TiesTurned, Searches, Distinct, WorkingByte;
    MissedSearch(s, st.items);
    ReversedDistinct(s);
    ReversedTurns(s, st.items);
    OneSearchDecides(s, st, bench, -1);
  }
}

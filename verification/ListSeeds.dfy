/** For which seeds `core_list_init` makes a list that every benchmark pass restores. */
module ListSeeds {
  import opened StableSort
  import opened ListItems
  import opened ListHeap
  import opened ListBench
  import opened ListTies
  import opened ListInit

  ghost predicate DistinctInitial(size: nat, seed: bv16)
    requires size >= 3
  {
    forall i, j :: 0 <= i < j < size - 1 ==> InitialItem(size, seed, i).idx != InitialItem(size, seed, j).idx
  }

  lemma DistinctCarries(a: seq<Cell>, b: seq<Cell>, items: map<ListData, Item>)
    requires multiset(a) == multiset(b) && DistinctIndices(b, items)
    requires forall i, j :: 0 <= i < j < |a| ==> a[i] != a[j]
    ensures DistinctIndices(a, items)
  {
    forall i, j | 0 <= i < j < |a| ensures Get(items, a[i].info).idx != Get(items, a[j].info).idx {
      MembersShared(a, b, a[i]);
      MembersShared(a, b, a[j]);
      var t :| 0 <= t < |b| && b[t] == a[i];
      var u :| 0 <= u < |b| && b[u] == a[j];
      assert t != u;
    }
  }

  /** The new list is in an original state exactly when its indices are distinct. */
  lemma InitialIsOriginal(items: map<ListData, Item>, base: seq<Cell>, out: seq<Cell>, size: nat, seed: bv16)
    requires size >= 4 && Initial(items, base, size, seed) && Distinct(out)
    requires multiset(out) == multiset(base) && Sorted(ByIndex(items), out)
    ensures Original(out, items) <==> DistinctInitial(size, seed)
  {
    hide InitialItem, SameBytes, Sorted, ByIndex, AllRebuilt;
    RebuiltInitial(items, base, size, seed);
    SameCells(out, base);
    if DistinctIndices(base, items) {
      DistinctCarries(out, base, items);
    }
    if DistinctIndices(out, items) {
      DistinctCarries(base, out, items);
    }
    assert DistinctInitial(size, seed) <==> DistinctIndices(base, items);
  }

  // ---- 16-bit counters ----

  function FromInt(n: nat): bv16
    requires n < 0x1_0000
  {
    n as bv16
  }

  lemma BackFromInt(x: bv16)
    ensures FromInt(ToInt(x)) == x
  {
  }

  lemma SameInt(x: bv16, y: bv16)
    requires ToInt(x) == ToInt(y)
    ensures x == y
  {
    hide *;
    BackFromInt(x);
    BackFromInt(y);
  }

  lemma NextInt(b: bv16)
    requires b < 512
    ensures ToInt(Plus16(b, 1)) == ToInt(b) + 1
  {
  }

  lemma SmallBits(b: bv16)
    ensures b < 256 <==> ToInt(b) < 256
    ensures b < 512 <==> ToInt(b) < 512
  {
  }

  lemma {:induction false} Low16Is(i: nat)
    requires i <= 512
    ensures ToInt(Low16(i)) == i
  {
    hide ToInt, Plus16;
    if i == 0 {
      ZeroIs();
    } else {
      Low16Is(i - 1);
      SmallBits(Low16(i - 1));
      NextInt(Low16(i - 1));
    }
  }

  lemma ZeroIs()
    ensures ToInt(0) == 0
  {
  }

  lemma PlusAssociates(x: bv16, y: bv16, z: bv16)
    ensures Plus16(x, Plus16(y, z)) == Plus16(Plus16(x, y), z) && Plus16(x, 0) == x
  {
  }

  lemma {:induction false} Low16Sum(i: nat, d: nat)
    ensures Low16(i + d) == Plus16(Low16(i), Low16(d))
  {
    hide Plus16;
    if d == 0 {
      PlusAssociates(Low16(i), 0, 0);
    } else {
      Low16Sum(i, d - 1);
      PlusAssociates(Low16(i), Low16(d - 1), 1);
    }
  }

  /** 256 places further on, the counter is a page further on. */
  lemma Low16Page(i: nat)
    ensures Low16(i + 256) == Plus16(Low16(i), 0x100)
  {
    hide *;
    Low16Sum(i, 256);
    Low16Is(256);
    PageIs();
    SameInt(Low16(256), 0x100);
  }

  lemma PageIs()
    ensures ToInt(0x100) == 256
  {
  }

  // ---- mixed indices ----

  /** The bits of a mixed index above its low byte vanish. */
  predicate HighVanish(seed: bv16, b: bv16) { b & 7 == 7 && (b ^ seed) & 0x3f00 == 0 }

  /** The low byte of a mixed index. */
  function Residue(seed: bv16, b: bv16): bv16 { (b ^ seed) & 0xff }

  lemma MixedBits(seed: bv16, b: bv16, v: bv16)
    requires v < 256
    ensures Mixed(seed, b) == v <==> HighVanish(seed, b) && Residue(seed, b) == v
  {
  }

  lemma MixedByte(seed: bv16, b: bv16, d: bv16)
    requires d < 256 && Mixed(seed, b) == Mixed(seed, Plus16(b, d))
    ensures d == 0
  {
  }

  /** Less than 256 places apart, mixed indices are different: their low bytes are. */
  lemma MixedInjective(seed: bv16, i: nat, j: nat)
    requires i < j < i + 256
    ensures ToInt(Mixed(seed, Low16(i))) != ToInt(Mixed(seed, Low16(j)))
  {
    hide Mixed, Low16, ToInt, Plus16;
    var d := j - i;
    Low16Sum(i, d);
    Low16Is(d);
    SmallBits(Low16(d));
    ZeroIs();
    if ToInt(Mixed(seed, Low16(i))) == ToInt(Mixed(seed, Low16(j))) {
      SameInt(Mixed(seed, Low16(i)), Mixed(seed, Low16(j)));
      MixedByte(seed, Low16(i), Low16(d));
    }
  }

  /** Cell `i` gets an index that one of the first cells, or the head, has. */
  predicate Collides(size: nat, seed: bv16, i: nat) {
    HighVanish(seed, Low16(i)) && ToInt(Residue(seed, Low16(i))) < Limit(size)
  }

  function Limit(size: nat): nat { if size / 5 == 0 then 1 else size / 5 }

  lemma ResidueSmall(seed: bv16, b: bv16)
    ensures Residue(seed, b) < 256
  {
  }

  lemma MixedSmall(size: nat, seed: bv16, i: nat)
    requires size / 5 < 256
    ensures ToInt(Mixed(seed, Low16(i))) < Limit(size) <==> Collides(size, seed, i)
  {
    hide Mixed, Low16, Residue, HighVanish, ToInt;
    var b := Low16(i);
    var r, m := Residue(seed, b), Mixed(seed, b);
    if ToInt(m) < Limit(size) {
      SmallBits(m);
      MixedBits(seed, b, m);
    } else if Collides(size, seed, i) {
      ResidueSmall(seed, b);
      MixedBits(seed, b, r);
    }
  }

  // ---- which indices are distinct ----

  /** The index at each position of a list of moderate size. */
  lemma IndexCases(size: nat, seed: bv16, t: nat)
    requires 4 <= size <= 322 && t < size - 1
    ensures var idx := InitialItem(size, seed, t).idx;
      if t == 0 then idx == 0
      else if t == size - 2 then idx == 0x7fff
      else if t < size / 5 then idx == t
      else idx == ToInt(Mixed(seed, Low16(t))) < 0x4000
  {
    hide Mixed, Low16, DataFor, ToInt;
    BelowRange(Mixed(seed, Low16(t)));
  }

  /** Moderate sizes: distinct unless a cell behind the first fifth collides. */
  lemma ModerateDistinct(size: nat, seed: bv16)
    requires 4 <= size <= 322
    ensures DistinctInitial(size, seed) <==> forall i :: Limit(size) <= i <= size - 3 ==> !Collides(size, seed, i)
  {
    hide InitialItem, Mixed, Low16, Collides, ToInt;
    if forall i :: Limit(size) <= i <= size - 3 ==> !Collides(size, seed, i) {
      forall i, j | 0 <= i < j < size - 1
        ensures InitialItem(size, seed, i).idx != InitialItem(size, seed, j).idx
      {
        IndexCases(size, seed, i);
        IndexCases(size, seed, j);
        if Limit(size) <= j <= size - 3 {
          MixedSmall(size, seed, j);
          if Limit(size) <= i {
            MixedInjective(seed, i, j);
          }
        }
      }
    } else {
      var i :| Limit(size) <= i <= size - 3 && Collides(size, seed, i);
      MixedSmall(size, seed, i);
      var v := ToInt(Mixed(seed, Low16(i)));
      IndexCases(size, seed, i);
      IndexCases(size, seed, v);
      assert InitialItem(size, seed, v).idx == InitialItem(size, seed, i).idx;
    }
  }

  predicate Even(b: bv16) { b & 1 == 0 }

  /** An even place whose mixed index is also that of the place a page further on. */
  predicate Partnered(b: bv16) { b & 1 == 0 && b & 0x100 == 0 }

  lemma PartnersMeet(seed: bv16, b: bv16)
    requires Partnered(b)
    ensures Mixed(seed, b) == Mixed(seed, Plus16(b, 0x100))
  {
  }

  lemma EvenNear(b: bv16)
    ensures Even(b) || Even(Plus16(b, 1))
  {
  }

  lemma NextPage(b: bv16)
    requires Even(b)
    ensures Partnered(b) || Partnered(Plus16(b, 0x100))
    ensures b < 256 ==> Partnered(b)
  {
  }

  lemma PartneredPlace(from: nat) returns (i: nat)
    ensures from <= i <= from + 257 && Partnered(Low16(i))
    ensures from < 255 ==> i <= from + 1
  {
    assert Low16(from + 1) == Plus16(Low16(from), 1);
    hide Low16, Even, Partnered, Plus16, ToInt;
    EvenNear(Low16(from));
    i := if Even(Low16(from)) then from else from + 1;
    NextPage(Low16(i));
    if from < 255 {
      Low16Is(i);
      SmallBits(Low16(i));
    }
    if !Partnered(Low16(i)) {
      Low16Page(i);
      i := i + 256;
    }
  }

  lemma Place64()
    ensures Partnered(Low16(64))
  {
    hide Low16;
    Low16Is(64);
    Int64();
    SameInt(Low16(64), 64);
  }

  lemma Int64()
    ensures ToInt(64) == 64
  {
  }

  /** Large sizes: two cells behind the first fifth share an index, whatever the seed. */
  lemma LargeNotDistinct(size: nat, seed: bv16)
    requires size >= 323
    ensures !DistinctInitial(size, seed)
  {
    var i := PartneredPlace(size / 5);
    if size == 323 {
      Place64();
      i := 64;
    }
    Low16Page(i);
    PartnersMeet(seed, Low16(i));
    hide Low16, Partnered, Mixed, Plus16, ToInt, DataFor;
    assert InitialItem(size, seed, i).idx == InitialItem(size, seed, i + 256).idx;
  }

  /** The indices of a new list are distinct, and hence the list one that every benchmark
      pass restores, if and only if the block is of moderate size and no cell behind the
      first fifth collides with a cell of the first fifth or the head. */
  lemma DistinctInitialIff(size: nat, seed: bv16)
    requires size >= 4
    ensures DistinctInitial(size, seed)
       <==> size <= 322 && forall i :: Limit(size) <= i <= size - 3 ==> !Collides(size, seed, i)
  {
    hide DistinctInitial, Collides;
    if size <= 322 {
      ModerateDistinct(size, seed);
    } else {
      LargeNotDistinct(size, seed);
    }
  }

  // ---- seeds ----

  lemma FarBits(b: bv16)
    ensures b >= 3 <==> ToInt(b) >= 3
    ensures b >= 6 <==> ToInt(b) >= 6
    ensures b >= 19 <==> ToInt(b) >= 19
  {
  }

  lemma FarResidue(seed: bv16, b: bv16, l: bv16)
    requires seed == 0 || seed == 8
    requires l == 3 || l == 6 || l == 19
    requires l <= b < 256 && HighVanish(seed, b)
    ensures l <= Residue(seed, b)
  {
  }

  lemma ValidationSeed(b: bv16)
    requires b < 256
    ensures !HighVanish(0x3415, b)
  {
  }

  /** The repository's own seeds -- performance, validation and profile -- are safe, for
      blocks of 400, 666 and 2000 bytes at 20 bytes a cell. */
  lemma ShippedSeedsDistinct(size: nat, seed: bv16)
    requires size == 400 / 20 - 2 || size == 666 / 20 - 2 || size == 2000 / 20 - 2
    requires seed == 0 || seed == 0x3415 || seed == 8
    ensures DistinctInitial(size, seed)
  {
    hide DistinctInitial, HighVanish, Low16, Residue, ToInt;
    forall i | Limit(size) <= i <= size - 3 ensures !Collides(size, seed, i) {
      Low16Is(i);
      SmallBits(Low16(i));
      if HighVanish(seed, Low16(i)) {
        if seed == 0x3415 {
          ValidationSeed(Low16(i));
        } else {
          NotClose(size, seed, i);
        }
      }
    }
    DistinctInitialIff(size, seed);
  }

  lemma NotClose(size: nat, seed: bv16, i: nat)
    requires size == 18 || size == 31 || size == 98
    requires seed == 0 || seed == 8
    requires Limit(size) <= i < 256 && HighVanish(seed, Low16(i))
    ensures ToInt(Residue(seed, Low16(i))) >= Limit(size)
  {
    hide Low16, Residue, HighVanish, ToInt;
    Low16Is(i);
    SmallBits(Low16(i));
    FarBits(Low16(i));
    FarResidue(seed, Low16(i), if size == 18 then 3 else if size == 31 then 6 else 19);
    FarBits(Residue(seed, Low16(i)));
  }

  /** The seed 0x14 is not: of 31 cells, cell 23 gets index 3, which cell 3 has. */
  lemma CollidingSeed()
    ensures !DistinctInitial(31, 0x14)
  {
    hide DistinctInitial, Low16;
    Low16Is(23);
    SampleInts();
    SameInt(Low16(23), 23);
    assert Collides(31, 0x14, 23);
    DistinctInitialIff(31, 0x14);
  }

  lemma SampleInts()
    ensures ToInt(23) == 23 && HighVanish(0x14, 23) && ToInt(Residue(0x14, 23)) == 3
  {
  }

  // ---- one pass on a new list ----

  lemma DataNotZero(seed: bv16, b: bv16)
    requires seed & 7 != 0
    ensures WorkingByte(DataFor(seed, b)) != 0 && WorkingByte(0x8080) != 0 && WorkingByte(0xffff) != 0
  {
  }

  /** Unless the seed is a multiple of eight, no item of a new list has a zero byte. */
  lemma NoZeroByte(items: map<ListData, Item>, base: seq<Cell>, size: nat, seed: bv16)
    requires Initial(items, base, size, seed) && seed & 7 != 0
    ensures forall c <- base :: WorkingByte(Get(items, c.info).data16) != 0
  {
    hide DataFor, WorkingByte, Low16, IndexFor;
    forall c | c in base ensures WorkingByte(Get(items, c.info).data16) != 0 {
      var t :| 0 <= t < |base| && base[t] == c;
      DataNotZero(seed, Low16(if 0 < t < size - 2 then size - 3 - t else 0));
      assert Get(items, c.info) == InitialItem(size, seed, t);
    }
  }

  /** So one backward pass with one search restores the new list if and only if its indices
      are distinct. */
  lemma NewListRestored(items: map<ListData, Item>, base: seq<Cell>, out: seq<Cell>, size: nat, seed: bv16,
                        st: Store, bench: Bench)
    requires size >= 4 && Initial(items, base, size, seed) && Distinct(out) && seed & 7 != 0
    requires multiset(out) == multiset(base) && Sorted(ByIndex(items), out)
    requires st.items == items && |out| >= 3
    ensures Unchanged(out, st, bench, 1, -1) <==> DistinctInitial(size, seed)
  {
    SameCells(out, base);
    NoZeroByte(items, base, size, seed);
    forall c | c in out ensures c in base {
      MembersShared(out, base, c);
    }
    InitialIsOriginal(items, base, out, size, seed);
    hide Unchanged, DistinctInitial, Sorted, ByIndex, Original, Distinct, WorkingByte;
    MissRestores(out, st, bench);
  }

  /** Set up and run one backward pass with one search: the list at `res.list` is still the
      one that was set up if and only if the indices are distinct. */
  method PassOnNewList(size: nat, seed: bv16, bench: Bench)
    returns (res: CoreResults, ghost out: seq<Cell>, ghost base: seq<Cell>, ghost o: Outcome)
    requires size >= 4 && seed & 7 != 0
    ensures IsList(res.list, out) <==> DistinctInitial(size, seed)
    ensures o.list == out <==> DistinctInitial(size, seed)
    ensures |out| == size - 1 && IsList(NodeAt(o.list, 0), o.list)
    ensures o.store == Snapshot(Infos(out), res.View()) && Initial(o.store.items, base, size, seed)
    ensures multiset(out) == multiset(base) && Sorted(ByIndex(o.store.items), out)
    ensures res.list == NodeAt(out, 0)
  {
    hide *;
    var list;
    list, out, base := CoreListInit(size, seed);
    ghost var items := Snapshot(Infos(out), Regs(0, 0, 0, 0)).items;
    NewListFacts(list, out, base, items, size, seed);
    res := NewResults(bench, 1, 0, list, out);
    ghost var st := Snapshot(Infos(out), res.View());
    SnapshotItems(out, res.View());
    NewListRestored(items, base, out, size, seed, st, bench);
    CellInfo(res.list, out, 0);
    var retval;
    retval, o := CoreBenchList(res, -1, out);
    OutcomeItems(out, base, st, bench, size, seed);
    SameLinks(NodeAt(o.list, 0), o.list, res.list, out);
  }

  /** The links of a set of cells leave no choice of their order. */
  lemma SameLinks(h1: ListHead?, s1: seq<Cell>, h2: ListHead?, s2: seq<Cell>)
    requires IsList(h1, s1) && multiset(s1) == multiset(s2) && h2 == NodeAt(s2, 0)
    ensures IsList(h2, s2) <==> s1 == s2
  {
    SameCells(s1, s2);
    if IsList(h2, s2) {
      forall i | 0 <= i < |s1| ensures s1[i] == s2[i] {
        SameFrom(h1, s1, h2, s2, i);
      }
    }
  }

  lemma {:induction false} SameFrom(h1: ListHead?, s1: seq<Cell>, h2: ListHead?, s2: seq<Cell>, i: nat)
    requires IsList(h1, s1) && IsList(h2, s2) && multiset(s1) == multiset(s2) && i < |s1| == |s2|
    ensures s1[i] == s2[i]
    decreases |s1| - i
  {
    if i + 1 < |s1| {
      SameFrom(h1, s1, h2, s2, i + 1);
    }
    assert s1[i] in multiset(s1);
    var j :| 0 <= j < |s2| && s2[j] == s1[i];
    CellInfo(h1, s1, i);
    CellInfo(h2, s2, j);
  }

  lemma NewListFacts(list: ListHead, out: seq<Cell>, base: seq<Cell>, items: map<ListData, Item>, size: nat, seed: bv16)
    requires IsList(list, out) && Initial(items, base, size, seed) && multiset(out) == multiset(base)
    ensures Distinct(out) && |out| == size - 1 && items.Keys == Infos(out)
  {
    SameCells(out, base);
    assert |multiset(out)| == |multiset(base)|;
  }

  /** The items of a new list come back in any case. */
  lemma OutcomeItems(out: seq<Cell>, base: seq<Cell>, st: Store, bench: Bench, size: nat, seed: bv16)
    requires |out| >= 3 && Initial(st.items, base, size, seed) && st.items.Keys == Infos(out)
    ensures Benchmark(out, st, bench, 1, -1).store.items == st.items
    ensures multiset(Benchmark(out, st, bench, 1, -1).list) == multiset(out)
    ensures Unchanged(out, st, bench, 1, -1) <==> Benchmark(out, st, bench, 1, -1).list == out
  {
    hide Benchmark, AllRebuilt;
    BenchOutcome(out, st, bench, 1, -1);
    RebuiltInitial(st.items, base, size, seed);
  }

  // ---- from initialisation to any number of iterations ----

  /** Set up and run: for every seed without a collision, every kernel and every number of
      iterations, the list ends as it was set up. */
  method SetUpAndIterate(size: nat, seed: bv16, bench: Bench, seed3: Int16, iterations: nat)
    returns (res: CoreResults, ghost out: seq<Cell>)
    requires size >= 4 && DistinctInitial(size, seed)
    ensures fresh(res) && fresh(Nodes(out)) && fresh(Infos(out)) && IsList(res.list, out)
    ensures var items := Snapshot(Infos(out), res.View()).items;
      && Original(out, items)
      && exists base :: multiset(base) == multiset(out) && Initial(items, base, size, seed)
  {
    hide *;
    var list;
    ghost var base;
    list, out, base := CoreListInit(size, seed);
    ghost var items := Snapshot(Infos(out), Regs(0, 0, 0, 0)).items;
    ListIsDistinct(list, out);
    InitialIsOriginal(items, base, out, size, seed);
    res := NewResults(bench, seed3, iterations, list, out);
    SnapshotItems(out, res.View());
    Iterate(res, out, Infos(out), items);
    SnapshotItems(out, res.View());
  }

  method NewResults(bench: Bench, seed3: Int16, iterations: nat, list: ListHead, ghost s: seq<Cell>)
    returns (res: CoreResults)
    requires IsList(list, s)
    ensures fresh(res) && IsList(res.list, s)
    ensures res.bench == bench && res.seed3 == seed3
    ensures Snapshot(Infos(s), Regs(0, 0, 0, 0)) == old(Snapshot(Infos(s), Regs(0, 0, 0, 0)))
  {
    res := new CoreResults(bench, seed3, iterations, list);
  }

  lemma ListIsDistinct(list: ListHead, s: seq<Cell>)
    requires IsList(list, s)
    ensures Distinct(s)
  {
  }

  lemma SnapshotItems(s: seq<Cell>, regs: Regs)
    ensures Snapshot(Infos(s), regs).items == Snapshot(Infos(s), Regs(0, 0, 0, 0)).items
  {
  }
}

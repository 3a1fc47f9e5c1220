/** The value that `core_bench_list` returns, said of the lists that are searched: how many
    searches hit, which bits they add, and what the two walks of the crc are fed. */
module ListTally {
  import Crc
  import opened StableSort
  import opened ListItems
  import opened ListHeap
  import opened ListBench

  // ---- the searches ----

  /** The index looked for in turn `i`: it counts up from a first one that is not negative,
      in 16 bits. */
  function IdxIn(first: Int16, i: nat): Int16 {
    if first < 0 then first else if first + i <= 0x7fff then first + i else -0x8000
  }

  /** An item is wanted for its index or, if that is negative, for its low byte, which is
      to be the number of the turn. */
  ghost predicate Wanted(it: Item, idx: Int16, turn: nat) {
    if idx >= 0 then it.idx == idx else it.data16 & 0xff == (turn % 256) as bv16
  }

  ghost predicate FirstAt(s: seq<Cell>, items: map<ListData, Item>, idx: Int16, turn: nat, k: nat) {
    && k <= |s|
    && (k < |s| ==> Wanted(Get(items, s[k].info), idx, turn))
    && forall j :: 0 <= j < k ==> !Wanted(Get(items, s[j].info), idx, turn)
  }

  /** The list that turn `i` leaves when it finds place `k`: reversed, and with the cell that
      came before the found one in the second place. */
  ghost function Turned(s: seq<Cell>, k: nat): (t: seq<Cell>)
    requires k <= |s|
    ensures |t| == |s|
  {
    var n := |s|;
    seq(n, p requires 0 <= p < n =>
      if 0 < k < n && p == 1 then s[k - 1]
      else if 0 < k < n && 1 < p <= n - k then s[n - p]
      else s[n - 1 - p])
  }

  /** The place of the first wanted cell, or the length of the list. */
  ghost function Place(s: seq<Cell>, items: map<ListData, Item>, idx: Int16, turn: nat): (k: nat)
    ensures FirstAt(s, items, idx, turn, k)
  {
    if s == [] || Wanted(Get(items, s[0].info), idx, turn) then 0 else 1 + Place(s[1..], items, idx, turn)
  }

  /** The list that is searched in turn `i`. */
  ghost function ListIn(s: seq<Cell>, items: map<ListData, Item>, first: Int16, i: nat): (t: seq<Cell>)
    ensures |t| == |s|
  {
    if i == 0 then s
    else
      var t := ListIn(s, items, first, i - 1);
      Turned(t, Place(t, items, IdxIn(first, i - 1), i - 1))
  }

  ghost predicate Hit(s: seq<Cell>, items: map<ListData, Item>, first: Int16, i: nat) {
    var t := ListIn(s, items, first, i);
    Place(t, items, IdxIn(first, i), i) < |t|
  }

  /** The bit that turn `i` adds: bit 9 of a found item if its bit 0 is set, or bit 8 of the
      last item but one if nothing is found. */
  ghost predicate Adds(s: seq<Cell>, items: map<ListData, Item>, first: Int16, i: nat)
    requires |s| >= 2
  {
    var t := ListIn(s, items, first, i);
    var k := Place(t, items, IdxIn(first, i), i);
    if k < |t| then Get(items, t[k].info).data16 & 0x201 == 0x201
    else Get(items, t[|t| - 2].info).data16 & 0x100 != 0
  }

  /** Hits, misses and added bits of the first `n` turns, in 16 bits. */
  ghost function Hits(s: seq<Cell>, items: map<ListData, Item>, first: Int16, n: nat): bv16 {
    if n == 0 then 0 else Sum(Hits(s, items, first, n - 1), One(Hit(s, items, first, n - 1)))
  }

  ghost function Misses(s: seq<Cell>, items: map<ListData, Item>, first: Int16, n: nat): bv16 {
    if n == 0 then 0 else Sum(Misses(s, items, first, n - 1), One(!Hit(s, items, first, n - 1)))
  }

  ghost function Bits(s: seq<Cell>, items: map<ListData, Item>, first: Int16, n: nat): bv16
    requires |s| >= 2
  {
    if n == 0 then 0 else Sum(Bits(s, items, first, n - 1), One(Adds(s, items, first, n - 1)))
  }

  function One(b: bool): bv16 { if b then 1 else 0 }

  function Sum(a: bv16, b: bv16): bv16 { a + b }

  // ---- what the search loop computes ----

  lemma SoughtWanted(it: Item, idx: Int16, turn: nat)
    ensures Sought(it, idx, LowByteOf(turn)) <==> Wanted(it, idx, turn)
  {
  }

  lemma {:induction false} FoundPlace(s: seq<Cell>, items: map<ListData, Item>, idx: Int16, turn: nat)
    ensures FindFrom(s, items, idx, LowByteOf(turn)) == Place(s, items, idx, turn)
  {
    hide Wanted, Sought, LowByteOf;
    if s != [] {
      SoughtWanted(Get(items, s[0].info), idx, turn);
      FoundPlace(s[1..], items, idx, turn);
    }
  }

  lemma MovedAt(r: seq<Cell>, j: nat, p: nat)
    requires j + 1 < |r| && p < |r|
    ensures CacheNext(r, j)[p] == if p == 1 then r[j + 1] else if 1 < p <= j + 1 then r[p - 1] else r[p]
  {
    if p > j + 1 {
      assert r[j + 2..][p - (j + 2)] == r[p];
    } else if p > 1 {
      assert r[1..j + 1][p - 2] == r[p - 1];
    }
  }

  lemma TurnedAt(s: seq<Cell>, k: nat, p: nat)
    requires k <= |s| && p < |s|
    ensures var n := |s|;
      Turned(s, k)[p] == if 0 < k < n && p == 1 then s[k - 1]
                         else if 0 < k < n && 1 < p <= n - k then s[n - p]
                         else s[n - 1 - p]
  {
  }

  lemma SuccessorCached(r: seq<Cell>, j: nat)
    requires j < |r|
    ensures WithSuccessorCached(r, j) == if j + 1 < |r| then CacheNext(r, j) else r
  {
    hide CacheNext;
  }

  lemma ReversedAt(s: seq<Cell>, i: int)
    requires 0 <= i < |s|
    ensures |Reversed(s)| == |s| && Reversed(s)[i] == s[|s| - 1 - i]
  {
  }

  lemma TurnedPoint(s: seq<Cell>, k: nat, p: nat)
    requires |s| >= 2 && k <= |s| && p < |s|
    ensures |Reversed(s)| == |s|
    ensures Turned(s, k)[p]
         == (if k == |s| then Reversed(s) else WithSuccessorCached(Reversed(s), |s| - 1 - k))[p]
  {
    hide *;
    var n := |s|;
    TurnedAt(s, k, p);
    ReversedAt(s, p);
    if k < n {
      SuccessorCached(Reversed(s), n - 1 - k);
    }
    if 0 < k < n {
      MovedAt(Reversed(s), n - 1 - k, p);
      if p == 1 {
        ReversedAt(s, n - k);
      } else if 1 < p <= n - k {
        ReversedAt(s, p - 1);
      }
    }
  }

  lemma TurnedIs(s: seq<Cell>, k: nat)
    requires |s| >= 2 && k <= |s|
    ensures var r := Reversed(s);
      Turned(s, k) == if k == |s| then r else WithSuccessorCached(r, |s| - 1 - k)
  {
    hide *;
    forall p | 0 <= p < |s|
      ensures Turned(s, k)[p]
           == (if k == |s| then Reversed(s) else WithSuccessorCached(Reversed(s), |s| - 1 - k))[p]
    {
      TurnedPoint(s, k, p);
    }
  }

  lemma IdxNext(first: Int16, i: nat)
    ensures NextIdx(IdxIn(first, i)) == IdxIn(first, i + 1) && IdxIn(first, 0) == first
  {
  }

  lemma BonusBits(x: bv16)
    ensures HitBonus(x) == One(x & 0x201 == 0x201) && MissBonus(x) == One(x & 0x100 != 0)
  {
  }

  lemma PlusIsSum(a: bv16, b: bv16)
    ensures Plus(a, b) == Sum(a, b)
  {
  }

  lemma PlusOne(f: bv16)
    ensures Plus(f, 1) == Sum(f, One(true)) && f == Sum(f, One(false))
  {
  }

  /** The state of the search loop before turn `n`. */
  lemma {:induction false} SearchesTally(s: seq<Cell>, items: map<ListData, Item>, first: Int16, n: nat)
    requires |s| >= 2
    ensures Searches(Probe(s, first, 0, 0, 0), items, n)
         == Probe(ListIn(s, items, first, n), IdxIn(first, n), Bits(s, items, first, n),
                  Hits(s, items, first, n), Misses(s, items, first, n))
  {
    hide Search, Place, Turned, Wanted, IdxIn, Sum;
    if n == 0 {
      IdxNext(first, 0);
    } else {
      SearchesTally(s, items, first, n - 1);
      SearchTally(s, items, first, n - 1);
    }
  }

  /** One turn of the counters. */
  lemma CountersNext(s: seq<Cell>, items: map<ListData, Item>, first: Int16, i: nat)
    requires |s| >= 2
    ensures var t := ListIn(s, items, first, i); var k := Place(t, items, IdxIn(first, i), i);
      && ListIn(s, items, first, i + 1) == Turned(t, k)
      && Hits(s, items, first, i + 1)
         == (if k < |t| then Plus(Hits(s, items, first, i), 1) else Hits(s, items, first, i))
      && Misses(s, items, first, i + 1)
         == (if k < |t| then Misses(s, items, first, i) else Plus(Misses(s, items, first, i), 1))
      && Bits(s, items, first, i + 1)
         == Plus(Bits(s, items, first, i),
                 if k < |t| then HitBonus(Get(items, t[k].info).data16)
                 else MissBonus(Get(items, t[|t| - 2].info).data16))
  {
    hide Place, Turned, Wanted, IdxIn, Sum, Plus, One, HitBonus, MissBonus, Get;
    var t := ListIn(s, items, first, i);
    var k := Place(t, items, IdxIn(first, i), i);
    PlusOne(Hits(s, items, first, i));
    PlusOne(Misses(s, items, first, i));
    var x := Get(items, t[if k < |t| then k else |t| - 2].info).data16;
    BonusBits(x);
    PlusIsSum(Bits(s, items, first, i), if k < |t| then HitBonus(x) else MissBonus(x));
  }

  /** One turn. */
  lemma SearchTally(s: seq<Cell>, items: map<ListData, Item>, first: Int16, i: nat)
    requires |s| >= 2
    ensures var t := ListIn(s, items, first, i);
      Search(Probe(t, IdxIn(first, i), Bits(s, items, first, i), Hits(s, items, first, i), Misses(s, items, first, i)),
             items, i)
      == Probe(ListIn(s, items, first, i + 1), IdxIn(first, i + 1), Bits(s, items, first, i + 1),
               Hits(s, items, first, i + 1), Misses(s, items, first, i + 1))
  {
    hide *;
    var t := ListIn(s, items, first, i);
    var k := Place(t, items, IdxIn(first, i), i);
    FoundPlace(t, items, IdxIn(first, i), i);
    TurnedIs(t, k);
    IdxNext(first, i);
    CountersNext(s, items, first, i);
    var x := Probe(t, IdxIn(first, i), Bits(s, items, first, i), Hits(s, items, first, i), Misses(s, items, first, i));
    SearchFields(x, items, i, |t| - 1 - k);
  }

  // ---- the value of the benchmark ----

  /** Four a hit, less one a miss, and the bits. */
  ghost function TallyAfter(s: seq<Cell>, items: map<ListData, Item>, first: Int16, n: nat): bv16
    requires |s| >= 2
  {
    4 * Hits(s, items, first, n) - Misses(s, items, first, n) + Bits(s, items, first, n)
  }

  /** `n` times the two bytes of an item's data, the low one first. */
  function Fed(x: bv16, n: nat): (m: seq<Crc.Byte>)
    ensures |m| == 2 * n
  {
    if n == 0 then [] else Fed(x, n - 1) + [(x & 0xff) as bv8, (x >> 8) as bv8]
  }

  /** From where on a list of `n` + 1 cells is walked while its second item is out of it:
      the place of the cell wanted after the last turn, or the second one. */
  ghost function WalkFrom(mid: seq<Cell>, items: map<ListData, Item>, first: Int16, n: nat): (p: nat)
    requires |mid| >= 3
    ensures p <= |mid| - 1
  {
    var t := [mid[0]] + mid[2..];
    var p := Place(t, items, IdxIn(first, n), if n == 0 then 0 else n - 1);
    if p == |t| then 1 else p
  }

  lemma TallyIs(r: bv16, f: bv16, m: bv16)
    ensures Tally(r, f, m) == 4 * f - m + r
  {
  }

  lemma {:induction false} RepeatFeeds(x: bv16, n: nat, crc: bv16)
    ensures CrcRepeat(x, n, crc) == Crc.OfMessage(crc, Fed(x, n))
  {
    hide Crc.OfMessage, Crc.U16;
    Crc.OfMessageEmpty(crc);
    if n > 0 {
      RepeatFeeds(x, n - 1, crc);
      Crc.OfMessageAppend(crc, Fed(x, n - 1), [(x & 0xff) as bv8, (x >> 8) as bv8]);
      FedOnce(x, CrcRepeat(x, n - 1, crc));
    }
  }

  lemma FedOnce(x: bv16, crc: bv16)
    ensures Crc.U16(x, crc) == Crc.OfMessage(crc, [(x & 0xff) as bv8, (x >> 8) as bv8])
  {
    Crc.TwoBytes(Crc.Low(x), Crc.High(x), crc);
  }

  lemma {:induction false} SameInfosSamePlace(s: seq<Cell>, t: seq<Cell>, items: map<ListData, Item>,
                                              idx: Int16, turn: nat)
    requires |s| == |t| && forall i :: 0 <= i < |s| ==> s[i].info == t[i].info
    ensures Place(s, items, idx, turn) == Place(t, items, idx, turn)
  {
    hide Wanted;
    if s != [] {
      SameInfosSamePlace(s[1..], t[1..], items, idx, turn);
    }
  }

  lemma WalkStart(mid: seq<Cell>, items: map<ListData, Item>, first: Int16, n: nat)
    requires |mid| >= 3
    ensures CrcStart(Removed(mid, 1), items, IdxIn(first, n), if n == 0 then 0 else LowByteOf(n - 1))
         == WalkFrom(mid, items, first, n)
    ensures Removed(mid, 1)[0].info == mid[0].info && |Removed(mid, 1)| == |mid| - 1
  {
    assert LowByteOf(0) == 0;
    hide Place, FindFrom, IdxIn, LowByteOf;
    var turn := if n == 0 then 0 else n - 1;
    var r, t := Removed(mid, 1), [mid[0]] + mid[2..];
    FoundPlace(r, items, IdxIn(first, n), turn);
    SameInfosSamePlace(r, t, items, IdxIn(first, n), turn);
  }

  lemma FirstHalfParts(s: seq<Cell>, st: Store, bench: Bench, seed3: Int16, first: Int16, n: nat)
    requires |s| >= 3 && n == if seed3 > 0 then seed3 as nat else 0
    ensures var x := Searches(Probe(s, first, 0, 0, 0), st.items, n);
      var r := SortByData(x.list, st, bench, first);
      FirstHalf(s, st, bench, seed3, first)
      == Middle(r.0, r.1, x.idx, if n == 0 then 0 else LowByteOf(n - 1), Tally(x.retval, x.found, x.missed))
  {
    hide Searches, SortByData, Tally, LowByteOf;
  }

  lemma FirstHalfIs(s: seq<Cell>, st: Store, bench: Bench, seed3: Int16, first: Int16, n: nat)
    requires |s| >= 3 && n == if seed3 > 0 then seed3 as nat else 0
    ensures var r := SortByData(ListIn(s, st.items, first, n), st, bench, first);
      FirstHalf(s, st, bench, seed3, first)
      == Middle(r.0, r.1, IdxIn(first, n), if n == 0 then 0 else LowByteOf(n - 1), TallyAfter(s, st.items, first, n))
  {
    TallyAfterIs(s, st.items, first, n);
    hide *;
    FirstHalfParts(s, st, bench, seed3, first, n);
    SearchesTally(s, st.items, first, n);
  }

  lemma TallyAfterIs(s: seq<Cell>, items: map<ListData, Item>, first: Int16, n: nat)
    requires |s| >= 2
    ensures TallyAfter(s, items, first, n)
         == Tally(Bits(s, items, first, n), Hits(s, items, first, n), Misses(s, items, first, n))
  {
    hide Bits, Hits, Misses;
    TallyIs(Bits(s, items, first, n), Hits(s, items, first, n), Misses(s, items, first, n));
  }

  lemma BenchmarkParts(s: seq<Cell>, st: Store, bench: Bench, seed3: Int16, first: Int16)
    requires |s| >= 3
    ensures var m := FirstHalf(s, st, bench, seed3, first); var o := Benchmark(s, st, bench, seed3, first);
      var r := Removed(m.sorted, 1);
      var x, y := Get(m.store.items, r[0].info).data16, Get(o.store.items, o.list[0].info).data16;
      o.retval == CrcRepeat(y, |o.list| - 1,
                            CrcRepeat(x, |r| - CrcStart(r, m.store.items, m.idx, m.data16), m.tally))
  {
    hide FirstHalf, CrcRepeat, SortByIndex, CrcStart, Removed, Get;
  }

  /** What `core_bench_list` returns: the tally of the searches, then the crc fed with the
      data of the first cell of the searched (and, going forward, sorted) list, once for
      every cell from the wanted one on, and with the data of the first cell of the final
      list, once for every other cell. */
  lemma BenchValue(s: seq<Cell>, st: Store, bench: Bench, seed3: Int16, first: Int16)
    requires |s| >= 3
    ensures var n := if seed3 > 0 then seed3 as nat else 0;
      var (mid, st1) := SortByData(ListIn(s, st.items, first, n), st, bench, first);
      var o := Benchmark(s, st, bench, seed3, first);
      && |mid| == |s| == |o.list|
      && o.retval == Crc.OfMessage(TallyAfter(s, st.items, first, n),
                       Fed(Get(st1.items, mid[0].info).data16, |s| - 1 - WalkFrom(mid, st1.items, first, n))
                       + Fed(Get(o.store.items, o.list[0].info).data16, |s| - 1))
  {
    hide *;
    var n := if seed3 > 0 then seed3 as nat else 0;
    FirstHalfIs(s, st, bench, seed3, first, n);
    BenchmarkParts(s, st, bench, seed3, first);
    var m := FirstHalf(s, st, bench, seed3, first);
    WalkStart(m.sorted, m.store.items, first, n);
    var o := Benchmark(s, st, bench, seed3, first);
    var x, y := Get(m.store.items, m.sorted[0].info).data16, Get(o.store.items, o.list[0].info).data16;
    var a := |s| - 1 - WalkFrom(m.sorted, m.store.items, first, n);
    RepeatFeeds(x, a, m.tally);
    RepeatFeeds(y, |s| - 1, CrcRepeat(x, a, m.tally));
    Crc.OfMessageAppend(m.tally, Fed(x, a), Fed(y, |s| - 1));
  }

  /** Going backward nothing is sorted by data, and no kernel runs: the value is a function
      of the indices and the data alone.  The second crc is fed two equal bytes, the high
      byte of the item with the smallest index. */
  lemma BackwardValue(s: seq<Cell>, st: Store, bench: Bench, seed3: Int16, first: Int16)
    requires |s| >= 3 && st.items.Keys == Infos(s) && first <= 0
    ensures var n := if seed3 > 0 then seed3 as nat else 0;
      var mid := ListIn(s, st.items, first, n);
      var o := Benchmark(s, st, bench, seed3, first);
      var y := Get(o.store.items, o.list[0].info).data16;
      && o.retval == Crc.OfMessage(TallyAfter(s, st.items, first, n),
                       Fed(Get(st.items, mid[0].info).data16, |s| - 1 - WalkFrom(mid, st.items, first, n))
                       + Fed(y, |s| - 1))
      && y & 0xff == y >> 8 == Get(st.items, o.list[0].info).data16 >> 8
      && forall c <- s :: Get(st.items, o.list[0].info).idx <= Get(st.items, c.info).idx
  {
    hide *;
    BenchValue(s, st, bench, seed3, first);
    BenchOutcome(s, st, bench, seed3, first);
    var o := Benchmark(s, st, bench, seed3, first);
    SmallestFirst(s, o.list, st.items);
    NothingSorted(ListIn(s, st.items, first, if seed3 > 0 then seed3 as nat else 0), st, bench, first);
    BytesRebuilt(st.items, o.list[0].info);
  }

  lemma BytesRebuilt(items: map<ListData, Item>, d: ListData)
    requires d in items
    ensures var y := Get(AllRebuilt(items), d).data16; y & 0xff == y >> 8 == Get(items, d).data16 >> 8
  {
    hide Rebuilt;
    RebuiltFacts(items[d].data16);
  }

  lemma NothingSorted(s: seq<Cell>, st: Store, bench: Bench, first: Int16)
    requires first <= 0
    ensures SortByData(s, st, bench, first) == (s, st)
  {
    hide SortList;
  }

  lemma SmallestFirst(s: seq<Cell>, t: seq<Cell>, items: map<ListData, Item>)
    requires |s| >= 3 && multiset(t) == multiset(s) && Sorted(ByIndex(items), t)
    ensures t != [] && t[0].info in Infos(s)
    ensures forall c <- s :: Get(items, t[0].info).idx <= Get(items, c.info).idx
  {
    SameCells(t, s);
    assert t[0] in t;
    forall c | c in s ensures Get(items, t[0].info).idx <= Get(items, c.info).idx {
      MembersShared(t, s, c);
      var i :| 0 <= i < |t| && t[i] == c;
      assert i > 0 ==> ByIndex(items)(t[0], t[i]);
    }
  }

  // ---- the value of an iteration ----

  /** One iteration feeds the values of a forward and of a backward pass into the crc that
      the forward pass leaves; the backward value is the same in every iteration.  The crc
      after the first iteration is remembered. */
  lemma IterationCrc(s: seq<Cell>, items: map<ListData, Item>, bench: Bench, seed3: Int16, runs: nat, n: nat)
    requires |s| >= 3
    ensures var t, t1 := Iterations(s, items, bench, seed3, runs, n), Iterations(s, items, bench, seed3, runs, n + 1);
      var forward := Benchmark(s, Store(items, t.regs), bench, seed3, 1);
      var backward := Benchmark(s, Store(items, Regs(0, 0, 0, 0)), bench, seed3, -1).retval;
      && t1.regs == forward.store.regs.(
           crc := Crc.OfMessage(forward.store.regs.crc, Fed(forward.retval, 1) + Fed(backward, 1)))
      && t1.crclist == if n == 0 then t1.regs.crc else t.crclist
  {
    hide *;
    IterationsStep(s, items, bench, seed3, runs, n);
    var t := Iterations(s, items, bench, seed3, runs, n);
    var f := Benchmark(s, Store(items, t.regs), bench, seed3, 1);
    var r1 := Fold(f);
    var b := Benchmark(s, Store(items, r1), bench, seed3, -1);
    BackwardPassRepeatable(s, items, r1, Regs(0, 0, 0, 0), bench, seed3, -1);
    FoldFeeds(f);
    FoldFeeds(b);
    Crc.OfMessageAppend(f.store.regs.crc, Fed(f.retval, 1), Fed(b.retval, 1));
  }

  lemma FoldFeeds(o: Outcome)
    ensures Fold(o) == o.store.regs.(crc := Crc.OfMessage(o.store.regs.crc, Fed(o.retval, 1)))
  {
    hide Crc.OfMessage, Crc.U16;
    FedOnce(o.retval, o.store.regs.crc);
    FedSingle(o.retval);
  }

  lemma FedSingle(x: bv16)
    ensures Fed(x, 1) == [(x & 0xff) as bv8, (x >> 8) as bv8]
  {
    assert Fed(x, 0) == [];
  }

  // ---- one evaluation, and the forward sort ----

  lemma CachedBits(x: bv16, v: bv16)
    ensures WithCache(x, v) == 0x100 * (x / 0x100) + 0x80 + v % 0x80 && v & 0x7f == v % 0x80
  {
  }

  /** Evaluating an item without the flag: the last seven bits of what the operation gives
      are returned and stored under the flag, and all of it is fed into the crc. */
  lemma CalcValue(bench: Bench, d: ListData, st: Store)
    requires d in st.items && (st.items[d].data16 / 0x80) % 2 == 0
    ensures var x := st.items[d].data16;
      var (op, r) := Operate(bench, x, st.regs);
      Calc(bench, d, st)
      == (op % 0x80, Store(st.items[d := Item(st.items[d].idx, 0x100 * (x / 0x100) + 0x80 + op % 0x80)],
                           r.(crc := Crc.OfMessage(r.crc, Fed(op, 1)))))
  {
    hide *;
    var x := st.items[d].data16;
    var (op, r) := Operate(bench, x, st.regs);
    SettledBits(x);
    CalcParts(bench, d, st);
    CachedBits(x, op);
    FedOnce(op, r.crc);
    FedSingle(op);
  }

  lemma CalcParts(bench: Bench, d: ListData, st: Store)
    requires d in st.items && !Cached(st.items[d].data16)
    ensures var x := st.items[d].data16;
      var (op, r) := Operate(bench, x, st.regs);
      Calc(bench, d, st)
      == (op & 0x7f, Store(st.items[d := Item(st.items[d].idx, WithCache(x, op))], r.(crc := Crc.U16(op, r.crc))))
  {
    hide Cached, WithCache, Operate, Crc.U16;
  }

  lemma SettledBits(x: bv16)
    ensures Cached(x) <==> (x / 0x80) % 2 == 1
    ensures CachedValue(x) == x % 0x80 && HighByte(x) == x / 0x100
  {
  }

  /** The list between the two crcs of a forward pass: the same cells in ascending order of
      their values, which every item then holds under its flag; indices and high bytes are
      those of before. */
  lemma ForwardMiddle(s: seq<Cell>, st: Store, bench: Bench, first: Int16)
    requires |s| >= 2 && first > 0 && InStore(s, st)
    ensures var (r, st1) := SortByData(s, st, bench, first);
      && multiset(r) == multiset(s)
      && (forall i, j :: 0 <= i < j < |r| ==>
            (Get(st1.items, r[i].info).data16 % 0x80) as int <= (Get(st1.items, r[j].info).data16 % 0x80) as int)
      && forall c <- s :: var x, y := Get(st.items, c.info), Get(st1.items, c.info);
           (y.data16 / 0x80) % 2 == 1 && y.data16 / 0x100 == x.data16 / 0x100 && y.idx == x.idx
  {
    var cmp := CmpComplex(bench);
    OwnComparisonsOrdered(cmp);
    ImpureSortCorrect(cmp, s, st);
    var (r, st1) := SortList(cmp, 1, s, st);
    hide SortList, Stable, Cached, CachedValue, HighByte;
    forall i, j | 0 <= i < j < |r|
      ensures (Get(st1.items, r[i].info).data16 % 0x80) as int <= (Get(st1.items, r[j].info).data16 % 0x80) as int
    {
      assert InOrder(cmp, st1.items)(r[i], r[j]);
      SettledBits(Get(st1.items, r[i].info).data16);
      SettledBits(Get(st1.items, r[j].info).data16);
    }
    forall c | c in s
      ensures var x, y := Get(st.items, c.info), Get(st1.items, c.info);
        (y.data16 / 0x80) % 2 == 1 && y.data16 / 0x100 == x.data16 / 0x100 && y.idx == x.idx
    {
      MembersShared(r, s, c);
      var i :| 0 <= i < |r| && r[i] == c;
      var j :| 0 <= j < |s| && s[j] == c;
      SettledBits(Get(st.items, c.info).data16);
      SettledBits(Get(st1.items, c.info).data16);
    }
  }
}

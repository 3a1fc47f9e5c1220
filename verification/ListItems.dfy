/** The data items of the CoreMark list, the two comparison functions handed to the
    sort, and the sort itself as a computation on values.  Comparing two items changes
    them (and the running crc), so the sort threads a `Store` through every comparison. */
module ListItems {
  import Crc
  import opened StableSort

  type Int16 = x: int | -0x8000 <= x < 0x8000

  /** Conversion of an `int` result back to `ee_s16`. */
  function Wrap16(x: int): (w: Int16)
    ensures (w - x) % 0x10000 == 0
  {
    (x + 0x8000) % 0x10000 - 0x8000
  }

  class ListData {
    var data16: bv16
    var idx: Int16

    constructor (data16: bv16, idx: Int16)
      ensures this.data16 == data16 && this.idx == idx
    {
      this.data16 := data16;
      this.idx := idx;
    }
  }

  class ListHead {
    var next: ListHead?
    var info: ListData

    constructor (next: ListHead?, info: ListData)
      ensures this.next == next && this.info == info
    {
      this.next := next;
      this.info := info;
    }
  }

  /** The benchmark kernels that a data item may ask for. */
  datatype Kernel = State | Matrix

  /** What a kernel returns for its data argument and crc on its n-th run: any value. */
  type Bench = (Kernel, bv16, bv16, nat) -> bv16

  class CoreResults {
    const bench: Bench
    var seed3: Int16
    var iterations: nat
    var list: ListHead
    var crc: bv16
    var crclist: bv16
    var crcstate: bv16
    var crcmatrix: bv16
    var runs: nat  // how often a kernel has run

    constructor (bench: Bench, seed3: Int16, iterations: nat, list: ListHead)
      ensures this.bench == bench && this.seed3 == seed3 && this.iterations == iterations && this.list == list
    {
      this.bench, this.seed3, this.iterations, this.list := bench, seed3, iterations, list;
      crc, crclist, crcstate, crcmatrix, runs := 0, 0, 0, 0, 0;
    }

    ghost function View(): Regs
      reads this
    {
      Regs(crc, crcstate, crcmatrix, runs)
    }
  }

  // ---- values ----

  datatype Item = Item(idx: Int16, data16: bv16)
  datatype Regs = Regs(crc: bv16, crcstate: bv16, crcmatrix: bv16, runs: nat)
  datatype Store = Store(items: map<ListData, Item>, regs: Regs)

  /** A list cell: the node and the item it points to. */
  datatype Cell = Cell(node: ListHead, info: ListData)

  /** The two functions passed to the sort -- `cmp_idx` rebuilds items iff `res` is NULL --
      and any other that only looks at the items. */
  datatype Comparator = CmpComplex(bench: Bench) | CmpIdx(refresh: bool) | Looking(order: (Item, Item) -> int)

  ghost const NO_ITEM := Item(0, 0)

  ghost function Get(items: map<ListData, Item>, d: ListData): Item {
    if d in items then items[d] else NO_ITEM
  }

  ghost function Put(st: Store, d: ListData, data16: bv16): Store {
    if d in st.items then st.(items := st.items[d := st.items[d].(data16 := data16)]) else st
  }

  // ---- the 16 data bits ----

  predicate Cached(x: bv16) { (x >> 7) & 1 == 1 }

  function CachedValue(x: bv16): bv16 { x & 0x7f }

  function HighByte(x: bv16): bv16 { x >> 8 }

  /** Both bytes equal: the working byte is the one kept as backup. */
  predicate SameBytes(x: bv16) { x & 0xff == x >> 8 }

  function WithCache(x: bv16, retval: bv16): bv16 { (x & 0xff00) | 0x80 | (retval & 0x7f) }

  function Rebuilt(x: bv16): bv16 { (x & 0xff00) | (0xff & (x >> 8)) }

  lemma WithCacheFacts(x: bv16, retval: bv16)
    ensures Cached(WithCache(x, retval))
    ensures CachedValue(WithCache(x, retval)) == retval & 0x7f
    ensures HighByte(WithCache(x, retval)) == HighByte(x)
  {
  }

  lemma RebuiltFacts(x: bv16)
    ensures HighByte(Rebuilt(x)) == HighByte(x)
    ensures SameBytes(Rebuilt(x))
    ensures SameBytes(x) <==> Rebuilt(x) == x
  {
  }

  /** With equal bytes the high byte determines the item. */
  lemma BackupDetermines(x: bv16, y: bv16)
    requires HighByte(x) == HighByte(y) && SameBytes(x)
    ensures Rebuilt(y) == x
  {
  }

  // ---- calc_func ----

  /** The data argument of a kernel: four bits, replicated to a byte. */
  function DataArg(x: bv16): bv16 {
    var t := (x >> 3) & 0xf;
    t | (t << 4)
  }

  /** `calc_func` on an item that has no cached value: result of the operation and the
      registers it leaves. */
  ghost function Operate(bench: Bench, x: bv16, r: Regs): (bv16, Regs) {
    if x & 7 == 0 then
      var dtype := if DataArg(x) < 0x22 then 0x22 else DataArg(x);
      var v := bench(State, dtype, r.crc, r.runs);
      (v, r.(runs := r.runs + 1, crcstate := if r.crcstate == 0 then v else r.crcstate))
    else if x & 7 == 1 then
      var v := bench(Matrix, DataArg(x), r.crc, r.runs);
      (v, r.(runs := r.runs + 1, crcmatrix := if r.crcmatrix == 0 then v else r.crcmatrix))
    else
      (x, r)
  }

  /** The argument is the number in bits 3 to 6, as both digits of a byte. */
  lemma ArgumentDigits(x: bv16)
    ensures DataArg(x) == 0x11 * ((x / 8) % 16)
  {
  }

  lemma MinimumPeriod(n: bv16)
    requires n < 16
    ensures (if 0x11 * n < 0x22 then 0x22 else 0x11 * n) == 0x11 * (if n < 2 then 2 else n)
  {
  }

  /** Operation 0 runs the state kernel with a period of at least 0x22, operation 1 the
      matrix kernel, and all others return the data; the first result of a kernel other than
      zero is kept, and nothing else changes but the number of runs. */
  lemma OperationMeans(bench: Bench, x: bv16, r: Regs)
    ensures var n := (x / 8) % 16; var (v, r1) := Operate(bench, x, r);
      && (x % 8 == 0 ==>
            && v == bench(State, 0x11 * (if n < 2 then 2 else n), r.crc, r.runs)
            && r1 == Regs(r.crc, if r.crcstate != 0 then r.crcstate else v, r.crcmatrix, r.runs + 1))
      && (x % 8 == 1 ==>
            && v == bench(Matrix, 0x11 * n, r.crc, r.runs)
            && r1 == Regs(r.crc, r.crcstate, if r.crcmatrix != 0 then r.crcmatrix else v, r.runs + 1))
      && (x % 8 > 1 ==> v == x && r1 == r)
  {
    ArgumentDigits(x);
    ArgumentSmall(x);
    MinimumPeriod((x / 8) % 16);
    LowBitsAre(x);
    hide DataArg;
  }

  lemma ArgumentSmall(x: bv16)
    ensures (x / 8) % 16 < 16
  {
  }

  lemma LowBitsAre(x: bv16)
    ensures x & 7 == x % 8
  {
  }

  ghost function Calc(bench: Bench, d: ListData, st: Store): (bv16, Store) {
    var x := Get(st.items, d).data16;
    if Cached(x) then (CachedValue(x), st)
    else
      var (v, r) := Operate(bench, x, st.regs);
      (v & 0x7f, Put(st.(regs := r.(crc := Crc.U16(v, r.crc))), d, WithCache(x, v)))
  }

  /** The switch of `calc_func`. */
  method RunOperation(data: bv16, res: CoreResults) returns (retval: bv16)
    modifies res`crcstate, res`crcmatrix, res`runs
    ensures (retval, res.View()) == Operate(res.bench, data, old(res.View()))
  {
    hide DataArg;
    var flag := data & 7;
    var dtype := DataArg(data);
    if flag == 0 {
      if dtype < 0x22 {
        dtype := 0x22;
      }
      retval := res.bench(State, dtype, res.crc, res.runs);
      res.runs := res.runs + 1;
      if res.crcstate == 0 {
        res.crcstate := retval;
      }
    } else if flag == 1 {
      retval := res.bench(Matrix, dtype, res.crc, res.runs);
      res.runs := res.runs + 1;
      if res.crcmatrix == 0 {
        res.crcmatrix := retval;
      }
    } else {
      retval := data;
    }
  }

  method CalcFunc(d: ListData, res: CoreResults, ghost items: map<ListData, Item>) returns (retval: bv16)
    requires d in items && Holds(d, items[d])
    modifies d`data16, res`crc, res`crcstate, res`crcmatrix, res`runs
    ensures var (v, st) := Calc(res.bench, d, Store(items, old(res.View())));
      retval == v && res.View() == st.regs && Holds(d, Get(st.items, d))
  {
    hide Cached, CachedValue, WithCache, Crc.U16, Operate;
    var data := d.data16;
    if Cached(data) {
      return CachedValue(data);
    }
    retval := RunOperation(data, res);
    res.crc := Crc.CrcU16(retval, res.crc);
    d.data16 := WithCache(data, retval);
    retval := retval & 0x7f;
  }

  ghost predicate Holds(d: ListData, it: Item)
    reads d
  {
    it == Item(d.idx, d.data16)
  }

  // ---- the comparison functions ----

  ghost function Compare(cmp: Comparator, a: ListData, b: ListData, st: Store): (int, Store) {
    match cmp
    case CmpComplex(bench) =>
      var (val1, st1) := Calc(bench, a, st);
      var (val2, st2) := Calc(bench, b, st1);
      (val1 as int - val2 as int, st2)
    case CmpIdx(refresh) =>
      var st1 := if refresh then Put(st, a, Rebuilt(Get(st.items, a).data16)) else st;
      var st2 := if refresh then Put(st1, b, Rebuilt(Get(st1.items, b).data16)) else st1;
      (Get(st.items, a).idx - Get(st.items, b).idx, st2)
    case Looking(order) => (order(Get(st.items, a), Get(st.items, b)), st)
  }

  /** An item whose sort key can no longer change. */
  ghost predicate Settled(cmp: Comparator, it: Item) {
    match cmp
    case CmpComplex(_) => Cached(it.data16)
    case CmpIdx(refresh) => refresh ==> SameBytes(it.data16)
    case Looking(_) => true
  }

  /** The order of settled items: by cached value, by index, or as the comparison says. */
  ghost predicate NotAfter(cmp: Comparator, x: Item, y: Item) {
    match cmp
    case CmpComplex(_) => CachedValue(x.data16) as int <= CachedValue(y.data16) as int
    case CmpIdx(_) => x.idx <= y.idx
    case Looking(order) => order(x, y) <= 0
  }

  /** What a sort asks of its comparison: a total preorder. */
  ghost predicate Ordered(cmp: Comparator) {
    && (forall x, y :: NotAfter(cmp, x, y) || NotAfter(cmp, y, x))
    && (forall x, y, z :: NotAfter(cmp, x, y) && NotAfter(cmp, y, z) ==> NotAfter(cmp, x, z))
  }

  /** The two comparisons of the file are. */
  lemma OwnComparisonsOrdered(cmp: Comparator)
    requires !cmp.Looking?
    ensures Ordered(cmp)
  {
  }

  /** `st1` may come after `st`: no item changes its index or its backup byte, and
      settled items do not change at all. */
  ghost predicate Follows(cmp: Comparator, st: Store, st1: Store) {
    && st.items.Keys == st1.items.Keys
    && (forall d <- st.items ::
      && st1.items[d].idx == st.items[d].idx
      && HighByte(st1.items[d].data16) == HighByte(st.items[d].data16)
      && (Settled(cmp, st.items[d]) ==> st1.items[d] == st.items[d]))
  }

  lemma FollowsTransitive(cmp: Comparator, st: Store, st1: Store, st2: Store)
    requires Follows(cmp, st, st1) && Follows(cmp, st1, st2)
    ensures Follows(cmp, st, st2)
  {
    hide Settled, HighByte;
  }

  lemma CalcFacts(bench: Bench, d: ListData, st: Store)
    requires d in st.items
    ensures var (v, st1) := Calc(bench, d, st); var cmp := CmpComplex(bench);
      && Follows(cmp, st, st1)
      && Settled(cmp, st1.items[d])
      && CachedValue(st1.items[d].data16) == v
  {
    hide Operate, Cached, CachedValue, HighByte, WithCache, Crc.U16;
    var x := st.items[d].data16;
    if !Cached(x) {
      WithCacheFacts(x, Operate(bench, x, st.regs).0);
    }
  }

  /** A comparison settles both its items and orders them by their settled keys. */
  lemma CompareFacts(cmp: Comparator, a: ListData, b: ListData, st: Store)
    requires a in st.items && b in st.items
    ensures var (c, st1) := Compare(cmp, a, b, st);
      && Follows(cmp, st, st1)
      && Settled(cmp, st1.items[a]) && Settled(cmp, st1.items[b])
      && (c <= 0 <==> NotAfter(cmp, st1.items[a], st1.items[b]))
  {
    match cmp {
      case CmpComplex(bench) =>
        hide Calc, Cached, CachedValue, HighByte;
        CalcFacts(bench, a, st);
        var st1 := Calc(bench, a, st).1;
        CalcFacts(bench, b, st1);
        FollowsTransitive(cmp, st, st1, Calc(bench, b, st1).1);
      case CmpIdx(refresh) =>
        hide HighByte, SameBytes, Rebuilt;
        RebuiltFacts(st.items[a].data16);
        RebuiltFacts(st.items[b].data16);
        RebuiltFacts(Rebuilt(st.items[a].data16));
      case Looking(_) =>
    }
  }

  // ---- the sort, threading the store ----

  ghost function MergeRuns(cmp: Comparator, a: seq<Cell>, b: seq<Cell>, st: Store): (seq<Cell>, Store)
    decreases |a| + |b|
  {
    if a == [] then (b, st)
    else if b == [] then (a, st)
    else
      var (c, st1) := Compare(cmp, a[0].info, b[0].info, st);
      if c <= 0 then
        var (m, st2) := MergeRuns(cmp, a[1..], b, st1);
        ([a[0]] + m, st2)
      else
        var (m, st2) := MergeRuns(cmp, a, b[1..], st1);
        ([b[0]] + m, st2)
  }

  ghost function SortPass(cmp: Comparator, k: nat, s: seq<Cell>, st: Store): (seq<Cell>, Store)
    requires k > 0
    decreases |s|
  {
    if s == [] then ([], st)
    else
      var mid := Min(k, |s|);
      var hi := Min(2 * k, |s|);
      var (m, st1) := MergeRuns(cmp, s[..mid], s[mid..hi], st);
      var (r, st2) := SortPass(cmp, k, s[hi..], st1);
      (m + r, st2)
  }

  ghost function SortList(cmp: Comparator, k: nat, s: seq<Cell>, st: Store): (seq<Cell>, Store)
    requires k > 0
    decreases if k < |s| then |s| - k else 0
  {
    var (r, st1) := SortPass(cmp, k, s, st);
    if |s| <= 2 * k then (r, st1)
    else
      SortPassLength(cmp, k, s, st);
      SortList(cmp, 2 * k, r, st1)
  }

  lemma {:induction false} MergeRunsLength(cmp: Comparator, a: seq<Cell>, b: seq<Cell>, st: Store)
    ensures |MergeRuns(cmp, a, b, st).0| == |a| + |b|
    decreases |a| + |b|
  {
    hide Compare;
    if a != [] && b != [] {
      var (c, st1) := Compare(cmp, a[0].info, b[0].info, st);
      if c <= 0 {
        MergeRunsLength(cmp, a[1..], b, st1);
      } else {
        MergeRunsLength(cmp, a, b[1..], st1);
      }
    }
  }

  lemma {:induction false} SortPassLength(cmp: Comparator, k: nat, s: seq<Cell>, st: Store)
    requires k > 0
    ensures |SortPass(cmp, k, s, st).0| == |s|
    decreases |s|
  {
    if s != [] {
      var mid := Min(k, |s|);
      var hi := Min(2 * k, |s|);
      MergeRunsLength(cmp, s[..mid], s[mid..hi], st);
      SortPassLength(cmp, k, s[hi..], MergeRuns(cmp, s[..mid], s[mid..hi], st).1);
    }
  }

  lemma {:induction false} MergeRunsPermutes(cmp: Comparator, a: seq<Cell>, b: seq<Cell>, st: Store)
    ensures multiset(MergeRuns(cmp, a, b, st).0) == multiset(a) + multiset(b)
    decreases |a| + |b|
  {
    hide Compare;
    if a != [] && b != [] {
      var (c, st1) := Compare(cmp, a[0].info, b[0].info, st);
      if c <= 0 {
        MergeRunsPermutes(cmp, a[1..], b, st1);
        MultisetCons(a);
      } else {
        MergeRunsPermutes(cmp, a, b[1..], st1);
        MultisetCons(b);
      }
    }
  }

  /** Whatever the comparison does, a pass only rearranges the cells. */
  lemma {:induction false} SortPassPermutes(cmp: Comparator, k: nat, s: seq<Cell>, st: Store)
    requires k > 0
    ensures multiset(SortPass(cmp, k, s, st).0) == multiset(s)
    decreases |s|
  {
    hide Compare, MergeRuns;
    if s != [] {
      var mid := Min(k, |s|);
      var hi := Min(2 * k, |s|);
      MergeRunsPermutes(cmp, s[..mid], s[mid..hi], st);
      SortPassPermutes(cmp, k, s[hi..], MergeRuns(cmp, s[..mid], s[mid..hi], st).1);
      MultisetParts(s, mid, hi);
    }
  }

  // ---- the impure sort is the pure stable sort by the final keys ----

  ghost predicate InStore(s: seq<Cell>, st: Store) {
    forall i :: 0 <= i < |s| ==> s[i].info in st.items
  }

  ghost predicate AllSettled(cmp: Comparator, s: seq<Cell>, st: Store) {
    forall i :: 0 <= i < |s| ==> s[i].info in st.items && Settled(cmp, st.items[s[i].info])
  }

  /** A run is ready if the comparisons so far have settled it, or it is a single cell. */
  ghost predicate Ready(cmp: Comparator, s: seq<Cell>, st: Store) {
    |s| <= 1 || AllSettled(cmp, s, st)
  }

  ghost function InOrder(cmp: Comparator, items: map<ListData, Item>): (Cell, Cell) -> bool {
    (x: Cell, y: Cell) => NotAfter(cmp, Get(items, x.info), Get(items, y.info))
  }

  lemma AllSettledFollows(cmp: Comparator, s: seq<Cell>, st: Store, st1: Store)
    requires Follows(cmp, st, st1)
    ensures AllSettled(cmp, s, st) ==> AllSettled(cmp, s, st1)
    ensures InStore(s, st) ==> InStore(s, st1)
  {
    hide Settled, HighByte;
  }

  lemma {:induction false} MergeRunsFollows(cmp: Comparator, a: seq<Cell>, b: seq<Cell>, st: Store)
    requires InStore(a, st) && InStore(b, st)
    ensures Follows(cmp, st, MergeRuns(cmp, a, b, st).1)
    decreases |a| + |b|
  {
    hide Compare, Settled, HighByte;
    if a != [] && b != [] {
      var (c, st1) := Compare(cmp, a[0].info, b[0].info, st);
      CompareFacts(cmp, a[0].info, b[0].info, st);
      AllSettledFollows(cmp, a, st, st1);
      AllSettledFollows(cmp, b, st, st1);
      if c <= 0 {
        MergeRunsFollows(cmp, a[1..], b, st1);
        FollowsTransitive(cmp, st, st1, MergeRuns(cmp, a[1..], b, st1).1);
      } else {
        MergeRunsFollows(cmp, a, b[1..], st1);
        FollowsTransitive(cmp, st, st1, MergeRuns(cmp, a, b[1..], st1).1);
      }
    }
  }

  lemma {:induction false} MergeRunsSettled(cmp: Comparator, a: seq<Cell>, b: seq<Cell>, st: Store)
    requires AllSettled(cmp, a, st) && AllSettled(cmp, b, st)
    ensures AllSettled(cmp, MergeRuns(cmp, a, b, st).0, MergeRuns(cmp, a, b, st).1)
    decreases |a| + |b|
  {
    hide Compare, Settled, HighByte;
    if a != [] && b != [] {
      var (c, st1) := Compare(cmp, a[0].info, b[0].info, st);
      CompareFacts(cmp, a[0].info, b[0].info, st);
      AllSettledFollows(cmp, a, st, st1);
      AllSettledFollows(cmp, b, st, st1);
      if c <= 0 {
        MergeRunsSettled(cmp, a[1..], b, st1);
        MergeRunsFollows(cmp, a[1..], b, st1);
        AllSettledFollows(cmp, a[..1], st1, MergeRuns(cmp, a[1..], b, st1).1);
        AllSettledAppend(cmp, a[..1], MergeRuns(cmp, a[1..], b, st1).0, MergeRuns(cmp, a[1..], b, st1).1);
        assert a[..1] == [a[0]];
      } else {
        MergeRunsSettled(cmp, a, b[1..], st1);
        MergeRunsFollows(cmp, a, b[1..], st1);
        AllSettledFollows(cmp, b[..1], st1, MergeRuns(cmp, a, b[1..], st1).1);
        AllSettledAppend(cmp, b[..1], MergeRuns(cmp, a, b[1..], st1).0, MergeRuns(cmp, a, b[1..], st1).1);
        assert b[..1] == [b[0]];
      }
    }
  }

  lemma AllSettledAppend(cmp: Comparator, a: seq<Cell>, b: seq<Cell>, st: Store)
    requires AllSettled(cmp, a, st) && AllSettled(cmp, b, st)
    ensures AllSettled(cmp, a + b, st)
  {
    hide Settled;
  }

  /** The first comparison settles both heads, so merging two ready runs settles all. */
  lemma MergeRunsReady(cmp: Comparator, a: seq<Cell>, b: seq<Cell>, st: Store)
    requires InStore(a, st) && InStore(b, st) && Ready(cmp, a, st) && Ready(cmp, b, st)
    ensures Ready(cmp, MergeRuns(cmp, a, b, st).0, MergeRuns(cmp, a, b, st).1)
  {
    hide Compare, Settled, HighByte, Follows, NotAfter;
    if a != [] && b != [] {
      var (c, st1) := Compare(cmp, a[0].info, b[0].info, st);
      CompareFacts(cmp, a[0].info, b[0].info, st);
      AllSettledFollows(cmp, a, st, st1);
      AllSettledFollows(cmp, b, st, st1);
      assert AllSettled(cmp, a, st1) && AllSettled(cmp, b, st1);
      if c <= 0 {
        MergeRunsSettled(cmp, a[1..], b, st1);
        MergeRunsFollows(cmp, a[1..], b, st1);
        AllSettledFollows(cmp, a[..1], st1, MergeRuns(cmp, a[1..], b, st1).1);
        AllSettledAppend(cmp, a[..1], MergeRuns(cmp, a[1..], b, st1).0, MergeRuns(cmp, a[1..], b, st1).1);
        assert a[..1] == [a[0]];
      } else {
        MergeRunsSettled(cmp, a, b[1..], st1);
        MergeRunsFollows(cmp, a, b[1..], st1);
        AllSettledFollows(cmp, b[..1], st1, MergeRuns(cmp, a, b[1..], st1).1);
        AllSettledAppend(cmp, b[..1], MergeRuns(cmp, a, b[1..], st1).0, MergeRuns(cmp, a, b[1..], st1).1);
        assert b[..1] == [b[0]];
      }
    }
  }

  lemma {:induction false} MergeRunsIsMerge(cmp: Comparator, a: seq<Cell>, b: seq<Cell>, st: Store, last: Store)
    requires InStore(a, st) && InStore(b, st)
    requires Follows(cmp, MergeRuns(cmp, a, b, st).1, last)
    ensures MergeRuns(cmp, a, b, st).0 == Merge(InOrder(cmp, last.items), a, b)
    decreases |a| + |b|
  {
    hide Compare, Settled, HighByte, NotAfter;
    if a != [] && b != [] {
      var x, y := a[0].info, b[0].info;
      var (c, st1) := Compare(cmp, x, y, st);
      CompareFacts(cmp, x, y, st);
      AllSettledFollows(cmp, a, st, st1);
      AllSettledFollows(cmp, b, st, st1);
      if c <= 0 {
        MergeRunsFollows(cmp, a[1..], b, st1);
        MergeRunsIsMerge(cmp, a[1..], b, st1, last);
        FollowsTransitive(cmp, st1, MergeRuns(cmp, a[1..], b, st1).1, last);
      } else {
        MergeRunsFollows(cmp, a, b[1..], st1);
        MergeRunsIsMerge(cmp, a, b[1..], st1, last);
        FollowsTransitive(cmp, st1, MergeRuns(cmp, a, b[1..], st1).1, last);
      }
      assert Get(last.items, x) == st1.items[x] && Get(last.items, y) == st1.items[y];
      assert InOrder(cmp, last.items)(a[0], b[0]) == (c <= 0);
    }
  }

  /** Aligned blocks of length `k` are ready. */
  ghost predicate BlocksReady(cmp: Comparator, k: nat, s: seq<Cell>, st: Store)
    requires k > 0
    decreases |s|
  {
    s == [] || (Ready(cmp, s[..Min(k, |s|)], st) && BlocksReady(cmp, k, s[Min(k, |s|)..], st))
  }

  lemma {:induction false} BlocksReadyFollows(cmp: Comparator, k: nat, s: seq<Cell>, st: Store, st1: Store)
    requires k > 0 && BlocksReady(cmp, k, s, st) && Follows(cmp, st, st1)
    ensures BlocksReady(cmp, k, s, st1)
    decreases |s|
  {
    if s != [] {
      AllSettledFollows(cmp, s[..Min(k, |s|)], st, st1);
      BlocksReadyFollows(cmp, k, s[Min(k, |s|)..], st, st1);
    }
  }

  lemma {:induction false} SingletonsReady(cmp: Comparator, s: seq<Cell>, st: Store)
    ensures BlocksReady(cmp, 1, s, st)
    decreases |s|
  {
    if s != [] {
      SingletonsReady(cmp, s[1..], st);
    }
  }

  lemma BlocksReadySplit(cmp: Comparator, k: nat, s: seq<Cell>, st: Store)
    requires k > 0 && s != [] && BlocksReady(cmp, k, s, st)
    ensures Ready(cmp, s[..Min(k, |s|)], st)
    ensures Ready(cmp, s[Min(k, |s|)..Min(2 * k, |s|)], st)
    ensures BlocksReady(cmp, k, s[Min(2 * k, |s|)..], st)
  {
    var mid := Min(k, |s|);
    var hi := Min(2 * k, |s|);
    var rest := s[mid..];
    assert rest != [] ==> rest[..Min(k, |rest|)] == s[mid..hi] && rest[Min(k, |rest|)..] == s[hi..];
    assert rest == [] ==> s[mid..hi] == [] && s[hi..] == [];
  }

  lemma BlockJoins(cmp: Comparator, k: nat, m: seq<Cell>, r: seq<Cell>, st: Store)
    requires k > 0 && Ready(cmp, m, st) && BlocksReady(cmp, k, r, st)
    requires |m| == Min(k, |m| + |r|)
    ensures BlocksReady(cmp, k, m + r, st)
  {
    assert (m + r)[..|m|] == m && (m + r)[|m|..] == r;
  }

  lemma InStoreParts(s: seq<Cell>, st: Store, mid: nat, hi: nat)
    requires InStore(s, st) && mid <= hi <= |s|
    ensures InStore(s[..mid], st) && InStore(s[mid..hi], st) && InStore(s[hi..], st)
  {
  }

  lemma ReadyFollows(cmp: Comparator, s: seq<Cell>, st: Store, st1: Store)
    requires Ready(cmp, s, st) && Follows(cmp, st, st1)
    ensures Ready(cmp, s, st1)
  {
    AllSettledFollows(cmp, s, st, st1);
  }

  lemma {:induction false} SortPassFacts(cmp: Comparator, k: nat, s: seq<Cell>, st: Store)
    requires k > 0 && InStore(s, st) && BlocksReady(cmp, k, s, st)
    ensures Follows(cmp, st, SortPass(cmp, k, s, st).1)
    ensures BlocksReady(cmp, 2 * k, SortPass(cmp, k, s, st).0, SortPass(cmp, k, s, st).1)
    decreases |s|
  {
    hide InStore, MergeRuns, BlocksReady, Ready, Follows;
    if s == [] {
      NothingToSort(cmp, k, st);
    } else {
      var mid := Min(k, |s|);
      var hi := Min(2 * k, |s|);
      var (m, st1) := MergeRuns(cmp, s[..mid], s[mid..hi], st);
      var (r, st2) := SortPass(cmp, k, s[hi..], st1);
      InStoreParts(s, st, mid, hi);
      BlocksReadySplit(cmp, k, s, st);
      MergeRunsFollows(cmp, s[..mid], s[mid..hi], st);
      MergeRunsReady(cmp, s[..mid], s[mid..hi], st);
      MergeRunsLength(cmp, s[..mid], s[mid..hi], st);
      BlocksReadyFollows(cmp, k, s[hi..], st, st1);
      AllSettledFollows(cmp, s[hi..], st, st1);
      SortPassFacts(cmp, k, s[hi..], st1);
      SortPassLength(cmp, k, s[hi..], st1);
      FollowsTransitive(cmp, st, st1, st2);
      ReadyFollows(cmp, m, st1, st2);
      BlockJoins(cmp, 2 * k, m, r, st2);
    }
  }

  lemma NothingToSort(cmp: Comparator, k: nat, st: Store)
    requires k > 0
    ensures SortPass(cmp, k, [], st) == ([], st) && Follows(cmp, st, st) && BlocksReady(cmp, 2 * k, [], st)
  {
  }

  lemma {:induction false} SortPassIsMergePass(cmp: Comparator, k: nat, s: seq<Cell>, st: Store, last: Store)
    requires k > 0 && InStore(s, st) && BlocksReady(cmp, k, s, st)
    requires Follows(cmp, SortPass(cmp, k, s, st).1, last)
    ensures SortPass(cmp, k, s, st).0 == MergePass(InOrder(cmp, last.items), k, s)
    decreases |s|
  {
    hide InStore, MergeRuns, BlocksReady, Follows, Merge;
    if s != [] {
      var mid := Min(k, |s|);
      var hi := Min(2 * k, |s|);
      var (m, st1) := MergeRuns(cmp, s[..mid], s[mid..hi], st);
      InStoreParts(s, st, mid, hi);
      BlocksReadySplit(cmp, k, s, st);
      MergeRunsFollows(cmp, s[..mid], s[mid..hi], st);
      BlocksReadyFollows(cmp, k, s[hi..], st, st1);
      AllSettledFollows(cmp, s[hi..], st, st1);
      SortPassFacts(cmp, k, s[hi..], st1);
      FollowsTransitive(cmp, st1, SortPass(cmp, k, s[hi..], st1).1, last);
      MergeRunsIsMerge(cmp, s[..mid], s[mid..hi], st, last);
      SortPassIsMergePass(cmp, k, s[hi..], st1, last);
    }
  }

  lemma {:induction false} SortListFacts(cmp: Comparator, k: nat, s: seq<Cell>, st: Store)
    requires k > 0 && InStore(s, st) && BlocksReady(cmp, k, s, st)
    ensures var (r, st1) := SortList(cmp, k, s, st);
      && Follows(cmp, st, st1)
      && Ready(cmp, r, st1)
      && r == SortFrom(InOrder(cmp, st1.items), k, s)
    decreases if k < |s| then |s| - k else 0
  {
    hide Settled, HighByte;
    var (r, st1) := SortPass(cmp, k, s, st);
    SortPassFacts(cmp, k, s, st);
    SortPassLength(cmp, k, s, st);
    if |s| <= 2 * k {
      assert r[..|r|] == r;
      SortPassIsMergePass(cmp, k, s, st, st1);
    } else {
      var (_, last) := SortList(cmp, 2 * k, r, st1);
      SortPassKeepsInfo(cmp, k, s, st);
      AllSettledFollows(cmp, s, st, st1);
      SortListFacts(cmp, 2 * k, r, st1);
      FollowsTransitive(cmp, st, st1, last);
      SortPassIsMergePass(cmp, k, s, st, last);
      MergePassLength(InOrder(cmp, last.items), k, s);
    }
  }

  lemma SortPassKeepsInfo(cmp: Comparator, k: nat, s: seq<Cell>, st: Store)
    requires k > 0 && InStore(s, st) && BlocksReady(cmp, k, s, st)
    ensures InStore(SortPass(cmp, k, s, st).0, SortPass(cmp, k, s, st).1)
  {
    hide Settled, HighByte;
    var (r, st1) := SortPass(cmp, k, s, st);
    SortPassFacts(cmp, k, s, st);
    SortPassIsMergePass(cmp, k, s, st, st1);
    MergePassPermutes(InOrder(cmp, st1.items), k, s);
    forall i | 0 <= i < |r| ensures r[i].info in st1.items {
      assert r[i] in multiset(r);
      assert r[i] in s;
    }
  }

  lemma OrderedCells(cmp: Comparator, items: map<ListData, Item>, cells: set<Cell>)
    requires Ordered(cmp)
    ensures TotalPreorder(InOrder(cmp, items), cells)
  {
    hide NotAfter;
    var leq := InOrder(cmp, items);
    forall x, y | x in cells && y in cells ensures leq(x, y) || leq(y, x) {
      assert NotAfter(cmp, Get(items, x.info), Get(items, y.info))
          || NotAfter(cmp, Get(items, y.info), Get(items, x.info));
    }
    forall x, y, z | x in cells && y in cells && z in cells && leq(x, y) && leq(y, z) ensures leq(x, z) {
      assert NotAfter(cmp, Get(items, x.info), Get(items, y.info))
          && NotAfter(cmp, Get(items, y.info), Get(items, z.info));
    }
  }

  /** The sort with a comparison that rewrites the items while it compares them:
      every item of a list of two or more ends settled, no index and no backup byte
      changes, and the result is a stable sort in the order of the items as they end up. */
  lemma ImpureSortCorrect(cmp: Comparator, s: seq<Cell>, st: Store)
    requires InStore(s, st) && Ordered(cmp)
    ensures var (r, st1) := SortList(cmp, 1, s, st); var leq := InOrder(cmp, st1.items);
      && Follows(cmp, st, st1)
      && (|s| >= 2 ==> AllSettled(cmp, r, st1))
      && multiset(r) == multiset(s) && Sorted(leq, r) && Stable(leq, r, s)
  {
    hide Settled, HighByte, NotAfter;
    SingletonsReady(cmp, s, st);
    SortListFacts(cmp, 1, s, st);
    var leq := InOrder(cmp, SortList(cmp, 1, s, st).1.items);
    OrderedCells(cmp, SortList(cmp, 1, s, st).1.items, set x <- s);
    SortCorrect(leq, s);
    SortPermutes(leq, 1, s);
    assert |multiset(SortFrom(leq, 1, s))| == |multiset(s)|;
  }
}

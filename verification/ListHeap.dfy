/** The linked-cell code of `core_list_join.c`: find, reverse, remove and its undo, and the
    in-place merge sort, each proved against a function on the sequence of cells. */
module ListHeap {
  import opened StableSort
  import opened ListItems

  ghost function Nodes(s: seq<Cell>): set<ListHead> {
    set c <- s :: c.node
  }

  ghost function Infos(s: seq<Cell>): set<ListData> {
    set c <- s :: c.info
  }

  ghost predicate Distinct(s: seq<Cell>) {
    forall i, j :: 0 <= i < j < |s| ==> s[i].node != s[j].node
  }

  ghost function NodeAt(s: seq<Cell>, i: nat): ListHead? {
    if i < |s| then s[i].node else null
  }

  /** The links of the cells `lo` to `hi` are those of the list `s`. */
  ghost predicate Linked(s: seq<Cell>, lo: nat, hi: nat)
    requires lo <= hi <= |s|
    reads Nodes(s)
  {
    forall t {:trigger s[t].node.next} :: lo <= t < hi ==> s[t] in s && s[t].node.next == NodeAt(s, t + 1)
  }

  ghost predicate InfosHeld(s: seq<Cell>)
    reads Nodes(s)
  {
    forall t {:trigger s[t].node.info} :: 0 <= t < |s| ==> s[t] in s && s[t].node.info == s[t].info
  }

  /** `head` is a NULL-terminated, acyclic list of exactly these cells. */
  ghost predicate IsList(head: ListHead?, s: seq<Cell>)
    reads Nodes(s)
  {
    head == NodeAt(s, 0) && Distinct(s) && Linked(s, 0, |s|) && InfosHeld(s)
  }

  ghost function Snapshot(items: set<ListData>, regs: Regs): Store
    reads items
  {
    Store(map d | d in items :: Item(d.idx, d.data16), regs)
  }

  ghost function ResSet(res: CoreResults?): set<CoreResults> {
    if res == null then {} else {res}
  }

  ghost function RegsOf(res: CoreResults?): Regs
    reads ResSet(res)
  {
    if res == null then Regs(0, 0, 0, 0) else res.View()
  }

  /** The comparator value matches the `res` argument the C function receives. */
  ghost predicate Matches(cmp: Comparator, res: CoreResults?) {
    match cmp
    case CmpComplex(bench) => res != null && res.bench == bench
    case CmpIdx(refresh) => refresh == (res == null)
    case Looking(_) => true
  }

  // ---- comparison functions ----

  method RunCmpComplex(a: ListData, b: ListData, res: CoreResults, ghost items: set<ListData>) returns (c: int)
    requires a in items && b in items
    modifies items`data16, res`crc, res`crcstate, res`crcmatrix, res`runs
    ensures (c, Snapshot(items, res.View())) == Compare(CmpComplex(res.bench), a, b, old(Snapshot(items, res.View())))
  {
    hide Calc;
    var val1 := Evaluate(a, res, items);
    var val2 := Evaluate(b, res, items);
    c := val1 as int - val2 as int;
  }

  /** `calc_func`, seen as a change of the whole store. */
  method Evaluate(d: ListData, res: CoreResults, ghost items: set<ListData>) returns (v: bv16)
    requires d in items
    modifies items`data16, res`crc, res`crcstate, res`crcmatrix, res`runs
    ensures (v, Snapshot(items, res.View())) == Calc(res.bench, d, old(Snapshot(items, res.View())))
  {
    hide Operate, Cached, CachedValue, WithCache, Crc.U16;
    ghost var st := Snapshot(items, res.View());
    v := CalcFunc(d, res, st.items);
    assert Snapshot(items, res.View()).items == Calc(res.bench, d, st).1.items;
  }

  method RunCmpIdx(a: ListData, b: ListData, res: CoreResults?, ghost items: set<ListData>) returns (c: int)
    requires a in items && b in items
    modifies items`data16
    ensures (c, Snapshot(items, RegsOf(res))) == Compare(CmpIdx(res == null), a, b, old(Snapshot(items, RegsOf(res))))
  {
    hide Rebuilt;
    if res == null {
      Rebuild(a, items);
      Rebuild(b, items);
    }
    c := a.idx - b.idx;
  }

  /** Any other comparison, which changes nothing. */
  method RunLooking(order: (Item, Item) -> int, a: ListData, b: ListData, res: CoreResults?, ghost items: set<ListData>)
    returns (c: int)
    requires a in items && b in items
    ensures (c, Snapshot(items, RegsOf(res))) == Compare(Looking(order), a, b, Snapshot(items, RegsOf(res)))
  {
    c := order(Item(a.idx, a.data16), Item(b.idx, b.data16));
  }

  /** The working byte of an item is set back to its backup. */
  method Rebuild(d: ListData, ghost items: set<ListData>)
    requires d in items
    modifies d`data16
    ensures forall regs :: Snapshot(items, regs)
                        == var st := old(Snapshot(items, regs)); Put(st, d, Rebuilt(Get(st.items, d).data16))
  {
    hide Rebuilt;
    d.data16 := Rebuilt(d.data16);
  }

  method RunCompare(cmp: Comparator, a: ListData, b: ListData, res: CoreResults?, ghost items: set<ListData>)
    returns (c: int)
    requires a in items && b in items && Matches(cmp, res)
    modifies items`data16, ResSet(res)`crc, ResSet(res)`crcstate, ResSet(res)`crcmatrix, ResSet(res)`runs
    ensures (c, Snapshot(items, RegsOf(res))) == Compare(cmp, a, b, old(Snapshot(items, RegsOf(res))))
  {
    hide Compare;
    match cmp {
      case CmpComplex(_) => c := RunCmpComplex(a, b, res, items);
      case CmpIdx(_) => c := RunCmpIdx(a, b, res, items);
      case Looking(order) => c := RunLooking(order, a, b, res, items);
    }
  }

  // ---- core_list_mergesort ----

  /** The output list built so far: `list` .. `tail` are the cells `out` on the nodes
      `taken`, linked up to the last one, whose `next` is not meaningful yet. */
  ghost predicate Built(list: ListHead?, tail: ListHead?, out: seq<Cell>, taken: set<ListHead>)
    reads taken
  {
    && (forall t :: 0 <= t < |out| ==> out[t].node in taken && out[t].node.info == out[t].info)
    && (if out == [] then list == null && tail == null
        else list == out[0].node && tail == out[|out| - 1].node)
    && Distinct(out)
    && (forall t {:trigger out[t].node.next} :: 0 <= t < |out| - 1 ==> out[t].node.next == out[t + 1].node)
  }

  /** None of the cells `lo` to `hi` of `s` has been taken yet. */
  ghost predicate Untaken(taken: set<ListHead>, s: seq<Cell>, lo: nat, hi: nat) {
    forall t :: lo <= t < hi && t < |s| ==> s[t].node !in taken
  }

  /** Append cell `e` to the output. */
  method Append(list0: ListHead?, tail0: ListHead?, e: ListHead, ghost out: seq<Cell>, ghost cell: Cell,
                ghost taken: set<ListHead>) returns (list: ListHead?, tail: ListHead?)
    requires Built(list0, tail0, out, taken)
    requires e == cell.node && e.info == cell.info && e !in taken
    modifies (if tail0 == null then {} else {tail0})`next
    ensures Built(list, tail, out + [cell], taken + {e})
  {
    list, tail := list0, tail0;
    if tail != null {
      tail.next := e;
    } else {
      list := e;
    }
    tail := e;
  }

  /** Where the merge of `s[base..mid]` with `s[mid..hi]` stands: `pi`, `qi` are the
      positions of `p` and `q`, and `psize`, `qsize` what is left of the two runs. */
  ghost predicate Cursors(s: seq<Cell>, p: ListHead?, q: ListHead?, psize: nat, qsize: nat,
                          pi: nat, mid: nat, qi: nat, hi: nat)
    reads Nodes(s)
  {
    && pi <= mid <= qi <= hi <= |s|
    && psize == mid - pi && hi == Min(qi + qsize, |s|)
    && (psize > 0 ==> p == NodeAt(s, pi))
    && q == NodeAt(s, qi)
    && InfosHeld(s) && Linked(s, pi, mid) && Linked(s, qi, |s|)
  }

  /** Decide which run the next cell comes from, and step past it. */
  method TakeNext(p0: ListHead?, q0: ListHead?, psize0: nat, qsize0: nat, cmp: Comparator, res: CoreResults?,
                  ghost s: seq<Cell>, ghost pi: nat, ghost mid: nat, ghost qi: nat, ghost hi: nat,
                  ghost items: set<ListData>)
    returns (e: ListHead, p: ListHead?, q: ListHead?, psize: nat, qsize: nat, ghost fromP: bool)
    requires Matches(cmp, res) && Infos(s) <= items
    requires Cursors(s, p0, q0, psize0, qsize0, pi, mid, qi, hi)
    requires psize0 > 0 || (qsize0 > 0 && q0 != null)
    modifies items`data16, ResSet(res)`crc, ResSet(res)`crcstate, ResSet(res)`crcmatrix, ResSet(res)`runs
    ensures psize + qsize + 1 == psize0 + qsize0
    ensures if fromP then pi < mid && e == s[pi].node && Cursors(s, p, q, psize, qsize, pi + 1, mid, qi, hi)
            else qi < hi && e == s[qi].node && Cursors(s, p, q, psize, qsize, pi, mid, qi + 1, hi)
    ensures var before := MergeRuns(cmp, s[pi..mid], s[qi..hi], old(Snapshot(items, RegsOf(res))));
      var now := Snapshot(items, RegsOf(res));
      if fromP then
        before == ([s[pi]] + MergeRuns(cmp, s[pi + 1..mid], s[qi..hi], now).0,
                   MergeRuns(cmp, s[pi + 1..mid], s[qi..hi], now).1)
      else
        before == ([s[qi]] + MergeRuns(cmp, s[pi..mid], s[qi + 1..hi], now).0,
                   MergeRuns(cmp, s[pi..mid], s[qi + 1..hi], now).1)
  {
    hide Compare;
    p, q, psize, qsize := p0, q0, psize0, qsize0;
    if psize == 0 {
      e := q;  q := q.next;  qsize := qsize - 1;
      fromP := false;
      assert s[qi..hi] == [s[qi]] + s[qi + 1..hi];
    } else if qsize == 0 || q == null {
      e := p;  p := p.next;  psize := psize - 1;
      fromP := true;
      assert s[pi..mid] == [s[pi]] + s[pi + 1..mid];
    } else {
      assert s[pi] in s && s[qi] in s;
      assert s[pi..mid][0] == s[pi] && s[qi..hi][0] == s[qi];
      var c := RunCompare(cmp, p.info, q.info, res, items);
      if c <= 0 {
        e := p;  p := p.next;  psize := psize - 1;
        fromP := true;
        assert s[pi..mid][1..] == s[pi + 1..mid];
      } else {
        e := q;  q := q.next;  qsize := qsize - 1;
        fromP := false;
        assert s[qi..hi][1..] == s[qi + 1..hi];
      }
    }
  }

  /** Append the cell just taken; the cells still to be merged keep their links. */
  method AppendCell(list0: ListHead?, tail0: ListHead?, e: ListHead, ghost out: seq<Cell>, ghost taken: set<ListHead>,
                    ghost s: seq<Cell>, ghost i: nat, ghost p: ListHead?, ghost q: ListHead?,
                    ghost psize: nat, ghost qsize: nat, ghost pi: nat, ghost mid: nat, ghost qi: nat, ghost hi: nat)
    returns (list: ListHead?, tail: ListHead?)
    requires Built(list0, tail0, out, taken) && taken <= Nodes(s) && Distinct(s)
    requires i < |s| && e == s[i].node && e !in taken && !(pi <= i < mid) && i < qi
    requires Cursors(s, p, q, psize, qsize, pi, mid, qi, hi)
    requires Untaken(taken, s, pi, mid) && Untaken(taken, s, qi, |s|)
    modifies taken`next
    ensures Built(list, tail, out + [s[i]], taken + {e})
    ensures Cursors(s, p, q, psize, qsize, pi, mid, qi, hi)
    ensures Untaken(taken + {e}, s, pi, mid) && Untaken(taken + {e}, s, qi, |s|)
    ensures taken + {e} <= Nodes(s)
  {
    assert s[i] in s;
    list, tail := Append(list0, tail0, e, out, s[i], taken);
    assert forall t :: 0 <= t < |s| ==> s[t] in s && s[t].node.info == old(s[t].node.info);
    assert forall t :: 0 <= t < |s| && s[t].node !in taken ==> s[t].node.next == old(s[t].node.next);
  }

  lemma CursorsDone(s: seq<Cell>, p: ListHead?, q: ListHead?, psize: nat, qsize: nat,
                    pi: nat, mid: nat, qi: nat, hi: nat)
    requires Cursors(s, p, q, psize, qsize, pi, mid, qi, hi)
    requires psize == 0 && (qsize == 0 || q == null)
    ensures pi == mid && qi == hi
  {
  }

  /** One round of the inner loop: take the next cell and append it to the output. */
  method MergeStep(list0: ListHead?, tail0: ListHead?, p0: ListHead?, q0: ListHead?, psize0: nat, qsize0: nat,
                   cmp: Comparator, res: CoreResults?,
                   ghost s: seq<Cell>, ghost pi0: nat, ghost mid: nat, ghost qi0: nat, ghost hi: nat,
                   ghost out0: seq<Cell>, ghost taken0: set<ListHead>, ghost items: set<ListData>)
    returns (list: ListHead?, tail: ListHead?, p: ListHead?, q: ListHead?, psize: nat, qsize: nat,
             ghost pi: nat, ghost qi: nat, ghost out: seq<Cell>, ghost taken: set<ListHead>)
    requires Matches(cmp, res) && Infos(s) <= items && Distinct(s)
    requires Cursors(s, p0, q0, psize0, qsize0, pi0, mid, qi0, hi)
    requires psize0 > 0 || (qsize0 > 0 && q0 != null)
    requires Untaken(taken0, s, pi0, mid) && Untaken(taken0, s, qi0, |s|)
    requires Built(list0, tail0, out0, taken0) && taken0 <= Nodes(s)
    modifies taken0`next, items`data16
    modifies ResSet(res)`crc, ResSet(res)`crcstate, ResSet(res)`crcmatrix, ResSet(res)`runs
    ensures psize + qsize + 1 == psize0 + qsize0
    ensures Cursors(s, p, q, psize, qsize, pi, mid, qi, hi)
    ensures Untaken(taken, s, pi, mid) && Untaken(taken, s, qi, |s|)
    ensures Built(list, tail, out, taken) && taken <= Nodes(s) && out != []
    ensures var before := MergeRuns(cmp, s[pi0..mid], s[qi0..hi], old(Snapshot(items, RegsOf(res))));
      var now := MergeRuns(cmp, s[pi..mid], s[qi..hi], Snapshot(items, RegsOf(res)));
      out0 + before.0 == out + now.0 && before.1 == now.1
  {
    hide Compare, MergeRuns, Built, Linked, InfosHeld, NodeAt, Matches;
    var e: ListHead;
    ghost var fromP;
    e, p, q, psize, qsize, fromP := TakeNext(p0, q0, psize0, qsize0, cmp, res, s, pi0, mid, qi0, hi, items);
    ghost var i := if fromP then pi0 else qi0;
    pi, qi := if fromP then pi0 + 1 else pi0, if fromP then qi0 else qi0 + 1;
    ghost var now := MergeRuns(cmp, s[pi..mid], s[qi..hi], Snapshot(items, RegsOf(res)));
    assert out0 + ([s[i]] + now.0) == (out0 + [s[i]]) + now.0;
    list, tail := AppendCell(list0, tail0, e, out0, taken0, s, i, p, q, psize, qsize, pi, mid, qi, hi);
    out, taken := out0 + [s[i]], taken0 + {e};
  }

  /** The inner loop of a pass: merge the run of `psize` cells at `p` with the run of at
      most `qsize` cells at `q` onto the end of the output. */
  method MergeOne(list0: ListHead?, tail0: ListHead?, p0: ListHead, q0: ListHead?, psize0: nat, qsize0: nat,
                  cmp: Comparator, res: CoreResults?,
                  ghost s: seq<Cell>, ghost base: nat, ghost mid: nat, ghost hi: nat,
                  ghost out0: seq<Cell>, ghost taken0: set<ListHead>, ghost items: set<ListData>)
    returns (list: ListHead?, tail: ListHead?, q: ListHead?, ghost out: seq<Cell>, ghost taken: set<ListHead>)
    requires Matches(cmp, res) && Infos(s) <= items
    requires Distinct(s) && psize0 > 0
    requires Cursors(s, p0, q0, psize0, qsize0, base, mid, mid, hi)
    requires Untaken(taken0, s, base, |s|)
    requires Built(list0, tail0, out0, taken0) && taken0 <= Nodes(s)
    modifies Nodes(s)`next, items`data16
    modifies ResSet(res)`crc, ResSet(res)`crcstate, ResSet(res)`crcmatrix, ResSet(res)`runs
    ensures q == NodeAt(s, hi) && InfosHeld(s) && Linked(s, hi, |s|)
    ensures Untaken(taken, s, hi, |s|)
    ensures var goal := MergeRuns(cmp, s[base..mid], s[mid..hi], old(Snapshot(items, RegsOf(res))));
      out == out0 + goal.0 && Snapshot(items, RegsOf(res)) == goal.1
    ensures Built(list, tail, out, taken) && taken <= Nodes(s) && out != []
  {
    hide Compare, MergeRuns, Built, Linked, InfosHeld, NodeAt, Matches, Untaken;
    var p, psize, qsize := p0, psize0, qsize0;
    list, tail, q := list0, tail0, q0;
    out, taken := out0, taken0;
    ghost var pi: nat, qi: nat := base, mid;
    ghost var goal := MergeRuns(cmp, s[base..mid], s[mid..hi], Snapshot(items, RegsOf(res)));
    UntakenParts(taken, s, base, mid, |s|);
    while psize > 0 || (qsize > 0 && q != null)
      invariant Cursors(s, p, q, psize, qsize, pi, mid, qi, hi)
      invariant Untaken(taken, s, pi, mid) && Untaken(taken, s, qi, |s|)
      invariant Built(list, tail, out, taken) && taken <= Nodes(s)
      invariant (psize == psize0 && qsize == qsize0) || out != []
      invariant var now := MergeRuns(cmp, s[pi..mid], s[qi..hi], Snapshot(items, RegsOf(res)));
        out0 + goal.0 == out + now.0 && goal.1 == now.1
      decreases psize + qsize
    {
      list, tail, p, q, psize, qsize, pi, qi, out, taken :=
        MergeStep(list, tail, p, q, psize, qsize, cmp, res, s, pi, mid, qi, hi, out, taken, items);
    }
    CursorsDone(s, p, q, psize, qsize, pi, mid, qi, hi);
    MergeRunsEmpty(cmp, s[pi..mid], s[qi..hi], Snapshot(items, RegsOf(res)));
  }

  lemma UntakenParts(taken: set<ListHead>, s: seq<Cell>, lo: nat, mid: nat, hi: nat)
    requires lo <= mid <= hi && Untaken(taken, s, lo, hi)
    ensures Untaken(taken, s, lo, mid) && Untaken(taken, s, mid, hi)
  {
  }

  lemma MergeRunsEmpty(cmp: Comparator, a: seq<Cell>, b: seq<Cell>, st: Store)
    requires a == [] && b == []
    ensures MergeRuns(cmp, a, b, st) == ([], st)
  {
  }

  /** Step `insize` places along from `p`, or to the end of the list. */
  method StepAlong(p: ListHead, insize: nat, ghost s: seq<Cell>, ghost base: nat)
    returns (q: ListHead?, psize: nat)
    requires base < |s| && p == s[base].node && Linked(s, base, |s|) && insize > 0
    ensures psize == Min(insize, |s| - base) && q == NodeAt(s, base + psize)
  {
    q := p;
    psize := 0;
    var i := 0;
    while i < insize
      invariant psize == i <= insize && base + i < |s| && q == s[base + i].node
    {
      psize := psize + 1;
      q := q.next;
      i := i + 1;
      if q == null {
        break;
      }
    }
  }

  /** Between two merges of a pass: cells up to `base` are on the output list. */
  ghost predicate InPass(p: ListHead?, list: ListHead?, tail: ListHead?, s: seq<Cell>, base: nat,
                         out: seq<Cell>, taken: set<ListHead>)
    reads Nodes(s), taken
  {
    && base <= |s| && p == NodeAt(s, base)
    && InfosHeld(s) && Linked(s, base, |s|) && Distinct(s)
    && Built(list, tail, out, taken) && taken <= Nodes(s) && Untaken(taken, s, base, |s|)
  }

  /** Find the two runs at `p` and merge them onto the output. */
  method MergeNextPair(list0: ListHead?, tail0: ListHead?, p0: ListHead, insize: nat,
                       cmp: Comparator, res: CoreResults?, ghost s: seq<Cell>, ghost base: nat,
                       ghost out0: seq<Cell>, ghost taken0: set<ListHead>,
                       ghost items: set<ListData>)
    returns (list: ListHead?, tail: ListHead?, p: ListHead?, ghost out: seq<Cell>, ghost taken: set<ListHead>)
    requires Matches(cmp, res) && Infos(s) <= items && insize > 0 && base < |s|
    requires InPass(p0, list0, tail0, s, base, out0, taken0)
    modifies Nodes(s)`next, items`data16
    modifies ResSet(res)`crc, ResSet(res)`crcstate, ResSet(res)`crcmatrix, ResSet(res)`runs
    ensures var hi := if base + 2 * insize <= |s| then base + 2 * insize else |s|;
      && InPass(p, list, tail, s, hi, out, taken) && out != []
      && var before := SortPass(cmp, insize, s[base..], old(Snapshot(items, RegsOf(res))));
        var after := SortPass(cmp, insize, s[hi..], Snapshot(items, RegsOf(res)));
        out0 + before.0 == out + after.0 && before.1 == after.1
  {
    hide Compare, MergeRuns, SortPass, Built, InfosHeld, Untaken, Distinct, Cursors, InPass, Snapshot, RegsOf, Linked;
    ghost var st := Snapshot(items, RegsOf(res));
    ghost var hi := RunsAhead(p0, list0, tail0, s, base, out0, taken0, insize);
    var q, psize := StepAlong(p0, insize, s, base);
    ghost var mid := base + psize;
    assert Snapshot(items, RegsOf(res)) == st;
    ghost var m, r := SortPassStep(cmp, insize, s, base, st);
    list, tail, p, out, taken :=
      MergeOne(list0, tail0, p0, q, psize, insize, cmp, res, s, base, mid, hi, out0, taken0, items);
    assert out0 + (m + r) == (out0 + m) + r;
    MergedSoFar(p, list, tail, s, hi, out, taken);
  }

  /** The two runs at `p` as cursors for the merge. */
  lemma RunsAhead(p: ListHead?, list: ListHead?, tail: ListHead?, s: seq<Cell>, base: nat,
                  out: seq<Cell>, taken: set<ListHead>, insize: nat) returns (hi: nat)
    requires InPass(p, list, tail, s, base, out, taken) && base < |s| && insize > 0
    ensures hi == (if base + 2 * insize <= |s| then base + 2 * insize else |s|)
         == Min(base + Min(insize, |s| - base) + insize, |s|)
    ensures p == s[base].node && Linked(s, base, |s|) && Distinct(s)
    ensures Min(insize, |s| - base) > 0
    ensures var psize := Min(insize, |s| - base);
      Cursors(s, p, NodeAt(s, base + psize), psize, insize, base, base + psize, base + psize, hi)
    ensures Built(list, tail, out, taken) && taken <= Nodes(s) && Untaken(taken, s, base, |s|)
  {
    hi := Min(base + 2 * insize, |s|);
  }

  lemma MergedSoFar(p: ListHead?, list: ListHead?, tail: ListHead?, s: seq<Cell>, base: nat,
                    out: seq<Cell>, taken: set<ListHead>)
    requires base <= |s| && p == NodeAt(s, base)
    requires InfosHeld(s) && Linked(s, base, |s|) && Distinct(s)
    requires Built(list, tail, out, taken) && taken <= Nodes(s) && Untaken(taken, s, base, |s|)
    ensures InPass(p, list, tail, s, base, out, taken)
  {
  }

  /** One pass of the outer loop: merge neighbouring runs of `insize` cells. */
  method Pass(list0: ListHead, insize: nat, cmp: Comparator, res: CoreResults?,
              ghost s: seq<Cell>, ghost items: set<ListData>)
    returns (list: ListHead, nmerges: nat, ghost out: seq<Cell>)
    requires Matches(cmp, res) && insize > 0
    requires IsList(list0, s) && s != [] && Infos(s) <= items
    modifies Nodes(s)`next, items`data16
    modifies ResSet(res)`crc, ResSet(res)`crcstate, ResSet(res)`crcmatrix, ResSet(res)`runs
    ensures (out, Snapshot(items, RegsOf(res))) == SortPass(cmp, insize, s, old(Snapshot(items, RegsOf(res))))
    ensures multiset(out) == multiset(s)
    ensures IsList(list, out)
    ensures nmerges <= 1 <==> |s| <= 2 * insize
  {
    hide Compare, MergeRuns, SortPass, Built, InfosHeld, Untaken, Distinct, InPass, IsList, Linked;
    ghost var st := Snapshot(items, RegsOf(res));
    var p: ListHead?, l: ListHead?, tail: ListHead? := list0, null, null;
    ghost var base: nat, taken := 0, {};
    nmerges, out := 0, [];
    assert s[0..] == s;
    PassBegins(p, s);
    PassPosition(p, l, tail, s, base, out, taken);
    assert out + SortPass(cmp, insize, s, st).0 == SortPass(cmp, insize, s, st).0;
    while p != null
      invariant InPass(p, l, tail, s, base, out, taken)
      invariant base <= |s| && (p == null <==> base == |s|)
      invariant (out == []) == (base == 0)
      invariant if nmerges == 0 then base == 0
                else if nmerges == 1 then base == (if 2 * insize <= |s| then 2 * insize else |s|)
                else base > 2 * insize
      invariant var now := SortPass(cmp, insize, s[base..], Snapshot(items, RegsOf(res)));
        SortPass(cmp, insize, s, st) == (out + now.0, now.1)
      decreases |s| - base
    {
      nmerges := nmerges + 1;
      l, tail, p, out, taken := MergeNextPair(l, tail, p, insize, cmp, res, s, base, out, taken, items);
      base := if base + 2 * insize <= |s| then base + 2 * insize else |s|;
      PassPosition(p, l, tail, s, base, out, taken);
    }
    PassPosition(p, l, tail, s, base, out, taken);
    SortPassEmpty(cmp, insize, s[base..], Snapshot(items, RegsOf(res)));
    assert out + [] == out;
    SortPassPermutes(cmp, insize, s, st);
    list := l;
    Terminate(list, tail, s, base, out, taken);
  }

  lemma PassBegins(p: ListHead?, s: seq<Cell>)
    requires IsList(p, s)
    ensures InPass(p, null, null, s, 0, [], {})
  {
  }

  lemma PassPosition(p: ListHead?, list: ListHead?, tail: ListHead?, s: seq<Cell>, base: nat,
                     out: seq<Cell>, taken: set<ListHead>)
    requires InPass(p, list, tail, s, base, out, taken)
    ensures base <= |s| && (p == null <==> base == |s|)
    ensures out != [] ==> list != null && tail != null && tail in taken && taken <= Nodes(s)
  {
  }

  /** The pass is over: NULL goes into the last node. */
  method Terminate(list: ListHead, tail: ListHead, ghost s: seq<Cell>, ghost base: nat,
                   ghost out: seq<Cell>, ghost taken: set<ListHead>)
    requires InPass(null, list, tail, s, base, out, taken) && out != []
    modifies tail`next
    ensures IsList(list, out)
  {
    tail.next := null;
  }

  lemma SameCells(out: seq<Cell>, s: seq<Cell>)
    requires multiset(out) == multiset(s)
    ensures |out| == |s| && Nodes(out) == Nodes(s) && Infos(out) == Infos(s)
  {
    assert |multiset(out)| == |multiset(s)|;
    assert forall c :: c in out <==> c in multiset(out);
    assert forall c :: c in s <==> c in multiset(s);
  }

  lemma SortPassEmpty(cmp: Comparator, k: nat, s: seq<Cell>, st: Store)
    requires k > 0 && s == []
    ensures SortPass(cmp, k, s, st) == ([], st)
  {
  }

  lemma SortPassStep(cmp: Comparator, k: nat, s: seq<Cell>, base: nat, st: Store)
    returns (m: seq<Cell>, r: seq<Cell>)
    requires k > 0 && base < |s|
    ensures var mid := base + Min(k, |s| - base); var hi := Min(mid + k, |s|);
      var merged := MergeRuns(cmp, s[base..mid], s[mid..hi], st);
      var rest := SortPass(cmp, k, s[hi..], merged.1);
      m == merged.0 && r == rest.0 && SortPass(cmp, k, s[base..], st) == (m + r, rest.1)
  {
    hide MergeRuns;
    var mid := base + Min(k, |s| - base);
    var hi := Min(mid + k, |s|);
    var rest := s[base..];
    assert rest[..Min(k, |rest|)] == s[base..mid];
    assert rest[Min(k, |rest|)..Min(2 * k, |rest|)] == s[mid..hi];
    assert rest[Min(2 * k, |rest|)..] == s[hi..];
    m := MergeRuns(cmp, s[base..mid], s[mid..hi], st).0;
    r := SortPass(cmp, k, s[hi..], MergeRuns(cmp, s[base..mid], s[mid..hi], st).1).0;
  }

  /** `core_list_mergesort`: the list is relinked in place into exactly the list that the
      sort on values computes, and the items and registers are what that sort leaves. */
  method MergeSort(list0: ListHead, cmp: Comparator, res: CoreResults?, ghost s: seq<Cell>, ghost items: set<ListData>)
    returns (list: ListHead, ghost out: seq<Cell>)
    requires Matches(cmp, res)
    requires IsList(list0, s) && s != [] && Infos(s) <= items
    modifies Nodes(s)`next, items`data16
    modifies ResSet(res)`crc, ResSet(res)`crcstate, ResSet(res)`crcmatrix, ResSet(res)`runs
    ensures (out, Snapshot(items, RegsOf(res))) == SortList(cmp, 1, s, old(Snapshot(items, RegsOf(res))))
    ensures multiset(out) == multiset(s)
    ensures IsList(list, out)
  {
    hide Compare, SortPass, Snapshot, RegsOf, IsList, Matches, Nodes, Infos;
    ghost var st := Snapshot(items, RegsOf(res));
    list, out := list0, s;
    var insize := 1;
    while true
      invariant IsList(list, out) && multiset(out) == multiset(s)
      invariant |out| == |s| && Nodes(out) == Nodes(s) && Infos(out) == Infos(s)
      invariant 1 <= insize <= |s|
      invariant SortList(cmp, 1, s, st) == SortList(cmp, insize, out, Snapshot(items, RegsOf(res)))
      decreases |s| - insize
    {
      var nmerges;
      list, nmerges, out := Pass(list, insize, cmp, res, out, items);
      SameCells(out, s);
      if nmerges <= 1 {
        return;
      }
      insize := insize * 2;
    }
  }

  // ---- the other list operations ----

  /** The search condition of `core_list_find`: by index, or by data for a negative one. */
  ghost predicate Sought(it: Item, idx: Int16, data16: bv16) {
    if idx >= 0 then it.idx == idx else it.data16 & 0xff == data16
  }

  /** Position of the first cell sought, or the length of the list. */
  ghost function FindFrom(s: seq<Cell>, items: map<ListData, Item>, idx: Int16, data16: bv16): (k: nat)
    ensures k <= |s|
    ensures k < |s| ==> Sought(Get(items, s[k].info), idx, data16)
    ensures forall i :: 0 <= i < k ==> !Sought(Get(items, s[i].info), idx, data16)
  {
    if s == [] || Sought(Get(items, s[0].info), idx, data16) then 0
    else 1 + FindFrom(s[1..], items, idx, data16)
  }

  lemma FirstSought(s: seq<Cell>, items: map<ListData, Item>, idx: Int16, data16: bv16, k: nat)
    requires k <= |s| && forall i :: 0 <= i < k ==> !Sought(Get(items, s[i].info), idx, data16)
    requires k < |s| ==> Sought(Get(items, s[k].info), idx, data16)
    ensures FindFrom(s, items, idx, data16) == k
  {
  }

  /** The items of the list are the current fields of the data objects. */
  ghost predicate ItemsHeld(s: seq<Cell>, its: map<ListData, Item>)
    reads Infos(s)
  {
    forall c <- s :: Get(its, c.info) == Item(c.info.idx, c.info.data16)
  }

  method Find(list0: ListHead?, idx: Int16, data16: bv16, ghost s: seq<Cell>, ghost its: map<ListData, Item>)
    returns (list: ListHead?)
    requires IsList(list0, s) && ItemsHeld(s, its)
    ensures list == NodeAt(s, FindFrom(s, its, idx, data16))
    ensures IsList(list0, s) && ItemsHeld(s, its)
  {
    list := list0;
    ghost var k: nat := 0;
    hide FindFrom;
    while list != null && (if idx >= 0 then list.info.idx != idx else list.info.data16 & 0xff != data16)
      invariant k <= |s| && list == NodeAt(s, k)
      invariant forall i :: 0 <= i < k ==> !Sought(Get(its, s[i].info), idx, data16)
      decreases |s| - k
    {
      assert s[k] in s;
      list := list.next;
      k := k + 1;
    }
    assert k < |s| ==> s[k] in s;
    FirstSought(s, its, idx, data16, k);
  }

  /** A list, cell by cell. */
  lemma ListByCells(head: ListHead?, s: seq<Cell>)
    requires head == NodeAt(s, 0) && Distinct(s)
    requires forall t {:trigger s[t].node.next} :: 0 <= t < |s| ==> s[t].node.next == NodeAt(s, t + 1)
    requires forall t {:trigger s[t].node.info} :: 0 <= t < |s| ==> s[t].node.info == s[t].info
    ensures IsList(head, s)
  {
  }

  lemma CellsOfList(head: ListHead?, s: seq<Cell>)
    requires IsList(head, s)
    ensures head == NodeAt(s, 0) && Distinct(s)
    ensures forall t {:trigger s[t].node.next} :: 0 <= t < |s| ==> s[t].node.next == NodeAt(s, t + 1)
    ensures forall t {:trigger s[t].node.info} :: 0 <= t < |s| ==> s[t].node.info == s[t].info
    ensures forall t :: 0 <= t < |s| ==> s[t].node in Nodes(s)
  {
    assert forall t :: 0 <= t < |s| ==> s[t] in s;
  }

  ghost function Reversed(s: seq<Cell>): (r: seq<Cell>)
    ensures |r| == |s| && forall i :: 0 <= i < |s| ==> r[i] == s[|s| - 1 - i]
    ensures multiset(r) == multiset(s)
  {
    if s == [] then [] else
      MultisetCons(s);
      Reversed(s[1..]) + [s[0]]
  }

  ghost function NodeBefore(s: seq<Cell>, t: nat): ListHead?
    requires t <= |s|
  {
    if t == 0 then null else s[t - 1].node
  }

  lemma ReversedShape(s: seq<Cell>, t: nat)
    requires t < |s|
    ensures Reversed(s)[t] == s[|s| - 1 - t]
    ensures NodeAt(Reversed(s), t + 1) == NodeBefore(s, |s| - 1 - t)
  {
  }

  lemma ReversedDistinct(s: seq<Cell>)
    requires Distinct(s)
    ensures Distinct(Reversed(s)) && NodeAt(Reversed(s), 0) == NodeBefore(s, |s|)
  {
  }

  method Reverse(list0: ListHead?, ghost s: seq<Cell>) returns (next: ListHead?)
    requires IsList(list0, s)
    modifies Nodes(s)`next
    ensures IsList(next, Reversed(s))
  {
    CellsOfList(list0, s);
    hide IsList, Reversed, Linked, InfosHeld, Nodes;
    var list := list0;
    next := null;
    ghost var k: nat := 0;
    while list != null
      invariant k <= |s| && list == NodeAt(s, k) && next == NodeBefore(s, k)
      invariant forall t {:trigger s[t].node.next} :: k <= t < |s| ==> s[t].node.next == NodeAt(s, t + 1)
      invariant forall t {:trigger s[t].node.next} :: 0 <= t < k ==> s[t].node.next == NodeBefore(s, t)
      decreases |s| - k
    {
      var tmp := list.next;
      list.next := next;
      next := list;
      list := tmp;
      k := k + 1;
    }
    ReversedList(next, s);
  }

  lemma ReversedList(head: ListHead?, s: seq<Cell>)
    requires Distinct(s) && head == NodeBefore(s, |s|)
    requires forall t {:trigger s[t].node.next} :: 0 <= t < |s| ==> s[t].node.next == NodeBefore(s, t)
    requires forall t {:trigger s[t].node.info} :: 0 <= t < |s| ==> s[t].node.info == s[t].info
    ensures IsList(head, Reversed(s))
  {
    ReversedDistinct(s);
    var r := Reversed(s);
    forall t | 0 <= t < |r| ensures r[t].node.next == NodeAt(r, t + 1) && r[t].node.info == r[t].info {
      ReversedShape(s, t);
    }
    ListByCells(head, r);
  }

  ghost function Removed(s: seq<Cell>, k: nat): (r: seq<Cell>)
    requires k + 1 < |s|
    ensures |r| == |s| - 1
  {
    s[..k] + [Cell(s[k].node, s[k + 1].info)] + s[k + 2..]
  }

  lemma RemovedShape(s: seq<Cell>, k: nat)
    requires k + 1 < |s| && Distinct(s)
    ensures var r := Removed(s, k);
      && Distinct(r) && |r| == |s| - 1
      && (forall t :: 0 <= t < k ==> r[t] == s[t] && NodeAt(r, t + 1) == NodeAt(s, t + 1))
      && r[k] == Cell(s[k].node, s[k + 1].info) && NodeAt(r, k + 1) == NodeAt(s, k + 2)
      && (forall t :: k < t < |r| ==> r[t] == s[t + 1] && NodeAt(r, t + 1) == NodeAt(s, t + 2))
      && NodeAt(r, 0) == NodeAt(s, 0)
  {
    var r := Removed(s, k);
    forall i, j | 0 <= i < j < |r| ensures r[i].node != r[j].node {
      assert r[i].node == s[if i <= k then i else i + 1].node;
      assert r[j].node == s[if j <= k then j else j + 1].node;
    }
  }

  /** Swap the items of two nodes. */
  method SwapInfos(a: ListHead, b: ListHead)
    modifies a`info, b`info
    ensures a.info == old(b.info) && b.info == old(a.info)
  {
    var tmp := a.info;
    a.info := b.info;
    b.info := tmp;
  }

  /** `core_list_remove`: the items of the cell and its successor are swapped and
      the successor is unlinked. */
  method Remove(item: ListHead, ghost s: seq<Cell>, ghost k: nat, ghost head: ListHead) returns (ret: ListHead)
    requires IsList(head, s) && k + 1 < |s| && item == s[k].node
    modifies Nodes(s)`next, Nodes(s)`info
    ensures ret == s[k + 1].node && ret.next == null && ret.info == s[k].info
    ensures IsList(head, Removed(s, k))
  {
    CellsOfList(head, s);
    RemovedShape(s, k);
    hide IsList, Removed, Linked, InfosHeld, NodeAt;
    assert NodeAt(s, k + 1) == s[k + 1].node by { NodeAtInside(s, k + 1); }
    ret := item.next;
    SwapInfos(item, ret);
    item.next := item.next.next;
    ret.next := null;
    ghost var r := Removed(s, k);
    forall t | 0 <= t < |r|
      ensures r[t].node.next == NodeAt(r, t + 1) && r[t].node.info == r[t].info
    {
      if t < k {
        assert s[t].node != item && s[t].node != ret;
      } else if t > k {
        assert s[t + 1].node != item && s[t + 1].node != ret;
      }
    }
    ListByCells(head, r);
  }

  ghost function Restored(r: seq<Cell>, k: nat, removed: Cell): (s: seq<Cell>)
    requires k < |r|
  {
    r[..k] + [Cell(r[k].node, removed.info), Cell(removed.node, r[k].info)] + r[k + 1..]
  }

  lemma RestoredDistinct(r: seq<Cell>, k: nat, removed: Cell)
    requires k < |r| && Distinct(r) && forall t :: 0 <= t < |r| ==> r[t].node != removed.node
    ensures Distinct(Restored(r, k, removed)) && NodeAt(Restored(r, k, removed), 0) == NodeAt(r, 0)
  {
    var s := Restored(r, k, removed);
    forall i, j | 0 <= i < j < |s| ensures s[i].node != s[j].node {
      if i != k + 1 && j != k + 1 {
        assert s[i].node == r[if i <= k then i else i - 1].node;
        assert s[j].node == r[if j <= k then j else j - 1].node;
      }
    }
  }

  lemma RestoredCell(r: seq<Cell>, k: nat, removed: Cell, t: nat)
    requires k < |r| && t <= |r|
    ensures var s := Restored(r, k, removed);
      if t == k then s[t] == Cell(r[k].node, removed.info) && NodeAt(s, t + 1) == removed.node
      else if t == k + 1 then s[t] == Cell(removed.node, r[k].info) && NodeAt(s, t + 1) == NodeAt(r, k + 1)
      else if t < k then s[t] == r[t] && NodeAt(s, t + 1) == NodeAt(r, t + 1)
      else s[t] == r[t - 1] && NodeAt(s, t + 1) == NodeAt(r, t)
  {
  }

  lemma RestoredList(head: ListHead, r: seq<Cell>, k: nat, removed: Cell)
    requires k < |r| && Distinct(r) && (forall t :: 0 <= t < |r| ==> r[t].node != removed.node)
    requires head == r[0].node
    requires forall t {:trigger r[t].node.next} :: 0 <= t < |r| ==>
      r[t].node.next == if t == k then removed.node else NodeAt(r, t + 1)
    requires forall t {:trigger r[t].node.info} :: 0 <= t < |r| ==>
      r[t].node.info == if t == k then removed.info else r[t].info
    requires removed.node.next == NodeAt(r, k + 1) && removed.node.info == r[k].info
    ensures IsList(head, Restored(r, k, removed))
  {
    var s := Restored(r, k, removed);
    RestoredDistinct(r, k, removed);
    assert NodeAt(r, 0) == head;
    hide IsList, Restored, NodeAt;
    forall t | 0 <= t < |s| ensures s[t].node.next == NodeAt(s, t + 1) && s[t].node.info == s[t].info {
      RestoredCell(r, k, removed, t);
    }
    ListByCells(head, s);
  }

  /** `core_list_undo_remove`: swap the items back and link the node in again. */
  method UndoRemove(removed: ListHead, modified: ListHead, ghost r: seq<Cell>, ghost k: nat, ghost head: ListHead)
    requires IsList(head, r) && k < |r| && modified == r[k].node && removed !in Nodes(r)
    modifies Nodes(r)`next, Nodes(r)`info, removed`next, removed`info
    ensures IsList(head, Restored(r, k, Cell(removed, old(removed.info))))
  {
    CellsOfList(head, r);
    assert forall t :: 0 <= t < |r| ==> r[t].node != removed;
    ghost var info := removed.info;
    hide IsList, Restored, Linked, InfosHeld, Nodes;
    SwapInfos(removed, modified);
    removed.next := modified.next;
    modified.next := removed;
    RestoredList(head, r, k, Cell(removed, info));
  }

  /** Undoing a removal gives back exactly the list there was. */
  lemma UndoInvertsRemove(s: seq<Cell>, k: nat)
    requires k + 1 < |s|
    ensures Restored(Removed(s, k), k, Cell(s[k + 1].node, s[k].info)) == s
  {
    var r := Removed(s, k);
    assert r[..k] == s[..k] && r[k + 1..] == s[k + 2..];
    assert s == s[..k] + [s[k], s[k + 1]] + s[k + 2..];
  }

  /** The found cell's successor is moved to the second place of the list. */
  ghost function CacheNext(s: seq<Cell>, k: nat): (r: seq<Cell>)
    requires k + 1 < |s|
    ensures |r| == |s| && multiset(r) == multiset(s)
  {
    MultisetMove(s, k);
    s[..1] + [s[k + 1]] + s[1..k + 1] + s[k + 2..]
  }

  lemma MultisetMove(s: seq<Cell>, k: nat)
    requires k + 1 < |s|
    ensures multiset(s[..1] + [s[k + 1]] + s[1..k + 1] + s[k + 2..]) == multiset(s)
  {
    assert s == s[..1] + s[1..k + 1] + [s[k + 1]] + s[k + 2..];
  }

  lemma CacheNextDistinct(s: seq<Cell>, k: nat)
    requires k + 1 < |s| && Distinct(s)
    ensures Distinct(CacheNext(s, k)) && NodeAt(CacheNext(s, k), 0) == s[0].node
  {
    var r := CacheNext(s, k);
    forall i, j | 0 <= i < j < |r| ensures r[i].node != r[j].node {
      assert r[i] == s[if i == 0 then 0 else if i == 1 then k + 1 else if i <= k + 1 then i - 1 else i];
      assert r[j] == s[if j == 0 then 0 else if j == 1 then k + 1 else if j <= k + 1 then j - 1 else j];
    }
  }

  /** Successors once the cell after position `k` has been moved to the second place. */
  ghost function MovedNext(s: seq<Cell>, k: nat, j: nat): ListHead?
    requires k + 1 < |s| && j < |s|
  {
    if j == 0 then s[k + 1].node
    else if j == k + 1 then (if k == 0 then NodeAt(s, 2) else s[1].node)
    else if j == k then NodeAt(s, k + 2)
    else NodeAt(s, j + 1)
  }

  lemma MovedList(list: ListHead, s: seq<Cell>, k: nat)
    requires k + 1 < |s| && Distinct(s) && list == s[0].node
    requires forall j {:trigger s[j].node.next} :: 0 <= j < |s| ==> s[j].node.next == MovedNext(s, k, j)
    requires forall j {:trigger s[j].node.info} :: 0 <= j < |s| ==> s[j].node.info == s[j].info
    ensures IsList(list, CacheNext(s, k))
  {
    var r := CacheNext(s, k);
    CacheNextDistinct(s, k);
    hide IsList, CacheNext, NodeAt, MovedNext;
    forall t | 0 <= t < |r| ensures r[t].node.next == NodeAt(r, t + 1) && r[t].node.info == r[t].info {
      MovedCell(s, k, t);
    }
    ListByCells(list, r);
  }

  lemma MovedCell(s: seq<Cell>, k: nat, t: nat)
    requires k + 1 < |s| && t < |s|
    ensures var r := CacheNext(s, k);
      exists j :: 0 <= j < |s| && s[j] == r[t] && MovedNext(s, k, j) == NodeAt(r, t + 1)
  {
    var j := if t == 0 then 0 else if t == 1 then k + 1 else if t <= k + 1 then t - 1 else t;
    assert s[j] == CacheNext(s, k)[t];
    if t + 1 < |s| {
      var j1 := if t == 0 then k + 1 else if t + 1 <= k + 1 then t else t + 1;
      assert s[j1] == CacheNext(s, k)[t + 1];
    }
    assert MovedNext(s, k, j) == NodeAt(CacheNext(s, k), t + 1);
  }

  lemma NodeAtInside(s: seq<Cell>, t: nat)
    requires t < |s|
    ensures NodeAt(s, t) == s[t].node
  {
  }

  method MoveNext(list: ListHead, found: ListHead, ghost s: seq<Cell>, ghost k: nat)
    requires IsList(list, s) && k + 1 < |s| && found == s[k].node
    modifies Nodes(s)`next
    ensures IsList(list, CacheNext(s, k))
  {
    CellsOfList(list, s);
    NodeAtInside(s, 0);
    NodeAtInside(s, k + 1);
    NodeAtInside(s, 1);
    hide IsList, CacheNext, Linked, InfosHeld, Nodes, NodeAt;
    var finder := found.next;
    found.next := finder.next;
    finder.next := list.next;
    list.next := finder;
    MovedList(list, s, k);
  }
}

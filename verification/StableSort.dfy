/** A pure bottom-up merge sort over sequences, for an arbitrary total preorder.
    `core_list_mergesort` is proved to perform exactly this computation, so what is
    shown here -- sorted, a permutation, stable -- is inherited by the linked cells. */
module StableSort {

  /** `leq` is total and transitive on the elements of `dom`. */
  ghost predicate TotalPreorder<T>(leq: (T, T) -> bool, dom: set<T>) {
    && (forall x, y :: x in dom && y in dom ==> leq(x, y) || leq(y, x))
    && (forall x, y, z :: x in dom && y in dom && z in dom && leq(x, y) && leq(y, z) ==> leq(x, z))
  }

  ghost predicate Within<T>(s: seq<T>, dom: set<T>) {
    forall i :: 0 <= i < |s| ==> s[i] in dom
  }

  function Min(a: nat, b: nat): nat {
    if a <= b then a else b
  }

  /** Merge two runs, taking from the first one on ties. */
  function Merge<T>(leq: (T, T) -> bool, a: seq<T>, b: seq<T>): (m: seq<T>)
    decreases |a| + |b|
  {
    if a == [] then b
    else if b == [] then a
    else if leq(a[0], b[0]) then [a[0]] + Merge(leq, a[1..], b)
    else [b[0]] + Merge(leq, a, b[1..])
  }

  /** One pass: merge neighbouring runs of length `k`. */
  function MergePass<T>(leq: (T, T) -> bool, k: nat, s: seq<T>): (r: seq<T>)
    requires k > 0
    decreases |s|
  {
    if s == [] then []
    else
      var mid := Min(k, |s|);
      var hi := Min(2 * k, |s|);
      Merge(leq, s[..mid], s[mid..hi]) + MergePass(leq, k, s[hi..])
  }

  /** Passes with doubling run length until a single merge covered the list. */
  function SortFrom<T>(leq: (T, T) -> bool, k: nat, s: seq<T>): (r: seq<T>)
    requires k > 0
    decreases if k < |s| then |s| - k else 0
  {
    MergePassLength(leq, k, s);
    var r := MergePass(leq, k, s);
    if |s| <= 2 * k then r else SortFrom(leq, 2 * k, r)
  }

  ghost predicate Sorted<T>(leq: (T, T) -> bool, s: seq<T>) {
    forall i, j :: 0 <= i < j < |s| ==> leq(s[i], s[j])
  }

  function Head<T>(p: T -> bool, s: seq<T>): seq<T>
    requires s != []
  {
    if p(s[0]) then [s[0]] else []
  }

  function Filter<T>(p: T -> bool, s: seq<T>): seq<T> {
    if s == [] then [] else Head(p, s) + Filter(p, s[1..])
  }

  function Equiv<T>(leq: (T, T) -> bool, x: T): T -> bool {
    y => leq(x, y) && leq(y, x)
  }

  /** Elements that compare equal keep their relative order. */
  ghost predicate Stable<T>(leq: (T, T) -> bool, r: seq<T>, s: seq<T>) {
    forall x <- s :: Filter(Equiv(leq, x), r) == Filter(Equiv(leq, x), s)
  }

  // ---- lengths and permutations ----

  lemma MultisetCons<T>(s: seq<T>)
    requires s != []
    ensures multiset(s) == multiset{s[0]} + multiset(s[1..])
  {
    assert s == [s[0]] + s[1..];
  }

  lemma MultisetParts<T>(s: seq<T>, i: nat, j: nat)
    requires i <= j <= |s|
    ensures s == s[..i] + s[i..j] + s[j..]
    ensures multiset(s) == multiset(s[..i]) + multiset(s[i..j]) + multiset(s[j..])
  {
    assert s == s[..i] + s[i..j] + s[j..];
  }

  lemma {:induction false} MergePermutes<T>(leq: (T, T) -> bool, a: seq<T>, b: seq<T>)
    ensures multiset(Merge(leq, a, b)) == multiset(a) + multiset(b)
    ensures |Merge(leq, a, b)| == |a| + |b|
    decreases |a| + |b|
  {
    if a == [] || b == [] {
    } else if leq(a[0], b[0]) {
      MergePermutes(leq, a[1..], b);
      MultisetCons(a);
    } else {
      MergePermutes(leq, a, b[1..]);
      MultisetCons(b);
    }
  }

  lemma {:induction false} MergePassPermutes<T>(leq: (T, T) -> bool, k: nat, s: seq<T>)
    requires k > 0
    ensures multiset(MergePass(leq, k, s)) == multiset(s)
    ensures |MergePass(leq, k, s)| == |s|
    decreases |s|
  {
    if s != [] {
      var mid := Min(k, |s|);
      var hi := Min(2 * k, |s|);
      MergePermutes(leq, s[..mid], s[mid..hi]);
      MergePassPermutes(leq, k, s[hi..]);
      MultisetParts(s, mid, hi);
    }
  }

  lemma MergePassLength<T>(leq: (T, T) -> bool, k: nat, s: seq<T>)
    requires k > 0
    ensures |MergePass(leq, k, s)| == |s|
  {
    MergePassPermutes(leq, k, s);
  }

  lemma {:induction false} SortPermutes<T>(leq: (T, T) -> bool, k: nat, s: seq<T>)
    requires k > 0
    ensures multiset(SortFrom(leq, k, s)) == multiset(s)
    decreases if k < |s| then |s| - k else 0
  {
    MergePassPermutes(leq, k, s);
    if |s| > 2 * k {
      SortPermutes(leq, 2 * k, MergePass(leq, k, s));
    }
  }

  lemma MergePassWithin<T>(leq: (T, T) -> bool, dom: set<T>, k: nat, s: seq<T>)
    requires k > 0 && Within(s, dom)
    ensures Within(MergePass(leq, k, s), dom)
    ensures |MergePass(leq, k, s)| == |s|
  {
    var r := MergePass(leq, k, s);
    MergePassPermutes(leq, k, s);
    forall i | 0 <= i < |r| ensures r[i] in dom {
      assert r[i] in multiset(r);
      assert r[i] in s;
    }
  }

  // ---- sortedness ----

  /** Every aligned block of length `k` is sorted. */
  ghost predicate BlocksSorted<T>(leq: (T, T) -> bool, k: nat, s: seq<T>)
    requires k > 0
    decreases |s|
  {
    s == [] || (Sorted(leq, s[..Min(k, |s|)]) && BlocksSorted(leq, k, s[Min(k, |s|)..]))
  }

  lemma MergeMembers<T>(leq: (T, T) -> bool, a: seq<T>, b: seq<T>)
    ensures forall x :: x in Merge(leq, a, b) ==> x in a || x in b
  {
    MergePermutes(leq, a, b);
    forall x | x in Merge(leq, a, b) ensures x in a || x in b {
      assert x in multiset(Merge(leq, a, b));
    }
  }

  lemma {:induction false} MergeSorts<T>(leq: (T, T) -> bool, dom: set<T>, a: seq<T>, b: seq<T>)
    requires TotalPreorder(leq, dom) && Within(a, dom) && Within(b, dom)
    requires Sorted(leq, a) && Sorted(leq, b)
    ensures Sorted(leq, Merge(leq, a, b))
    decreases |a| + |b|
  {
    if a != [] && b != [] {
      if leq(a[0], b[0]) {
        MergeSorts(leq, dom, a[1..], b);
        MergeMembers(leq, a[1..], b);
        SortedCons(leq, dom, a[0], Merge(leq, a[1..], b), a, b);
      } else {
        MergeSorts(leq, dom, a, b[1..]);
        MergeMembers(leq, a, b[1..]);
        SortedCons(leq, dom, b[0], Merge(leq, a, b[1..]), a, b);
      }
    }
  }

  lemma SortedCons<T>(leq: (T, T) -> bool, dom: set<T>, h: T, m: seq<T>, a: seq<T>, b: seq<T>)
    requires TotalPreorder(leq, dom) && h in dom && Within(a, dom) && Within(b, dom)
    requires Sorted(leq, a) && Sorted(leq, b) && a != [] && b != []
    requires leq(h, a[0]) && leq(h, b[0])
    requires Sorted(leq, m) && forall x :: x in m ==> x in a || x in b
    ensures Sorted(leq, [h] + m)
  {
    forall x | x in m ensures leq(h, x) {
      if x in a {
        var i :| 0 <= i < |a| && a[i] == x;
      } else {
        var i :| 0 <= i < |b| && b[i] == x;
      }
    }
  }

  lemma BlocksSplit<T>(leq: (T, T) -> bool, k: nat, s: seq<T>)
    requires k > 0 && s != [] && BlocksSorted(leq, k, s)
    ensures Sorted(leq, s[..Min(k, |s|)])
    ensures Sorted(leq, s[Min(k, |s|)..Min(2 * k, |s|)])
    ensures BlocksSorted(leq, k, s[Min(2 * k, |s|)..])
  {
    var mid := Min(k, |s|);
    var hi := Min(2 * k, |s|);
    var rest := s[mid..];
    assert rest != [] ==> rest[..Min(k, |rest|)] == s[mid..hi] && rest[Min(k, |rest|)..] == s[hi..];
    assert rest == [] ==> s[mid..hi] == [] && s[hi..] == [];
  }

  lemma {:induction false} MergePassSorts<T>(leq: (T, T) -> bool, dom: set<T>, k: nat, s: seq<T>)
    requires TotalPreorder(leq, dom) && Within(s, dom) && k > 0
    requires BlocksSorted(leq, k, s)
    ensures BlocksSorted(leq, 2 * k, MergePass(leq, k, s))
    decreases |s|
  {
    if s != [] {
      var mid := Min(k, |s|);
      var hi := Min(2 * k, |s|);
      var m := Merge(leq, s[..mid], s[mid..hi]);
      var r := MergePass(leq, k, s[hi..]);
      BlocksSplit(leq, k, s);
      MergeSorts(leq, dom, s[..mid], s[mid..hi]);
      MergePermutes(leq, s[..mid], s[mid..hi]);
      MergePassLength(leq, k, s[hi..]);
      MergePassSorts(leq, dom, k, s[hi..]);
      assert (m + r)[..hi] == m && (m + r)[hi..] == r;
    }
  }

  lemma {:induction false} SingletonBlocksSorted<T>(leq: (T, T) -> bool, s: seq<T>)
    ensures BlocksSorted(leq, 1, s)
  {
    if s != [] {
      SingletonBlocksSorted(leq, s[1..]);
    }
  }

  lemma {:induction false} SortSorts<T>(leq: (T, T) -> bool, dom: set<T>, k: nat, s: seq<T>)
    requires TotalPreorder(leq, dom) && Within(s, dom) && k > 0
    requires BlocksSorted(leq, k, s)
    ensures Sorted(leq, SortFrom(leq, k, s))
    decreases if k < |s| then |s| - k else 0
  {
    var r := MergePass(leq, k, s);
    MergePassSorts(leq, dom, k, s);
    MergePassLength(leq, k, s);
    if |s| > 2 * k {
      MergePassWithin(leq, dom, k, s);
      SortSorts(leq, dom, 2 * k, r);
    } else {
      assert r[..|r|] == r;
    }
  }

  // ---- stability ----

  lemma FilterStep<T>(p: T -> bool, s: seq<T>)
    requires s != []
    ensures Filter(p, s) == Head(p, s) + Filter(p, s[1..])
  {
  }

  lemma {:induction false} FilterAppend<T>(p: T -> bool, a: seq<T>, b: seq<T>)
    ensures Filter(p, a + b) == Filter(p, a) + Filter(p, b)
  {
    hide Filter;
    FilterEmpty(p);
    if a == [] {
      assert a + b == b && [] + Filter(p, b) == Filter(p, b);
    } else {
      FilterAppend(p, a[1..], b);
      FilterStep(p, a);
      FilterStep(p, a + b);
      assert (a + b)[1..] == a[1..] + b && Head(p, a + b) == Head(p, a);
      hide Head;
      Associates(Head(p, a), Filter(p, a[1..]), Filter(p, b));
    }
  }

  lemma FilterEmpty<T>(p: T -> bool)
    ensures Filter(p, []) == []
  {
  }

  lemma Associates<T>(a: seq<T>, b: seq<T>, c: seq<T>)
    ensures a + (b + c) == (a + b) + c
  {
  }

  lemma FilterNone<T>(p: T -> bool, a: seq<T>)
    requires forall x :: x in a ==> !p(x)
    ensures Filter(p, a) == []
  {
  }

  lemma {:induction false} MergeStable<T>(leq: (T, T) -> bool, dom: set<T>, x: T, a: seq<T>, b: seq<T>)
    requires TotalPreorder(leq, dom) && Within(a, dom) && Within(b, dom) && x in dom
    requires Sorted(leq, a) && Sorted(leq, b)
    ensures Filter(Equiv(leq, x), Merge(leq, a, b)) == Filter(Equiv(leq, x), a) + Filter(Equiv(leq, x), b)
    decreases |a| + |b|
  {
    var p := Equiv(leq, x);
    if a == [] || b == [] {
    } else if leq(a[0], b[0]) {
      MergeStable(leq, dom, x, a[1..], b);
    } else {
      MergeStable(leq, dom, x, a, b[1..]);
      if p(b[0]) {
        // Everything in `a` is strictly above b[0], hence not equivalent to x.
        forall y | y in a ensures !p(y) {
          var i :| 0 <= i < |a| && a[i] == y;
          assert leq(a[0], y);
        }
        FilterNone(p, a);
      }
    }
  }

  lemma {:induction false} MergePassStable<T>(leq: (T, T) -> bool, dom: set<T>, x: T, k: nat, s: seq<T>)
    requires TotalPreorder(leq, dom) && Within(s, dom) && x in dom && k > 0
    requires BlocksSorted(leq, k, s)
    ensures Filter(Equiv(leq, x), MergePass(leq, k, s)) == Filter(Equiv(leq, x), s)
    decreases |s|
  {
    if s != [] {
      var p := Equiv(leq, x);
      var mid := Min(k, |s|);
      var hi := Min(2 * k, |s|);
      BlocksSplit(leq, k, s);
      hide Filter, Equiv, TotalPreorder, Sorted, BlocksSorted, Merge;
      assert s == (s[..mid] + s[mid..hi]) + s[hi..];
      MergeStable(leq, dom, x, s[..mid], s[mid..hi]);
      MergePassStable(leq, dom, x, k, s[hi..]);
      FilterAppend(p, Merge(leq, s[..mid], s[mid..hi]), MergePass(leq, k, s[hi..]));
      FilterAppend(p, s[..mid] + s[mid..hi], s[hi..]);
      FilterAppend(p, s[..mid], s[mid..hi]);
    }
  }

  lemma {:induction false} SortStable<T>(leq: (T, T) -> bool, dom: set<T>, x: T, k: nat, s: seq<T>)
    requires TotalPreorder(leq, dom) && Within(s, dom) && x in dom && k > 0
    requires BlocksSorted(leq, k, s)
    ensures Filter(Equiv(leq, x), SortFrom(leq, k, s)) == Filter(Equiv(leq, x), s)
    decreases if k < |s| then |s| - k else 0
  {
    MergePassStable(leq, dom, x, k, s);
    if |s| > 2 * k {
      MergePassSorts(leq, dom, k, s);
      MergePassWithin(leq, dom, k, s);
      SortStable(leq, dom, x, 2 * k, MergePass(leq, k, s));
    }
  }

  /** The bottom-up sort is correct for every total preorder and every list. */
  lemma SortCorrect<T>(leq: (T, T) -> bool, s: seq<T>)
    requires TotalPreorder(leq, set x <- s)
    ensures Sorted(leq, SortFrom(leq, 1, s))
    ensures multiset(SortFrom(leq, 1, s)) == multiset(s)
    ensures Stable(leq, SortFrom(leq, 1, s), s)
  {
    var dom := set x <- s;
    SingletonBlocksSorted(leq, s);
    SortSorts(leq, dom, 1, s);
    SortPermutes(leq, 1, s);
    forall x | x in s ensures Filter(Equiv(leq, x), SortFrom(leq, 1, s)) == Filter(Equiv(leq, x), s) {
      SortStable(leq, dom, x, 1, s);
    }
  }

  ghost predicate StrictlySorted<T>(leq: (T, T) -> bool, s: seq<T>) {
    forall i, j :: 0 <= i < j < |s| ==> leq(s[i], s[j]) && !leq(s[j], s[i])
  }

  lemma HeadsAgree<T>(leq: (T, T) -> bool, r: seq<T>, o: seq<T>)
    requires Sorted(leq, r) && StrictlySorted(leq, o)
    requires multiset(r) == multiset(o) && r != [] && o != []
    ensures r[0] == o[0]
  {
    assert r[0] in multiset(r) && o[0] in multiset(o);
    assert r[0] in multiset(o) && o[0] in multiset(r);
    var i :| 0 <= i < |o| && o[i] == r[0];
    var j :| 0 <= j < |r| && r[j] == o[0];
  }

  lemma SortedTail<T>(leq: (T, T) -> bool, s: seq<T>)
    requires s != []
    ensures Sorted(leq, s) ==> Sorted(leq, s[1..])
    ensures StrictlySorted(leq, s) ==> StrictlySorted(leq, s[1..])
  {
  }

  lemma TailsAlike<T>(r: seq<T>, o: seq<T>)
    requires r != [] && o != [] && r[0] == o[0] && multiset(r) == multiset(o)
    ensures multiset(r[1..]) == multiset(o[1..])
  {
    MultisetCons(r);
    MultisetCons(o);
    assert multiset(r[1..]) == multiset(r) - multiset{r[0]};
  }

  /** A strictly sorted arrangement of a multiset is the only sorted one. */
  lemma {:induction false} SortedUnique<T>(leq: (T, T) -> bool, r: seq<T>, o: seq<T>)
    requires Sorted(leq, r) && StrictlySorted(leq, o) && multiset(r) == multiset(o)
    ensures r == o
  {
    hide Sorted, StrictlySorted;
    assert |r| == |multiset(r)| == |multiset(o)| == |o|;
    if o != [] {
      HeadsAgree(leq, r, o);
      TailsAlike(r, o);
      SortedTail(leq, r);
      SortedTail(leq, o);
      SortedUnique(leq, r[1..], o[1..]);
      assert r == [r[0]] + r[1..] && o == [o[0]] + o[1..];
    }
  }
}

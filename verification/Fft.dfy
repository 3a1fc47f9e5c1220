/** The FFT kernel itself: `int_log2`, `calculate_twiddles`, `FFT_bitreverse` and
    `FFT_transform_internal` over an interleaved array, in exact arithmetic. */
module Fft {
  import opened Arithmetic
  import opened Dft
  import opened Sine
  import opened Options

  // ---- int_log2 ----

  /** The exponent of a power of two; `halt` (None) for any other number. */
  method IntLog2(n: int) returns (r: Option<nat>)
    requires n <= 0x4000_0000
    ensures r.Some? ==> Pow2(r.value) == n
    ensures r.None? ==> forall e: nat :: Pow2(e) != n
  {
    var k, log := 1, 0;
    while k < n
      invariant log >= 0 && k == Pow2(log)
      invariant forall e: nat :: e < log ==> Pow2(e) < n
      decreases n - k
    {
      k := k * 2;
      log := log + 1;
    }
    if n != k {
      forall e: nat ensures Pow2(e) != n {
        if e >= log {
          Pow2Monotone(log, e);
        }
      }
      return None;
    }
    return Some(log);
  }

  // ---- bit reversal of indices ----

  /** `i`, read as `levels` binary digits, with the digits in reverse order. */
  function Reverse(levels: nat, i: nat): (j: nat)
    requires i < Pow2(levels)
    ensures j < Pow2(levels)
  {
    if levels == 0 then 0
    else (if i % 2 == 1 then Pow2(levels - 1) else 0) + Reverse(levels - 1, i / 2)
  }

  /** The other way round: the leading digit becomes the last one. */
  lemma {:induction false} ReverseLeading(levels: nat, i: nat)
    requires levels > 0 && i < Pow2(levels)
    ensures Reverse(levels, i) ==
      if i < Pow2(levels - 1) then 2 * Reverse(levels - 1, i) else 2 * Reverse(levels - 1, i - Pow2(levels - 1)) + 1
  {
    var m := Pow2(levels - 1);
    if levels == 1 {
      assert Reverse(0, 0) == 0;
    } else {
      ReverseLeading(levels - 1, i / 2);
      assert m == 2 * Pow2(levels - 2);
      if i < m {
        assert i / 2 < Pow2(levels - 2);
      } else {
        assert (i - m) / 2 == i / 2 - Pow2(levels - 2) && (i - m) % 2 == i % 2;
      }
    }
  }

  /** Reversing twice is the identity. */
  lemma {:induction false} ReverseInvolution(levels: nat, i: nat)
    requires i < Pow2(levels)
    ensures Reverse(levels, Reverse(levels, i)) == i
  {
    if levels > 0 {
      var r := Reverse(levels - 1, i / 2);
      ReverseInvolution(levels - 1, i / 2);
      ReverseLeading(levels, Reverse(levels, i));
    }
  }

  lemma {:induction false} ReverseLast(levels: nat)
    ensures Reverse(levels, Pow2(levels) - 1) == Pow2(levels) - 1
  {
    if levels > 0 {
      ReverseLast(levels - 1);
      assert (Pow2(levels) - 1) / 2 == Pow2(levels - 1) - 1;
    }
  }

  lemma FromEvens(levels: nat, x: seq<Complex>, i: nat)
    requires levels > 0 && |x| == Pow2(levels) && i < Pow2(levels - 1)
    requires BitReversed(levels - 1, Evens(x))[i] == Evens(x)[Reverse(levels - 1, i)]
    ensures BitReversed(levels, x)[i] == x[Reverse(levels, i)]
  {
    hide Evens, Odds, Reverse;
    ReverseLeading(levels, i);
    EvensOddsAt(x, Reverse(levels - 1, i));
  }

  lemma FromOdds(levels: nat, x: seq<Complex>, i: nat)
    requires levels > 0 && |x| == Pow2(levels) && i < Pow2(levels - 1)
    requires BitReversed(levels - 1, Odds(x))[i] == Odds(x)[Reverse(levels - 1, i)]
    ensures BitReversed(levels, x)[Pow2(levels - 1) + i] == x[Reverse(levels, Pow2(levels - 1) + i)]
  {
    hide Evens, Odds, Reverse;
    ReverseLeading(levels, Pow2(levels - 1) + i);
    EvensOddsAt(x, Reverse(levels - 1, i));
  }

  lemma SingleReversed(x: seq<Complex>)
    requires |x| == Pow2(0)
    ensures BitReversed(0, x)[0] == x[Reverse(0, 0)]
  {
    assert Reverse(0, 0) == 0;
  }

  lemma {:induction false} BitReversedAt(levels: nat, x: seq<Complex>, i: nat)
    requires |x| == Pow2(levels) && i < |x|
    ensures BitReversed(levels, x)[i] == x[Reverse(levels, i)]
    decreases levels
  {
    Pow2Step(levels);
    hide *;
    if levels == 0 {
      SingleReversed(x);
    } else if i < Pow2(levels - 1) {
      BitReversedAt(levels - 1, Evens(x), i);
      FromEvens(levels, x, i);
    } else {
      BitReversedAt(levels - 1, Odds(x), i - Pow2(levels - 1));
      FromOdds(levels, x, i - Pow2(levels - 1));
    }
  }

  lemma Pow2Step(levels: nat)
    ensures Pow2(levels) == if levels == 0 then 1 else 2 * Pow2(levels - 1)
  {
  }

  /** The arrangement is its own inverse. */
  lemma BitReversedInvolution(levels: nat, x: seq<Complex>)
    requires |x| == Pow2(levels)
    ensures BitReversed(levels, BitReversed(levels, x)) == x
  {
    var y := BitReversed(levels, x);
    forall i | 0 <= i < |x| ensures BitReversed(levels, y)[i] == x[i] {
      BitReversedAt(levels, y, i);
      BitReversedAt(levels, x, Reverse(levels, i));
      ReverseInvolution(levels, i);
    }
  }

  // ---- the interleaved array ----

  /** The first `n` complex numbers of an interleaved array. */
  function View(data: array<real>, n: nat): (x: seq<Complex>)
    requires 2 * n <= data.Length
    reads data
    ensures |x| == n && forall i :: 0 <= i < n ==> x[i] == C(data[2 * i], data[2 * i + 1])
  {
    seq(n, i requires 0 <= i < n reads data => C(data[2 * i], data[2 * i + 1]))
  }

  method Swap(data: array<real>, i: nat, j: nat, ghost n: nat)
    requires i < n && j < n && 2 * n <= data.Length
    modifies data
    ensures View(data, n) == old(View(data, n))[i := old(View(data, n))[j]][j := old(View(data, n))[i]]
    ensures data[2 * n..] == old(data[2 * n..])
  {
    var ii, jj := 2 * i, 2 * j;
    var tr, ti := data[ii], data[ii + 1];
    data[ii] := data[jj];
    data[ii + 1] := data[jj + 1];
    data[jj] := tr;
    data[jj + 1] := ti;
  }

  // ---- FFT_bitreverse ----

  /** `i`, and how far the permutation has got when every index below it is done. */
  ghost predicate Swapped(levels: nat, x: seq<Complex>, y: seq<Complex>, i: nat)
    requires |x| == |y| == Pow2(levels)
  {
    forall p :: 0 <= p < |x| ==>
      y[p] == if p < i || Reverse(levels, p) < i then x[Reverse(levels, p)] else x[p]
  }

  lemma SwapStep(levels: nat, x: seq<Complex>, y: seq<Complex>, i: nat)
    requires |x| == |y| == Pow2(levels) && i < |x| && Swapped(levels, x, y, i)
    ensures var j := Reverse(levels, i);
      Swapped(levels, x, if i < j then y[i := y[j]][j := y[i]] else y, i + 1)
  {
    var j := Reverse(levels, i);
    ReverseInvolution(levels, i);
    var z := if i < j then y[i := y[j]][j := y[i]] else y;
    forall p | 0 <= p < |x|
      ensures z[p] == if p < i + 1 || Reverse(levels, p) < i + 1 then x[Reverse(levels, p)] else x[p]
    {
      if Reverse(levels, p) == i {
        ReverseInvolution(levels, p);
      }
    }
  }

  lemma SwapsDone(levels: nat, x: seq<Complex>, y: seq<Complex>)
    requires |x| == |y| == Pow2(levels) && Swapped(levels, x, y, |x| - 1)
    ensures y == BitReversed(levels, x)
  {
    hide Reverse, BitReversed;
    ReverseLast(levels);
    forall p | 0 <= p < |x| ensures y[p] == BitReversed(levels, x)[p] {
      BitReversedAt(levels, x, p);
      ReverseInvolution(levels, p);
    }
  }

  /** Adding one in reversed digits: carries run from the leading digit down. */
  method ReversedIncrement(n: nat, j0: nat, ghost levels: nat, ghost i: nat) returns (j: nat)
    requires n == Pow2(levels) && i + 1 < n && j0 == Reverse(levels, i)
    ensures j == Reverse(levels, i + 1)
  {
    j := j0;
    var k := n / 2;
    ghost var l: nat, m: nat := levels, i;
    while k <= j
      invariant l > 0 && m + 1 < Pow2(l) && k == Pow2(l - 1)
      invariant j == Reverse(l, m) && Reverse(levels, i + 1) == Reverse(l, m + 1)
      decreases l
    {
      assert m % 2 == 1;
      assert (m + 1) / 2 == m / 2 + 1;
      j := j - k;
      k := k / 2;
      l, m := l - 1, m / 2;
      assert m + 1 < Pow2(l) && Pow2(0) == 1;
    }
    assert m % 2 == 0 && (m + 1) / 2 == m / 2;
    j := j + k;
  }

  method BitReverse(N: int, data: array<real>, ghost levels: nat)
    requires N / 2 == Pow2(levels) && N <= data.Length
    modifies data
    ensures View(data, Pow2(levels)) == BitReversed(levels, old(View(data, Pow2(levels))))
    ensures data[2 * Pow2(levels)..] == old(data[2 * Pow2(levels)..])
  {
    var n := N / 2;
    var nm1 := n - 1;
    var i, j := 0, 0;
    ghost var x := View(data, n);
    ReverseZero(levels);
    while i < nm1
      invariant 0 <= i <= nm1 && j == Reverse(levels, i)
      invariant Swapped(levels, x, View(data, n), i)
      invariant data[2 * n..] == old(data[2 * n..])
    {
      SwapStep(levels, x, View(data, n), i);
      if i < j {
        Swap(data, i, j, n);
      }
      j := ReversedIncrement(n, j, levels, i);
      i := i + 1;
    }
    SwapsDone(levels, x, View(data, n));
  }

  lemma {:induction false} ReverseZero(levels: nat)
    ensures Reverse(levels, 0) == 0
  {
    if levels > 0 {
      ReverseZero(levels - 1);
    }
  }

  // ---- one stage in place ----

  /** Where block `c` begins. */
  ghost function Block(c: nat, dual: nat): nat { c * (2 * dual) }

  lemma BlockStep(c: nat, dual: nat)
    ensures Block(c + 1, dual) == Block(c, dual) + 2 * dual && Block(0, dual) == 0
  {
  }

  /** The column of a position in its block. */
  ghost function ColumnIn(p: nat, dual: nat): nat
    requires dual > 0
  {
    p % dual
  }

  lemma ColumnOf(c: nat, dual: nat, k: nat)
    requires k < dual
    ensures ColumnIn(Block(c, dual) + k, dual) == k && ColumnIn(Block(c, dual) + dual + k, dual) == k
  {
    assert c * (2 * dual) == (2 * c) * dual;
    assert (2 * c + 1) * dual == (2 * c) * dual + dual;
    DivisionUnique(Block(c, dual) + k, dual, 2 * c, k);
    DivisionUnique(Block(c, dual) + dual + k, dual, 2 * c + 1, k);
  }

  lemma StageFirstBlock(y: seq<Complex>, dual: nat, w: Complex, k: nat)
    requires k < dual && 2 * dual <= |y|
    ensures Stage(y, dual, w)[k] == Add(y[k], Mul(Power(w, k), y[dual + k]))
    ensures Stage(y, dual, w)[dual + k] == Sub(y[k], Mul(Power(w, k), y[dual + k]))
  {
    hide Power, Mul, Add, Sub;
    var e, o := y[..dual], y[dual..2 * dual];
    assert e[k] == y[k] && o[k] == y[dual + k];
  }

  lemma StageLaterBlocks(y: seq<Complex>, dual: nat, w: Complex, p: nat)
    requires dual > 0 && 2 * dual + p < |y|
    ensures Stage(y, dual, w)[2 * dual + p] == Stage(y[2 * dual..], dual, w)[p]
  {
    hide Butterfly;
  }

  lemma {:induction false} StageAt(y: seq<Complex>, dual: nat, w: Complex, c: nat, k: nat)
    requires dual > 0 && k < dual && Block(c + 1, dual) <= |y|
    ensures var b := Block(c, dual);
      && b + dual + k < |y|
      && Stage(y, dual, w)[b + k] == Add(y[b + k], Mul(Power(w, k), y[b + dual + k]))
      && Stage(y, dual, w)[b + dual + k] == Sub(y[b + k], Mul(Power(w, k), y[b + dual + k]))
    decreases c
  {
    hide *;
    BlockStep(c, dual);
    if c == 0 {
      StageFirstBlock(y, dual, w, k);
    } else {
      var b := Block(c - 1, dual);
      BlockStep(c - 1, dual);
      StageAt(y[2 * dual..], dual, w, c - 1, k);
      StageLaterBlocks(y, dual, w, b + k);
      StageLaterBlocks(y, dual, w, b + dual + k);
    }
  }

  /** Columns below `a` are transformed, and column `a` in the blocks below `b`. */
  ghost predicate ColumnsDone(y: seq<Complex>, t: seq<Complex>, cur: seq<Complex>, dual: nat, a: nat, b: nat)
    requires dual > 0 && |y| == |t| == |cur|
  {
    forall p :: 0 <= p < |y| ==>
      cur[p] == if ColumnIn(p, dual) < a || (ColumnIn(p, dual) == a && p < b) then t[p] else y[p]
  }

  /** Only the two positions of a block that lie in column `a` are at that column. */
  lemma ElsewhereInBlock(dual: nat, a: nat, c: nat, p: nat)
    requires a < dual && Block(c, dual) <= p < Block(c, dual) + 2 * dual
    ensures ColumnIn(p, dual) == a <==> p == Block(c, dual) + a || p == Block(c, dual) + dual + a
  {
    hide Block, ColumnIn;
    var b := Block(c, dual);
    if p < b + dual {
      ColumnOf(c, dual, p - b);
      assert b + (p - b) == p;
    } else {
      ColumnOf(c, dual, p - b - dual);
      assert b + dual + (p - b - dual) == p;
    }
  }

  /** Column `a` of one more block. */
  lemma ColumnExtends(y: seq<Complex>, t: seq<Complex>, cur: seq<Complex>, dual: nat, a: nat, c: nat)
    requires |y| == |t| == |cur| && a < dual && Block(c + 1, dual) <= |y|
    requires ColumnsDone(y, t, cur, dual, a, Block(c, dual))
    ensures var b := Block(c, dual);
      && b + dual + a < |y| && cur[b + a] == y[b + a] && cur[b + dual + a] == y[b + dual + a]
      && ColumnsDone(y, t, cur[b + a := t[b + a]][b + dual + a := t[b + dual + a]], dual, a, b + 2 * dual)
  {
    hide Block, ColumnIn;
    var b := Block(c, dual);
    BlockStep(c, dual);
    ColumnOf(c, dual, a);
    var cur1 := cur[b + a := t[b + a]][b + dual + a := t[b + dual + a]];
    forall p | 0 <= p < |y|
      ensures cur1[p] == if ColumnIn(p, dual) < a || (ColumnIn(p, dual) == a && p < b + 2 * dual) then t[p] else y[p]
    {
      if b <= p < b + 2 * dual {
        ElsewhereInBlock(dual, a, c, p);
      }
    }
  }

  lemma ColumnStep(y: seq<Complex>, cur: seq<Complex>, dual: nat, w: Complex, a: nat, c: nat)
    requires |y| == |cur| && a < dual && Block(c + 1, dual) <= |y|
    requires ColumnsDone(y, Stage(y, dual, w), cur, dual, a, Block(c, dual))
    ensures var b := Block(c, dual);
      && b + a + dual < |y|
      && var x := Mul(Power(w, a), cur[b + a + dual]);
        ColumnsDone(y, Stage(y, dual, w), cur[b + a := Add(cur[b + a], x)][b + a + dual := Sub(cur[b + a], x)],
                    dual, a, b + 2 * dual)
  {
    hide *;
    StageAt(y, dual, w, c, a);
    ColumnExtends(y, Stage(y, dual, w), cur, dual, a, c);
    assert Block(c, dual) + a + dual == Block(c, dual) + dual + a;
  }

  /** In the first column the factor is one. */
  lemma FirstColumnStep(y: seq<Complex>, cur: seq<Complex>, dual: nat, w: Complex, c: nat)
    requires |y| == |cur| && dual > 0 && Block(c + 1, dual) <= |y|
    requires ColumnsDone(y, Stage(y, dual, w), cur, dual, 0, Block(c, dual))
    ensures var b := Block(c, dual);
      && b + dual < |y|
      && ColumnsDone(y, Stage(y, dual, w), cur[b := Add(cur[b], cur[b + dual])][b + dual := Sub(cur[b], cur[b + dual])],
                     dual, 0, b + 2 * dual)
  {
    PowerZero(w);
    hide *;
    ColumnStep(y, cur, dual, w, 0, c);
    MulUnits(cur[Block(c, dual) + dual]);
  }

  lemma ColumnEnd(y: seq<Complex>, t: seq<Complex>, cur: seq<Complex>, dual: nat, a: nat)
    requires dual > 0 && |y| == |t| == |cur| && ColumnsDone(y, t, cur, dual, a, |y|)
    ensures ColumnsDone(y, t, cur, dual, a + 1, 0)
    ensures a + 1 == dual ==> cur == t
  {
  }

  /** The sum goes to `p` and the difference to `q`. */
  method AddAndSubtract(data: array<real>, p: nat, q: nat, wr: real, wi: real, ghost n: nat)
    requires p < q < n && 2 * n <= data.Length
    modifies data
    ensures var y := old(View(data, n));
      View(data, n) == y[p := Add(y[p], C(wr, wi))][q := Sub(y[p], C(wr, wi))]
    ensures data[2 * n..] == old(data[2 * n..])
  {
    var i, j := 2 * p, 2 * q;
    data[j] := data[i] - wr;
    data[j + 1] := data[i + 1] - wi;
    data[i] := data[i] + wr;
    data[i + 1] := data[i + 1] + wi;
  }

  /** The first butterfly of a block, whose factor is one and is not multiplied. */
  method FirstButterfly(data: array<real>, b: nat, dual: nat, ghost n: nat)
    requires dual > 0 && b + dual < n && 2 * n <= data.Length
    modifies data
    ensures var y := old(View(data, n)); var wr := y[b + dual];
      View(data, n) == y[b := Add(y[b], wr)][b + dual := Sub(y[b], wr)]
    ensures data[2 * n..] == old(data[2 * n..])
  {
    hide Add, Sub;
    var j := 2 * (b + dual);
    AddAndSubtract(data, b, b + dual, data[j], data[j + 1], n);
  }

  method TwiddledButterfly(data: array<real>, b: nat, a: nat, dual: nat, wReal: real, wImag: real, ghost n: nat)
    requires dual > 0 && b + a + dual < n && 2 * n <= data.Length
    modifies data
    ensures var y := old(View(data, n)); var x := Mul(C(wReal, wImag), y[b + a + dual]);
      View(data, n) == y[b + a := Add(y[b + a], x)][b + a + dual := Sub(y[b + a], x)]
    ensures data[2 * n..] == old(data[2 * n..])
  {
    hide Add, Sub;
    var j := 2 * (b + a + dual);
    var z1r, z1i := data[j], data[j + 1];
    assert View(data, n)[b + a + dual] == C(z1r, z1i);
    var wr := wReal * z1r - wImag * z1i;
    var wi := wReal * z1i + wImag * z1r;
    assert C(wr, wi) == Mul(C(wReal, wImag), C(z1r, z1i));
    hide Mul, View;
    AddAndSubtract(data, b + a, b + a + dual, wr, wi, n);
  }

  /** `for (b = 0; b < n; b += 2 * dual)` without a factor. */
  method FirstColumn(data: array<real>, n: nat, dual: nat, ghost w: Complex, ghost y: seq<Complex>, ghost blocks: nat)
    requires dual > 0 && n == Block(blocks, dual) && 2 * n <= data.Length && y == View(data, n)
    modifies data
    ensures ColumnsDone(y, Stage(y, dual, w), View(data, n), dual, 1, 0)
    ensures dual == 1 ==> View(data, n) == Stage(y, dual, w)
    ensures data[2 * n..] == old(data[2 * n..])
  {
    hide *;
    var b := 0;
    ghost var c: nat := 0;
    BlockStep(0, dual);
    NoColumns(y, Stage(y, dual, w), dual);
    while b < n
      invariant b == Block(c, dual) && c <= blocks
      invariant ColumnsDone(y, Stage(y, dual, w), View(data, n), dual, 0, b)
      invariant data[2 * n..] == old(data[2 * n..])
      decreases blocks - c
    {
      BlockFits(c, blocks, dual);
      FirstColumnStep(y, View(data, n), dual, w, c);
      FirstButterfly(data, b, dual, n);
      b := b + 2 * dual;
      c := c + 1;
    }
    BlocksEnd(c, blocks, dual);
    ColumnEnd(y, Stage(y, dual, w), View(data, n), dual, 0);
  }

  /** The same with the factor of column `a`. */
  method Column(data: array<real>, n: nat, dual: nat, a: nat, wReal: real, wImag: real,
                ghost w: Complex, ghost y: seq<Complex>, ghost blocks: nat)
    requires 0 < a < dual && n == Block(blocks, dual) && 2 * n <= data.Length && |y| == n
    requires C(wReal, wImag) == Power(w, a)
    requires ColumnsDone(y, Stage(y, dual, w), View(data, n), dual, a, 0)
    modifies data
    ensures ColumnsDone(y, Stage(y, dual, w), View(data, n), dual, a + 1, 0)
    ensures a + 1 == dual ==> View(data, n) == Stage(y, dual, w)
    ensures data[2 * n..] == old(data[2 * n..])
  {
    hide *;
    var b := 0;
    ghost var c: nat := 0;
    BlockStep(0, dual);
    while b < n
      invariant b == Block(c, dual) && c <= blocks
      invariant ColumnsDone(y, Stage(y, dual, w), View(data, n), dual, a, b)
      invariant data[2 * n..] == old(data[2 * n..])
      decreases blocks - c
    {
      BlockFits(c, blocks, dual);
      ColumnStep(y, View(data, n), dual, w, a, c);
      TwiddledButterfly(data, b, a, dual, wReal, wImag, n);
      b := b + 2 * dual;
      c := c + 1;
    }
    BlocksEnd(c, blocks, dual);
    ColumnEnd(y, Stage(y, dual, w), View(data, n), dual, a);
  }

  lemma NoColumns(y: seq<Complex>, t: seq<Complex>, dual: nat)
    requires dual > 0 && |y| == |t|
    ensures ColumnsDone(y, t, y, dual, 0, 0)
  {
  }

  lemma BlockFits(c: nat, blocks: nat, dual: nat)
    requires Block(c, dual) < Block(blocks, dual)
    ensures c < blocks && Block(c + 1, dual) <= Block(blocks, dual) && Block(c + 1, dual) == Block(c, dual) + 2 * dual
  {
    if c >= blocks {
      MulMonotone(blocks, c, 2 * dual);
    }
    MulMonotone(c + 1, blocks, 2 * dual);
  }

  lemma BlocksEnd(c: nat, blocks: nat, dual: nat)
    requires c <= blocks && Block(c, dual) >= Block(blocks, dual)
    ensures Block(c, dual) == Block(blocks, dual)
  {
    MulMonotone(c, blocks, 2 * dual);
  }

  // ---- the twiddle table ----

  /** Complex entries of the table before level `bit`: level b holds 2^b - 1 of them. */
  function Offset(bit: nat): nat {
    if bit == 0 then 0 else Offset(bit - 1) + Pow2(bit - 1) - 1
  }

  lemma {:induction false} OffsetMonotone(a: nat, b: nat)
    requires a <= b
    ensures Offset(a) <= Offset(b)
    decreases b
  {
    if a < b {
      OffsetMonotone(a, b - 1);
    }
  }

  /** Entry `a` of level `bit` is the a-th power of that level's root. */
  ghost predicate LevelFilled(table: seq<real>, root: nat -> Complex, bit: nat, upto: nat) {
    forall a :: 1 <= a <= upto ==> EntryIs(table, Offset(bit) + a - 1, Power(root(bit), a))
  }

  ghost predicate EntryIs(table: seq<real>, at: nat, w: Complex) {
    2 * at + 1 < |table| && C(table[2 * at], table[2 * at + 1]) == w
  }

  /** The table holds exactly the entries of `levels` levels, in order. */
  ghost predicate TableFilled(table: seq<real>, root: nat -> Complex, levels: nat) {
    |table| == 2 * Offset(levels) && LevelsFilled(table, root, levels)
  }

  ghost predicate LevelsFilled(table: seq<real>, root: nat -> Complex, levels: nat) {
    forall bit :: 0 <= bit < levels ==> LevelFilled(table, root, bit, Pow2(bit) - 1)
  }

  const PI: real := 3.1415926535897932

  function Theta(direction: int, bit: nat): real {
    2.0 * direction as real * PI / (2.0 * Pow2(bit) as real)
  }

  /** The factor of the recurrence on level `bit`: 1 - 2 sin^2(theta/2) + i sin(theta). */
  function RootAt(sin: real -> real, direction: int): nat -> Complex {
    (bit: nat) =>
      var theta := Theta(direction, bit);
      var t := sin(theta * 0.5);
      C(1.0 - 2.0 * t * t, sin(theta))
  }

  lemma LevelKept(table: seq<real>, table1: seq<real>, root: nat -> Complex, bit: nat, upto: nat, n: nat)
    requires LevelFilled(table, root, bit, upto) && n <= |table| == |table1| && table[..n] == table1[..n]
    requires 2 * (Offset(bit) + upto) <= n
    ensures LevelFilled(table1, root, bit, upto)
  {
    forall a | 1 <= a <= upto ensures EntryIs(table1, Offset(bit) + a - 1, Power(root(bit), a)) {
      var at := Offset(bit) + a - 1;
      assert EntryIs(table, at, Power(root(bit), a));
      assert table[2 * at] == table[..n][2 * at] && table[2 * at + 1] == table[..n][2 * at + 1];
      assert table1[2 * at] == table1[..n][2 * at] && table1[2 * at + 1] == table1[..n][2 * at + 1];
    }
  }

  lemma NoLevels(table: seq<real>, root: nat -> Complex)
    ensures LevelsFilled(table, root, 0)
  {
  }

  lemma LevelsKept(table: seq<real>, table1: seq<real>, root: nat -> Complex, bit: nat)
    requires LevelsFilled(table, root, bit) && 2 * Offset(bit) <= |table| == |table1|
    requires table[..2 * Offset(bit)] == table1[..2 * Offset(bit)]
    requires LevelFilled(table1, root, bit, Pow2(bit) - 1)
    ensures LevelsFilled(table1, root, bit + 1)
  {
    hide LevelFilled, Offset, Pow2;
    forall b | 0 <= b < bit ensures LevelFilled(table1, root, b, Pow2(b) - 1) {
      LevelBefore(b, bit);
      LevelKept(table, table1, root, b, Pow2(b) - 1, 2 * Offset(bit));
    }
  }

  lemma LevelBefore(b: nat, bit: nat)
    requires b < bit
    ensures Offset(b) + (Pow2(b) - 1) <= Offset(bit)
  {
    OffsetMonotone(b + 1, bit);
  }

  /** One level of the table, by the recurrence. */
  method FillLevel(twp: array<real>, n0: nat, dual: nat, s: real, s2: real, ghost root: nat -> Complex, ghost bit: nat)
    returns (n: nat)
    requires dual == Pow2(bit) && root(bit) == C(1.0 - s2, s)
    requires n0 == 2 * Offset(bit) && twp.Length >= 2 * Offset(bit + 1)
    modifies twp
    ensures n == 2 * Offset(bit + 1) && twp[..n0] == old(twp[..n0])
    ensures LevelFilled(twp[..], root, bit, Pow2(bit) - 1)
  {
    hide Power;
    n := n0;
    var wReal, wImag := 1.0, 0.0;
    PowerZero(root(bit));
    for a := 1 to dual
      invariant n == 2 * (Offset(bit) + a - 1)
      invariant C(wReal, wImag) == Power(root(bit), a - 1)
      invariant twp[..n0] == old(twp[..n0])
      invariant LevelFilled(twp[..], root, bit, a - 1)
    {
      ghost var before := twp[..];
      var tmpReal := wReal - s * wImag - s2 * wReal;
      var tmpImag := wImag + s * wReal - s2 * wImag;
      RecurrenceStep(wReal, wImag, s, s2, root, bit, a);
      wReal := tmpReal;
      wImag := tmpImag;
      twp[n] := wReal;
      n := n + 1;
      twp[n] := wImag;
      n := n + 1;
      LevelKept(before, twp[..], root, bit, a - 1, n - 2);
      assert EntryIs(twp[..], Offset(bit) + a - 1, Power(root(bit), a));
    }
  }

  lemma PowerZero(w: Complex)
    ensures Power(w, 0) == ONE
  {
  }

  lemma RecurrenceStep(wReal: real, wImag: real, s: real, s2: real, root: nat -> Complex, bit: nat, a: nat)
    requires a > 0 && root(bit) == C(1.0 - s2, s) && C(wReal, wImag) == Power(root(bit), a - 1)
    ensures C(wReal - s * wImag - s2 * wReal, wImag + s * wReal - s2 * wImag) == Power(root(bit), a)
  {
    assert Power(root(bit), a) == Mul(Power(root(bit), a - 1), root(bit));
    assert wReal * (1.0 - s2) - wImag * s == wReal - s * wImag - s2 * wReal;
    assert wReal * s + wImag * (1.0 - s2) == wImag + s * wReal - s2 * wImag;
  }

  /** What comes of `calculate_twiddles`: `halt`, NULL for a single entry, or a table. */
  datatype Twiddles = Halted | NoTable | Table(twp: array<real>)

  method CountEntries(logn: nat) returns (n: nat)
    ensures n == Offset(logn)
  {
    n := 0;
    var dual := 1;
    for bit := 0 to logn
      invariant n == Offset(bit) && dual == Pow2(bit)
    {
      var start := n;
      for a := 1 to dual
        invariant n == start + a - 1
      {
        n := n + 1;
      }
      dual := dual * 2;
    }
  }

  lemma ThetaAt(sin: real -> real, direction: int, bit: nat)
    ensures var theta := Theta(direction, bit); var t := sin(theta * 0.5);
      RootAt(sin, direction)(bit) == C(1.0 - 2.0 * t * t, sin(theta))
  {
  }

  method FillTable(twp: array<real>, logn: nat, direction: int, sin: real -> real)
    requires twp.Length == 2 * Offset(logn)
    modifies twp
    ensures LevelsFilled(twp[..], RootAt(sin, direction), logn)
  {
    hide LevelFilled, LevelsFilled, RootAt, Power;
    ghost var root := RootAt(sin, direction);
    var n, dual := 0, 1;
    NoLevels(twp[..], root);
    for bit := 0 to logn
      invariant n == 2 * Offset(bit) && dual == Pow2(bit)
      invariant LevelsFilled(twp[..], root, bit)
    {
      ghost var before := twp[..];
      OffsetMonotone(bit + 1, logn);
      ThetaAt(sin, direction, bit);
      var theta := 2.0 * direction as real * PI / (2.0 * dual as real);
      var s := sin(theta);
      var t := sin(theta * 0.5);
      var s2 := 2.0 * t * t;
      n := FillLevel(twp, n, dual, s, s2, root, bit);
      assert before[..2 * Offset(bit)] == twp[..][..2 * Offset(bit)];
      LevelsKept(before, twp[..], root, bit);
      dual := dual * 2;
    }
  }

  method CalculateTwiddles(size: int, direction: int, sin: real -> real) returns (r: Twiddles)
    requires size <= 0x7fff_ffff
    ensures r.NoTable? <==> size == 1
    ensures r.Halted? <==> size != 1 && forall levels: nat :: Pow2(levels) != size / 2
    ensures r.Table? ==> fresh(r.twp)
    ensures forall levels: nat :: r.Table? && Pow2(levels) == size / 2 ==>
      TableFilled(r.twp[..], RootAt(sin, direction), levels)
  {
    hide LevelsFilled, RootAt, Offset;
    if size == 1 {
      return NoTable;
    }
    var log := IntLog2(size / 2);
    if log.None? {
      return Halted;
    }
    var logn := log.value;
    var count := CountEntries(logn);
    var twp := new real[2 * count];
    FillTable(twp, logn, direction, sin);
    forall levels: nat | Pow2(levels) == size / 2 ensures levels == logn {
      Pow2Injective(levels, logn);
    }
    return Table(twp);
  }

  lemma Pow2AllInjective()
    ensures forall a: nat, b: nat :: Pow2(a) == Pow2(b) ==> a == b
  {
    forall a: nat, b: nat | Pow2(a) == Pow2(b) ensures a == b {
      Pow2Injective(a, b);
    }
  }

  // ---- FFT_transform_internal ----

  /** `r` is the discrete Fourier transform of `x` for the root `w`. */
  ghost predicate IsTransform(r: seq<Complex>, x: seq<Complex>, w: Complex) {
    |r| == |x| && forall k :: 0 <= k < |x| ==> r[k] == Coefficient(x, w, k)
  }

  /** One stage in place, with the table cursor `at` moving over the entries of its level. */
  method StageInPlace(data: array<real>, n: nat, dual: nat, twp: array<real>, at0: nat,
                      ghost root: nat -> Complex, ghost bit: nat, ghost blocks: nat)
    returns (at: nat)
    requires dual == Pow2(bit) && n == Block(blocks, dual) && 2 * n <= data.Length && data != twp
    requires at0 == 2 * Offset(bit) && LevelFilled(twp[..], root, bit, dual - 1)
    modifies data
    ensures View(data, n) == Stage(old(View(data, n)), dual, root(bit))
    ensures at == 2 * Offset(bit + 1)
    ensures data[2 * n..] == old(data[2 * n..])
  {
    hide Stage, Power, ColumnsDone;
    ghost var y := View(data, n);
    ghost var w := root(bit);
    FirstColumn(data, n, dual, w, y, blocks);
    at := at0;
    for a := 1 to dual
      invariant at == 2 * (Offset(bit) + a - 1)
      invariant ColumnsDone(y, Stage(y, dual, w), View(data, n), dual, a, 0)
      invariant a == dual ==> View(data, n) == Stage(y, dual, w)
      invariant data[2 * n..] == old(data[2 * n..])
    {
      assert EntryIs(twp[..], Offset(bit) + a - 1, Power(w, a));
      var wReal := twp[at];
      at := at + 1;
      var wImag := twp[at];
      at := at + 1;
      Column(data, n, dual, a, wReal, wImag, w, y, blocks);
    }
  }

  /** All stages in place; the cursor ends at the end of the table. */
  method TransformStages(data: array<real>, n: nat, logn: nat, twp: array<real>, ghost root: nat -> Complex)
    requires n == Pow2(logn) && 2 * n <= data.Length && data != twp && TableFilled(twp[..], root, logn)
    modifies data
    ensures View(data, n) == Stages(old(View(data, n)), root, 0, logn)
    ensures data[2 * n..] == old(data[2 * n..])
  {
    hide Stage, LevelFilled;
    ghost var y := View(data, n);
    var dual, at := 1, 0;
    for bit := 0 to logn
      invariant dual == Pow2(bit) && at == 2 * Offset(bit)
      invariant View(data, n) == Stages(y, root, 0, bit)
      invariant data[2 * n..] == old(data[2 * n..])
    {
      Pow2Sum(logn - bit - 1, bit + 1);
      StagesLast(y, root, 0, bit);
      at := StageInPlace(data, n, dual, twp, at, root, bit, Pow2(logn - bit - 1));
      dual := dual * 2;
    }
    assert at == twp.Length;
  }

  /** `FFT_transform_internal`: None is `halt`; otherwise the first N/2 complex numbers are
      replaced by their discrete Fourier transform and nothing else changes. */
  method TransformInternal(N: int, data: array<real>, twp: array<real>, ghost root: nat -> Complex)
    returns (logn: Option<nat>)
    requires 0 <= N <= data.Length && N <= 0x7fff_ffff && data != twp
    requires forall levels: nat :: Pow2(levels) == N / 2 ==> RootLaw(root, levels) && TableFilled(twp[..], root, levels)
    modifies data
    ensures logn.None? ==> data[..] == old(data[..]) && forall levels: nat :: Pow2(levels) != N / 2
    ensures logn.Some? ==> Pow2(logn.value) == N / 2 && data[2 * (N / 2)..] == old(data[2 * (N / 2)..])
    ensures logn.Some? ==> IsTransform(View(data, N / 2), old(View(data, N / 2)), RootOf(root, logn.value))
  {
    hide Stages, BitReversed, Coefficient, RootLaw, TableFilled, RootOf;
    var n := N / 2;
    logn := IntLog2(n);
    if logn.None? {
      return;
    }
    ghost var x := View(data, n);
    var levels := logn.value;
    if n == 1 {
      Pow2Injective(levels, 0);
      OnePoint(x, root);
      return;
    }
    BitReverse(N, data, levels);
    TransformStages(data, n, levels, twp, root);
    forall k | 0 <= k < n ensures View(data, n)[k] == Coefficient(x, RootOf(root, levels), k) {
      StagesComputeDft(x, root, levels, k);
    }
  }

  lemma OnePoint(x: seq<Complex>, root: nat -> Complex)
    requires |x| == 1
    ensures x[0] == Coefficient(x, RootOf(root, 0), 0)
  {
    SingleCoefficient(x);
  }

  /** The factors of the table, level by level: the points at the angles pi / 2^bit, turned
      clockwise for direction -1 and counterclockwise for direction 1. */
  lemma TwiddleRoots(sin: real -> real, direction: int, bit: nat)
    requires SineLaws(sin) && (direction == 1 || direction == -1)
    ensures var a := 3.1415926535897932 / Pow2(bit) as real;
      RootAt(sin, direction)(bit) == C(Cosine(sin, a), if direction == 1 then sin(a) else 0.0 - sin(a))
  {
    var a := 3.1415926535897932 / Pow2(bit) as real;
    SameQuotient(3.1415926535897932, Pow2(bit) as real);
    ThetaIs(direction, bit);
    HalfAngle(sin, a);
    assert OddAt(sin, a) && OddAt(sin, a * 0.5);
    assert (0.0 - a) * 0.5 == 0.0 - a * 0.5;
  }

  lemma ThetaIs(direction: int, bit: nat)
    requires direction == 1 || direction == -1
    ensures var a := 3.1415926535897932 / Pow2(bit) as real;
      Theta(direction, bit) == if direction == 1 then a else 0.0 - a
  {
    SameQuotient(3.1415926535897932, Pow2(bit) as real);
    SameQuotient(0.0 - 3.1415926535897932, Pow2(bit) as real);
    NegatedQuotient(3.1415926535897932, Pow2(bit) as real);
    if direction == 1 {
      assert 2.0 * direction as real * PI == 2.0 * 3.1415926535897932;
    } else {
      assert 2.0 * direction as real * PI == 2.0 * (0.0 - 3.1415926535897932);
    }
  }

  lemma NegatedQuotient(c: real, p: real)
    requires p > 0.0
    ensures (0.0 - c) / p == 0.0 - c / p
  {
    assert (0.0 - c / p) * p == 0.0 - c;
  }

  lemma ClockwiseRoots(sin: real -> real, levels: nat)
    requires SineLaws(sin)
    ensures RootLaw(RootAt(sin, -1), levels)
    ensures RootOf(RootAt(sin, -1), levels) == Unit(sin, 2.0 * 3.1415926535897932 / Pow2(levels) as real)
  {
    forall b: nat ensures RootAt(sin, -1)(b) == Unit(sin, AngleOf(b)) {
      TwiddleRoots(sin, -1, b);
    }
    hide *;
    AnglesAreRoots(sin, RootAt(sin, -1), levels);
    RootAngle(sin, RootAt(sin, -1), levels);
  }

  lemma TransformIsFourier(sin: real -> real, r: seq<Complex>, x: seq<Complex>, levels: nat)
    requires SineLaws(sin) && |x| == Pow2(levels)
    requires IsTransform(r, x, RootOf(RootAt(sin, -1), levels))
    ensures IsFourier(sin, r, x)
  {
    ClockwiseRoots(sin, levels);
    hide SineLaws, Unit, FourierSum, Sum, RootOf, RootAt;
    forall k | 0 <= k < |x| ensures r[k] == FourierSum(sin, x, k, |x|) {
      SumIsFourier(sin, x, k, |x|);
    }
  }

  /** Twiddles and transform as `main` puts them together: with exact sines the kernel
      computes the discrete Fourier transform of its input, with the factors
      cos(2 pi j k / n) - i sin(2 pi j k / n). */
  method Kernel(N: int, data: array<real>, sin: real -> real) returns (halted: bool)
    requires 0 <= N <= data.Length && N <= 0x7fff_ffff && SineLaws(sin)
    modifies data
    ensures halted <==> forall levels: nat :: Pow2(levels) != N / 2
    ensures !halted ==> IsFourier(sin, View(data, N / 2), old(View(data, N / 2)))
  {
    hide Coefficient, RootLaw, TableFilled, RootOf, RootAt, SineLaws, IsFourier, IsTransform;
    var t := CalculateTwiddles(N, -1, sin);
    if !t.Table? {
      assert forall e: nat :: Pow2(e) >= 1;
      return true;
    }
    Pow2AllInjective();
    forall levels: nat ensures RootLaw(RootAt(sin, -1), levels) {
      ClockwiseRoots(sin, levels);
    }
    ghost var x := View(data, N / 2);
    var logn := TransformInternal(N, data, t.twp, RootAt(sin, -1));
    halted := logn.None?;
    if logn.Some? {
      TransformIsFourier(sin, View(data, N / 2), x, logn.value);
    }
  }
}

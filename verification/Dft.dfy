/** The mathematics behind the radix-2 FFT kernel, over exact complex numbers: the
    discrete Fourier transform as a sum, bit reversal, butterfly stages, and the theorem
    that stages applied to the bit-reversed input compute the transform. */
module Dft {
  import opened Arithmetic

  datatype Complex = C(re: real, im: real)

  const ZERO := C(0.0, 0.0)
  const ONE := C(1.0, 0.0)
  const MINUS_ONE := C(-1.0, 0.0)

  function Add(a: Complex, b: Complex): Complex { C(a.re + b.re, a.im + b.im) }

  function Sub(a: Complex, b: Complex): Complex { C(a.re - b.re, a.im - b.im) }

  function Mul(a: Complex, b: Complex): Complex {
    C(a.re * b.re - a.im * b.im, a.re * b.im + a.im * b.re)
  }

  function Power(w: Complex, k: nat): Complex {
    if k == 0 then ONE else Mul(Power(w, k - 1), w)
  }

  // ---- complex algebra ----

  lemma MulCommutes(a: Complex, b: Complex)
    ensures Mul(a, b) == Mul(b, a)
  {
  }

  lemma MulAssociates(a: Complex, b: Complex, c: Complex)
    ensures Mul(Mul(a, b), c) == Mul(a, Mul(b, c))
  {
    assert (a.re * b.re - a.im * b.im) * c.re - (a.re * b.im + a.im * b.re) * c.im
        == a.re * (b.re * c.re - b.im * c.im) - a.im * (b.re * c.im + b.im * c.re);
    assert (a.re * b.re - a.im * b.im) * c.im + (a.re * b.im + a.im * b.re) * c.re
        == a.re * (b.re * c.im + b.im * c.re) + a.im * (b.re * c.re - b.im * c.im);
  }

  lemma MulDistributes(a: Complex, b: Complex, c: Complex)
    ensures Mul(a, Add(b, c)) == Add(Mul(a, b), Mul(a, c))
  {
    assert a.re * (b.re + c.re) - a.im * (b.im + c.im) == (a.re * b.re - a.im * b.im) + (a.re * c.re - a.im * c.im);
    assert a.re * (b.im + c.im) + a.im * (b.re + c.re) == (a.re * b.im + a.im * b.re) + (a.re * c.im + a.im * c.re);
  }

  lemma AddAssociates(a: Complex, b: Complex, c: Complex)
    ensures Add(Add(a, b), c) == Add(a, Add(b, c))
  {
  }

  lemma MulUnits(a: Complex)
    ensures Mul(a, ONE) == a && Mul(ONE, a) == a && Mul(a, ZERO) == ZERO && Add(a, ZERO) == a
    ensures Mul(a, MINUS_ONE) == Sub(ZERO, a)
  {
  }

  lemma MulMinus(a: Complex, z: Complex, x: Complex)
    ensures Add(a, Mul(Sub(ZERO, z), x)) == Sub(a, Mul(z, x))
  {
    assert (0.0 - z.re) * x.re - (0.0 - z.im) * x.im == 0.0 - (z.re * x.re - z.im * x.im);
    assert (0.0 - z.re) * x.im + (0.0 - z.im) * x.re == 0.0 - (z.re * x.im + z.im * x.re);
  }

  lemma {:induction false} PowerSum(w: Complex, a: nat, b: nat)
    ensures Power(w, a + b) == Mul(Power(w, a), Power(w, b))
    decreases b
  {
    hide Mul;
    if b == 0 {
      MulUnits(Power(w, a));
    } else {
      PowerSum(w, a, b - 1);
      MulAssociates(Power(w, a), Power(w, b - 1), w);
    }
  }

  lemma {:induction false} PowerSquare(w: Complex, k: nat)
    ensures Power(Mul(w, w), k) == Mul(Power(w, k), Power(w, k))
  {
    hide Mul;
    if k == 0 {
      MulUnits(ONE);
    } else {
      var p := Power(w, k - 1);
      PowerSquare(w, k - 1);
      // (p p)(w w) == (p w)(p w)
      MulAssociates(Mul(p, p), w, w);
      MulAssociates(p, p, w);
      MulAssociates(Mul(p, w), p, w);
      MulAssociates(p, w, p);
      MulCommutes(w, p);
    }
  }

  // ---- the transform ----

  /** x[0] + x[1] z + ... + x[t-1] z^(t-1) */
  function Sum(x: seq<Complex>, z: Complex, t: nat): Complex
    requires t <= |x|
  {
    if t == 0 then ZERO else Add(Sum(x, z, t - 1), Mul(x[t - 1], Power(z, t - 1)))
  }

  /** Coefficient `k` of the discrete Fourier transform of `x` for the root `w`. */
  function Coefficient(x: seq<Complex>, w: Complex, k: nat): Complex {
    Sum(x, Power(w, k), |x|)
  }

  /** The same sum by Horner's rule, which splits into even and odd parts. */
  function Eval(x: seq<Complex>, z: Complex): Complex {
    if x == [] then ZERO else Add(x[0], Mul(z, Eval(x[1..], z)))
  }

  lemma {:induction false} SumShift(x: seq<Complex>, z: Complex, t: nat)
    requires 0 < t <= |x|
    ensures Sum(x, z, t) == Add(x[0], Mul(z, Sum(x[1..], z, t - 1)))
  {
    hide Mul, Add;
    if t == 1 {
      MulUnits(x[0]);
      MulUnits(z);
      AddCommutes(ZERO, x[0]);
      assert Sum(x, z, 0) == ZERO && Power(z, 0) == ONE;
      assert Sum(x[1..], z, 0) == ZERO;
    } else {
      SumShift(x, z, t - 1);
      var s := Sum(x[1..], z, t - 2);
      var u := Mul(x[t - 1], Power(z, t - 2));
      assert x[1..][t - 2] == x[t - 1];
      AddAssociates(x[0], Mul(z, s), Mul(x[t - 1], Power(z, t - 1)));
      MulDistributes(z, s, u);
      // x[t-1] z^(t-1) == z (x[t-1] z^(t-2))
      MulAssociates(x[t - 1], Power(z, t - 2), z);
      MulCommutes(u, z);
    }
  }

  lemma AddCommutes(a: Complex, b: Complex)
    ensures Add(a, b) == Add(b, a)
  {
  }

  lemma {:induction false} SumIsEval(x: seq<Complex>, z: Complex)
    ensures Sum(x, z, |x|) == Eval(x, z)
  {
    hide Mul, Add;
    if x != [] {
      SumShift(x, z, |x|);
      SumIsEval(x[1..], z);
    }
  }

  function Evens(x: seq<Complex>): (e: seq<Complex>)
    ensures |e| == (|x| + 1) / 2
  {
    if x == [] then [] else [x[0]] + Odds(x[1..])
  }

  function Odds(x: seq<Complex>): (o: seq<Complex>)
    ensures |o| == |x| / 2
  {
    if x == [] then [] else Evens(x[1..])
  }

  lemma {:induction false} EvensOddsAt(x: seq<Complex>, i: nat)
    ensures 2 * i < |x| ==> Evens(x)[i] == x[2 * i]
    ensures 2 * i + 1 < |x| ==> Odds(x)[i] == x[2 * i + 1]
    decreases |x|
  {
    if x != [] {
      EvensOddsAt(x[1..], i);
      if i > 0 {
        EvensOddsAt(x[1..], i - 1);
      }
    }
  }

  /** P(z) == Peven(z^2) + z Podd(z^2) */
  lemma {:induction false} EvalSplits(x: seq<Complex>, z: Complex)
    ensures Eval(x, z) == Add(Eval(Evens(x), Mul(z, z)), Mul(z, Eval(Odds(x), Mul(z, z))))
  {
    hide Mul, Add;
    if x == [] {
      MulUnits(z);
      MulUnits(ZERO);
    } else {
      EvalSplits(x[1..], z);
      var zz := Mul(z, z);
      var e, o := Eval(Evens(x[1..]), zz), Eval(Odds(x[1..]), zz);
      assert Evens(x)[1..] == Odds(x[1..]);
      assert Eval(Evens(x), zz) == Add(x[0], Mul(zz, o));
      MulDistributes(z, e, Mul(z, o));
      MulAssociates(z, z, o);
      AddCommutes(Mul(z, e), Mul(zz, o));
      AddAssociates(x[0], Mul(zz, o), Mul(z, e));
    }
  }

  // ---- roots of unity ----

  /** `root(b)` is a root of order 2^(b+1): the first is -1, squares step down. */
  ghost predicate RootLaw(root: nat -> Complex, levels: nat) {
    && root(0) == MINUS_ONE
    && forall b: nat :: b + 1 < levels ==> Mul(root(b + 1), root(b + 1)) == root(b)
  }

  /** The root of order 2^levels. */
  function RootOf(root: nat -> Complex, levels: nat): Complex {
    if levels == 0 then ONE else root(levels - 1)
  }

  /** w^(2^b) == -1 for a root w of order 2^(b+1) */
  lemma {:induction false} HalfTurn(root: nat -> Complex, b: nat)
    requires RootLaw(root, b + 1)
    ensures Power(root(b), Pow2(b)) == MINUS_ONE
  {
    hide Mul;
    if b == 0 {
      assert Power(root(0), 1) == Mul(Power(root(0), 0), root(0));
      MulUnits(root(0));
    } else {
      HalfTurn(root, b - 1);
      PowerSquare(root(b), Pow2(b - 1));
      PowerSum(root(b), Pow2(b - 1), Pow2(b - 1));
    }
  }

  // ---- stages ----

  function Sums(e: seq<Complex>, o: seq<Complex>, w: Complex): (r: seq<Complex>)
    requires |e| == |o|
    ensures |r| == |e| && forall k :: 0 <= k < |e| ==> r[k] == Add(e[k], Mul(Power(w, k), o[k]))
  {
    hide Power, Mul, Add;
    seq(|e|, k requires 0 <= k < |e| => Add(e[k], Mul(Power(w, k), o[k])))
  }

  function Differences(e: seq<Complex>, o: seq<Complex>, w: Complex): (r: seq<Complex>)
    requires |e| == |o|
    ensures |r| == |e| && forall k :: 0 <= k < |e| ==> r[k] == Sub(e[k], Mul(Power(w, k), o[k]))
  {
    hide Power, Mul, Sub;
    seq(|e|, k requires 0 <= k < |e| => Sub(e[k], Mul(Power(w, k), o[k])))
  }

  function Butterfly(e: seq<Complex>, o: seq<Complex>, w: Complex): (r: seq<Complex>)
    requires |e| == |o|
    ensures |r| == 2 * |e|
  {
    Sums(e, o, w) + Differences(e, o, w)
  }

  /** One stage: a butterfly on every block of `2 * dual` entries. */
  function Stage(y: seq<Complex>, dual: nat, w: Complex): (r: seq<Complex>)
    requires dual > 0
    ensures |r| == |y|
  {
    if |y| < 2 * dual then y
    else Butterfly(y[..dual], y[dual..2 * dual], w) + Stage(y[2 * dual..], dual, w)
  }

  /** `count` stages from level `from` on, with the root of each level. */
  function Stages(y: seq<Complex>, root: nat -> Complex, from: nat, count: nat): (r: seq<Complex>)
    ensures |r| == |y|
    decreases count
  {
    if count == 0 then y else Stages(Stage(y, Pow2(from), root(from)), root, from + 1, count - 1)
  }

  lemma {:induction false} StageAppend(y1: seq<Complex>, y2: seq<Complex>, dual: nat, w: Complex, c: nat)
    requires dual > 0 && |y1| == c * (2 * dual)
    ensures Stage(y1 + y2, dual, w) == Stage(y1, dual, w) + Stage(y2, dual, w)
    decreases c
  {
    if c == 0 {
      assert y1 == [] && y1 + y2 == y2;
    } else {
      assert |y1| == (c - 1) * (2 * dual) + 2 * dual;
      var y := y1 + y2;
      assert y[..dual] == y1[..dual] && y[dual..2 * dual] == y1[dual..2 * dual];
      assert y[2 * dual..] == y1[2 * dual..] + y2;
      StageAppend(y1[2 * dual..], y2, dual, w, c - 1);
    }
  }

  /** Stages that fit in the halves work on each half alone. */
  lemma {:induction false} StagesAppend(y1: seq<Complex>, y2: seq<Complex>, root: nat -> Complex, from: nat, count: nat)
    requires |y1| == Pow2(from + count)
    ensures Stages(y1 + y2, root, from, count) == Stages(y1, root, from, count) + Stages(y2, root, from, count)
    decreases count
  {
    hide Stage;
    if count > 0 {
      var dual := Pow2(from);
      Pow2Sum(count - 1, from + 1);
      StageAppend(y1, y2, dual, root(from), Pow2(count - 1));
      StagesAppend(Stage(y1, dual, root(from)), Stage(y2, dual, root(from)), root, from + 1, count - 1);
    }
  }

  lemma {:induction false} StagesLast(y: seq<Complex>, root: nat -> Complex, from: nat, count: nat)
    ensures Stages(y, root, from, count + 1)
         == Stage(Stages(y, root, from, count), Pow2(from + count), root(from + count))
    decreases count
  {
    hide Stage;
    if count > 0 {
      StagesLast(Stage(y, Pow2(from), root(from)), root, from + 1, count - 1);
    } else {
      assert Stages(Stage(y, Pow2(from), root(from)), root, from + 1, 0) == Stage(y, Pow2(from), root(from));
    }
  }

  /** The bit-reversed arrangement: first the evens, then the odds, each bit-reversed. */
  function BitReversed(levels: nat, x: seq<Complex>): (r: seq<Complex>)
    requires |x| == Pow2(levels)
    ensures |r| == |x|
  {
    if levels == 0 then x
    else BitReversed(levels - 1, Evens(x)) + BitReversed(levels - 1, Odds(x))
  }

  /** Both halves of a butterfly of two transforms are coefficients of the whole. */
  lemma CoefficientSplits(x: seq<Complex>, root: nat -> Complex, b: nat, k: nat)
    requires |x| == Pow2(b + 1) && RootLaw(root, b + 1) && k < Pow2(b)
    ensures var w := root(b); var v := RootOf(root, b);
      var e, o := Coefficient(Evens(x), v, k), Coefficient(Odds(x), v, k);
      && Coefficient(x, w, k) == Add(e, Mul(Power(w, k), o))
      && Coefficient(x, w, k + Pow2(b)) == Sub(e, Mul(Power(w, k), o))
  {
    var w, v, m := root(b), RootOf(root, b), Pow2(b);
    SquareIsRoot(root, b);
    HalfTurn(root, b);
    hide Mul, Add, RootOf, Evens, Odds, Sub;
    var z, z1 := Power(w, k), Power(w, k + m);
    SumIsEval(x, z);
    EvalSplits(x, z);
    SumIsEval(x, z1);
    EvalSplits(x, z1);
    SumIsEval(Evens(x), Power(v, k));
    SumIsEval(Odds(x), Power(v, k));
    PowerSquare(w, k);
    PowerSum(w, k, m);
    MulUnits(z);
    assert z1 == Sub(ZERO, z);
    SquareOfMinus(z);
    MulMinus(Eval(Evens(x), Power(v, k)), z, Eval(Odds(x), Power(v, k)));
  }

  lemma SquareOfMinus(z: Complex)
    ensures Mul(Sub(ZERO, z), Sub(ZERO, z)) == Mul(z, z)
  {
  }

  lemma SquareIsRoot(root: nat -> Complex, b: nat)
    requires RootLaw(root, b + 1)
    ensures Mul(root(b), root(b)) == RootOf(root, b)
  {
  }

  /** All but the last stage transform the two halves; the last one combines them. */
  lemma StagesSplit(x: seq<Complex>, root: nat -> Complex, b: nat)
    requires |x| == Pow2(b + 1)
    ensures var y1, y2 := BitReversed(b, Evens(x)), BitReversed(b, Odds(x));
      Stages(BitReversed(b + 1, x), root, 0, b + 1)
        == Butterfly(Stages(y1, root, 0, b), Stages(y2, root, 0, b), root(b))
  {
    hide Evens, Odds, Stages, Butterfly;
    var m := Pow2(b);
    var y1, y2 := BitReversed(b, Evens(x)), BitReversed(b, Odds(x));
    var s1, s2 := Stages(y1, root, 0, b), Stages(y2, root, 0, b);
    StagesLast(y1 + y2, root, 0, b);
    StagesAppend(y1, y2, root, 0, b);
    assert (s1 + s2)[..m] == s1 && (s1 + s2)[m..2 * m] == s2 && (s1 + s2)[2 * m..] == [];
    assert Stage(s1 + s2, m, root(b)) == Butterfly(s1, s2, root(b)) + [];
  }

  /** The radix-2 algorithm: all stages, applied to the bit-reversed input, give the
      discrete Fourier transform, for every length 2^levels and every input. */
  lemma {:induction false} StagesComputeDft(x: seq<Complex>, root: nat -> Complex, levels: nat, k: nat)
    requires |x| == Pow2(levels) && RootLaw(root, levels) && k < |x|
    ensures Stages(BitReversed(levels, x), root, 0, levels)[k] == Coefficient(x, RootOf(root, levels), k)
    decreases levels
  {
    hide *;
    if levels == 0 {
      SingleStages(x, root);
    } else {
      var b := levels - 1;
      var m := Pow2(b);
      HalvesOf(x, b);
      StagesSplit(x, root, b);
      var j := if k < m then k else k - m;
      RootBelow(root, b);
      StagesComputeDft(Evens(x), root, b, j);
      StagesComputeDft(Odds(x), root, b, j);
      CoefficientSplits(x, root, b, j);
      var e, o := BitReversed(b, Evens(x)), BitReversed(b, Odds(x));
      ButterflyAt(Stages(e, root, 0, b), Stages(o, root, 0, b), root(b), j);
    }
  }

  lemma HalvesOf(x: seq<Complex>, b: nat)
    requires |x| == Pow2(b + 1)
    ensures |Evens(x)| == |Odds(x)| == Pow2(b) && |x| == 2 * Pow2(b)
  {
  }

  lemma ButterflyAt(e: seq<Complex>, o: seq<Complex>, w: Complex, k: nat)
    requires |e| == |o| && k < |e|
    ensures Butterfly(e, o, w)[k] == Add(e[k], Mul(Power(w, k), o[k]))
    ensures Butterfly(e, o, w)[k + |e|] == Sub(e[k], Mul(Power(w, k), o[k]))
  {
    hide Power, Mul, Add, Sub;
  }

  lemma RootBelow(root: nat -> Complex, b: nat)
    requires RootLaw(root, b + 1)
    ensures RootLaw(root, b) && RootOf(root, b + 1) == root(b)
  {
  }

  lemma SingleStages(x: seq<Complex>, root: nat -> Complex)
    requires |x| == Pow2(0)
    ensures |x| == 1 && Stages(BitReversed(0, x), root, 0, 0)[0] == Coefficient(x, RootOf(root, 0), 0)
  {
    SingleCoefficient(x);
  }

  lemma SingleCoefficient(x: seq<Complex>)
    requires |x| == 1
    ensures Coefficient(x, ONE, 0) == x[0]
  {
    SumIsEval(x, ONE);
    assert Eval(x[1..], ONE) == ZERO;
    MulUnits(ONE);
    MulUnits(x[0]);
  }
}

/** The laws of the sine, the points on the unit circle they give, and the discrete Fourier
    transform written with angles. */
module Sine {
  import opened Arithmetic
  import opened Dft

  // ---- the laws ----

  /** The cosine: the sine of what is left to a quarter turn. */
  function Cosine(sin: real -> real, x: real): real { sin(1.5707963267948966 - x) }

  ghost predicate OddAt(sin: real -> real, x: real) { sin(0.0 - x) == 0.0 - sin(x) }

  ghost predicate AdditionAt(sin: real -> real, x: real, y: real) {
    sin(x + y) == sin(x) * Cosine(sin, y) + Cosine(sin, x) * sin(y)
  }

  /** Odd, one at a quarter turn, and the law of addition. */
  ghost predicate SineLaws(sin: real -> real) {
    && sin(1.5707963267948966) == 1.0
    && (forall x :: OddAt(sin, x))
    && forall x, y :: AdditionAt(sin, x, y)
  }

  lemma AtZero(sin: real -> real)
    requires SineLaws(sin)
    ensures sin(0.0) == 0.0 && Cosine(sin, 0.0) == 1.0 && Cosine(sin, 1.5707963267948966) == 0.0
  {
    assert OddAt(sin, 0.0);
  }

  lemma CosineEven(sin: real -> real, x: real)
    requires SineLaws(sin)
    ensures Cosine(sin, 0.0 - x) == Cosine(sin, x)
  {
    AtZero(sin);
    var q := 1.5707963267948966;
    assert AdditionAt(sin, q, x);
    assert q - (0.0 - x) == q + x;
  }

  lemma CosineSum(sin: real -> real, x: real, y: real)
    requires SineLaws(sin)
    ensures Cosine(sin, x + y) == Cosine(sin, x) * Cosine(sin, y) - sin(x) * sin(y)
  {
    var q := 1.5707963267948966;
    CosineEven(sin, y);
    assert OddAt(sin, y);
    assert AdditionAt(sin, q - x, 0.0 - y);
    assert q - (x + y) == (q - x) + (0.0 - y);
    assert q - (q - x) == x;
  }

  /** sin^2 + cos^2 == 1, and 1 - 2 sin^2 of the half is the cosine. */
  lemma HalfAngle(sin: real -> real, x: real)
    requires SineLaws(sin)
    ensures Cosine(sin, x) == 1.0 - 2.0 * sin(x * 0.5) * sin(x * 0.5)
  {
    var h := x * 0.5;
    AtZero(sin);
    CosineSum(sin, h, h);
    CosineSum(sin, h, 0.0 - h);
    CosineEven(sin, h);
    assert OddAt(sin, h);
    assert h + h == x && h + (0.0 - h) == 0.0;
  }

  // ---- the unit circle ----

  /** The point at angle -x. */
  function Unit(sin: real -> real, x: real): Complex { C(Cosine(sin, x), 0.0 - sin(x)) }

  lemma UnitSum(sin: real -> real, x: real, y: real)
    requires SineLaws(sin)
    ensures Mul(Unit(sin, x), Unit(sin, y)) == Unit(sin, x + y)
  {
    CosineSum(sin, x, y);
    assert AdditionAt(sin, x, y);
  }

  lemma UnitTurns(sin: real -> real)
    requires SineLaws(sin)
    ensures Unit(sin, 0.0) == ONE
    ensures Unit(sin, 3.1415926535897932) == MINUS_ONE
    ensures Unit(sin, 2.0 * 3.1415926535897932) == ONE
  {
    hide *;
    var q := 1.5707963267948966;
    UnitQuarter(sin);
    UnitSum(sin, q, q);
    UnitSum(sin, q + q, q + q);
    assert q + q == 3.1415926535897932 && 3.1415926535897932 + 3.1415926535897932 == 2.0 * 3.1415926535897932;
    Squares();
  }

  lemma UnitQuarter(sin: real -> real)
    requires SineLaws(sin)
    ensures Unit(sin, 0.0) == ONE && Unit(sin, 1.5707963267948966) == C(0.0, -1.0)
  {
    AtZero(sin);
  }

  lemma Squares()
    ensures Mul(C(0.0, -1.0), C(0.0, -1.0)) == MINUS_ONE && Mul(MINUS_ONE, MINUS_ONE) == ONE
  {
  }

  /** De Moivre. */
  lemma {:induction false} UnitPower(sin: real -> real, x: real, k: nat, y: real)
    requires SineLaws(sin) && y == k as real * x
    ensures Power(Unit(sin, x), k) == Unit(sin, y)
    decreases k
  {
    hide Unit, Mul, SineLaws;
    UnitTurns(sin);
    if k > 0 {
      OneMoreTimes(k, x);
      UnitPower(sin, x, k - 1, y - x);
      UnitSum(sin, y - x, x);
    }
  }

  lemma OneMoreTimes(k: nat, x: real)
    requires k > 0
    ensures (k - 1) as real * x == k as real * x - x
  {
    assert k as real == (k - 1) as real + 1.0;
  }

  // ---- the transform with angles ----

  /** The factor of term `j` of coefficient `k` for `n` points: e^(-2 pi i j k / n). */
  function Factor(sin: real -> real, n: nat, j: nat, k: nat): Complex
    requires n > 0
  {
    var x := 2.0 * 3.1415926535897932 * (j * k) as real / n as real;
    C(Cosine(sin, x), 0.0 - sin(x))
  }

  /** x[0] e^0 + x[1] e^(-2 pi i k / n) + ... , `t` terms. */
  function FourierSum(sin: real -> real, x: seq<Complex>, k: nat, t: nat): Complex
    requires t <= |x|
  {
    if t == 0 then ZERO
    else Add(FourierSum(sin, x, k, t - 1), Mul(x[t - 1], Factor(sin, |x|, t - 1, k)))
  }

  /** `r` is the discrete Fourier transform of `x`. */
  ghost predicate IsFourier(sin: real -> real, r: seq<Complex>, x: seq<Complex>) {
    |r| == |x| && forall k :: 0 <= k < |x| ==> r[k] == FourierSum(sin, x, k, |x|)
  }

  /** The root of a level, written with angles. */
  function AngleOf(bit: nat): real { 3.1415926535897932 / Pow2(bit) as real }

  lemma HalfOf(bit: nat)
    ensures AngleOf(bit + 1) + AngleOf(bit + 1) == AngleOf(bit) && AngleOf(0) == 3.1415926535897932
  {
    assert Pow2(bit + 1) as real == 2.0 * Pow2(bit) as real;
  }

  /** Factors that lie at these angles obey the root law. */
  lemma AnglesAreRoots(sin: real -> real, root: nat -> Complex, levels: nat)
    requires SineLaws(sin) && forall b: nat :: root(b) == Unit(sin, AngleOf(b))
    ensures RootLaw(root, levels)
  {
    hide Unit, AngleOf, SineLaws;
    UnitTurns(sin);
    HalfOf(0);
    forall b: nat | b + 1 < levels ensures Mul(root(b + 1), root(b + 1)) == root(b) {
      UnitSum(sin, AngleOf(b + 1), AngleOf(b + 1));
      HalfOf(b);
    }
  }

  lemma RootAngle(sin: real -> real, root: nat -> Complex, levels: nat)
    requires SineLaws(sin) && forall b: nat :: root(b) == Unit(sin, AngleOf(b))
    ensures RootOf(root, levels) == Unit(sin, 2.0 * 3.1415926535897932 / Pow2(levels) as real)
  {
    hide Unit, SineLaws, AngleOf, Pow2;
    UnitTurns(sin);
    if levels > 0 {
      TwiceOver(levels);
    } else {
      WholeTurn();
    }
  }

  lemma TwiceOver(levels: nat)
    requires levels > 0
    ensures AngleOf(levels - 1) == 2.0 * 3.1415926535897932 / Pow2(levels) as real
  {
    assert Pow2(levels) as real == 2.0 * Pow2(levels - 1) as real;
    SameQuotient(3.1415926535897932, Pow2(levels - 1) as real);
  }

  lemma SameQuotient(c: real, p: real)
    requires p > 0.0
    ensures c / p == 2.0 * c / (2.0 * p)
  {
    assert c / p * (2.0 * p) == 2.0 * c;
  }

  lemma WholeTurn()
    ensures 2.0 * 3.1415926535897932 / Pow2(0) as real == 2.0 * 3.1415926535897932
  {
    assert Pow2(0) as real == 1.0;
  }

  lemma FactorIsPower(sin: real -> real, n: nat, j: nat, k: nat)
    requires SineLaws(sin) && n > 0
    ensures Power(Power(Unit(sin, 2.0 * 3.1415926535897932 / n as real), k), j) == Factor(sin, n, j, k)
  {
    var x := 2.0 * 3.1415926535897932 / n as real;
    FactorIsUnit(sin, n, j, k);
    hide *;
    TimesTwice(j, k, n);
    UnitPower(sin, x, k, k as real * x);
    UnitPower(sin, k as real * x, j, 2.0 * 3.1415926535897932 * (j * k) as real / n as real);
  }

  lemma FactorIsUnit(sin: real -> real, n: nat, j: nat, k: nat)
    requires n > 0
    ensures Factor(sin, n, j, k) == Unit(sin, 2.0 * 3.1415926535897932 * (j * k) as real / n as real)
  {
  }

  lemma TimesTwice(j: nat, k: nat, n: nat)
    requires n > 0
    ensures j as real * (k as real * (2.0 * 3.1415926535897932 / n as real))
         == 2.0 * 3.1415926535897932 * (j * k) as real / n as real
  {
    RealProduct(j, k);
    var a, b, c := j as real, k as real, 2.0 * 3.1415926535897932;
    assert c / n as real * n as real == c;
    assert a * (b * (c / n as real)) * n as real == a * b * c;
  }

  lemma {:induction false} RealProduct(j: nat, k: nat)
    ensures (j * k) as real == j as real * k as real
  {
    if j > 0 {
      RealProduct(j - 1, k);
      assert j * k == (j - 1) * k + k;
      assert j as real == (j - 1) as real + 1.0;
      assert j as real * k as real == (j - 1) as real * k as real + k as real;
    }
  }

  lemma {:induction false} SumIsFourier(sin: real -> real, x: seq<Complex>, k: nat, t: nat)
    requires SineLaws(sin) && t <= |x|
    ensures x != [] ==>
      Sum(x, Power(Unit(sin, 2.0 * 3.1415926535897932 / |x| as real), k), t) == FourierSum(sin, x, k, t)
  {
    hide SineLaws, Unit, Mul, Add, Factor;
    if t > 0 {
      SumIsFourier(sin, x, k, t - 1);
      FactorIsPower(sin, |x|, t - 1, k);
    }
  }
}

/** The linear congruential generator behind the `crc32_seed` value stream: it has full
    period in every number of low bits, so no window of the stream repeats a value. */
module Lcg {
  import opened Arithmetic

  const A: int := 0x41c64e6d
  const INCREMENT: int := 0x3039
  const OUTER: nat := 170
  const INNER: nat := 1024

  /** One step, reduced to 31 bits. */
  function Next(seed: int): (r: nat)
    ensures r < 0x8000_0000
  {
    (seed * A + INCREMENT) % 0x8000_0000
  }

  function Iterate(seed: int, n: nat): int {
    if n == 0 then seed else Next(Iterate(seed, n - 1))
  }

  // ---- divisibility by powers of two ----

  /** 2^k divides `x`, digit by digit. */
  predicate Divides(k: nat, x: int) {
    k == 0 || (x % 2 == 0 && Divides(k - 1, x / 2))
  }

  lemma {:induction false} DividesIsMod(k: nat, x: int)
    ensures Divides(k, x) <==> x % Pow2(k) == 0
  {
    if k > 0 {
      DividesIsMod(k - 1, x / 2);
      DoubleMod(x, Pow2(k - 1));
    }
  }

  lemma DoubleMod(x: int, p: nat)
    requires p > 0
    ensures x % (2 * p) == 0 <==> x % 2 == 0 && (x / 2) % p == 0
  {
    if x % (2 * p) == 0 {
      var q := x / (2 * p);
      assert x == q * (2 * p) == 2 * (q * p);
      DivisionUnique(x / 2, p, q, 0);
    }
    if x % 2 == 0 && (x / 2) % p == 0 {
      var q := (x / 2) / p;
      assert x == 2 * (q * p) == q * (2 * p);
      DivisionUnique(x, 2 * p, q, 0);
    }
  }

  /** An odd factor does not matter. */
  lemma {:induction false} OddFactor(k: nat, odd: int, x: int)
    requires odd % 2 == 1
    ensures Divides(k, Times(odd, x)) <==> Divides(k, x)
  {
    hide Times;
    if k > 0 {
      TimesParity(odd, x);
      if x % 2 == 0 {
        OddFactor(k - 1, odd, x / 2);
      }
    }
  }

  lemma TimesParity(odd: int, x: int)
    requires odd % 2 == 1
    ensures Times(odd, x) % 2 == x % 2
    ensures x % 2 == 0 ==> Times(odd, x) == 2 * Times(odd, x / 2)
  {
    hide Times;
    var h, y := odd / 2, x / 2;
    TimesEven(h, x);
    assert odd == 2 * h + 1;
    if x % 2 == 0 {
      assert x == y + y;
      TimesSum(odd, y, y);
    }
  }

  // ---- the unreduced generator ----

  /** 1 + a + ... + a^(n-1) */
  function Geometric(a: int, n: nat): int {
    if n == 0 then 0 else Times(a, Geometric(a, n - 1)) + 1
  }

  function Power(a: int, n: nat): int {
    if n == 0 then 1 else Times(a, Power(a, n - 1))
  }

  /** The generator without reduction. */
  function Unreduced(a: int, c: int, x: int, n: nat): int {
    if n == 0 then x else Times(a, Unreduced(a, c, x, n - 1)) + c
  }

  /** `n` steps without reduction move a seed by a multiple of its first move. */
  lemma {:induction false} UnreducedMoves(a: int, c: int, x: int, n: nat)
    ensures Unreduced(a, c, x, n) == x + Times(Geometric(a, n), Times(a - 1, x) + c)
  {
    hide Times;
    var d := Times(a - 1, x) + c;
    if n == 0 {
      TimesUnits(d);
    } else {
      UnreducedMoves(a, c, x, n - 1);
      var g := Geometric(a, n - 1);
      TimesSum(a, x, Times(g, d));
      TimesSwap(a, g, d);
      TimesSum(d, Times(a, g), 1);
      TimesUnits(d);
      TimesSum(x, a - 1, 1);
      TimesUnits(x);
    }
  }

  lemma {:induction false} GeometricSum(a: int, m: nat, n: nat)
    ensures Geometric(a, m + n) == Times(Geometric(a, m), Power(a, n)) + Geometric(a, n)
    decreases n
  {
    hide Times;
    if n == 0 {
      TimesUnits(Geometric(a, m));
    } else {
      GeometricSum(a, m, n - 1);
      var s, p := Geometric(a, m), Power(a, n - 1);
      TimesSum(a, Times(s, p), Geometric(a, n - 1));
      TimesSwap(a, s, p);
    }
  }

  /** Powers of a number that is one above a multiple of four are such numbers. */
  lemma {:induction false} PowerIsOneMod4(i: int, n: nat) returns (j: int)
    ensures Power(4 * i + 1, n) == 4 * j + 1
  {
    hide Times;
    if n == 0 {
      j := 0;
    } else {
      var j0 := PowerIsOneMod4(i, n - 1);
      ProductIsOneMod4(i, j0);
      j := 4 * Times(i, j0) + i + j0;
    }
  }

  lemma ProductIsOneMod4(i: int, j: int)
    ensures Times(4 * i + 1, 4 * j + 1) == 4 * (4 * Times(i, j) + i + j) + 1
  {
    assert (4 * i + 1) * (4 * j + 1) == (4 * i) * (4 * j + 1) + (4 * j + 1);
    assert (4 * i) * (4 * j + 1) == 4 * (i * (4 * j)) + 4 * i;
    assert i * (4 * j) == 4 * (i * j);
  }

  lemma {:induction false} GeometricParity(h: int, n: nat) returns (q: int)
    ensures Geometric(2 * h + 1, n) == n + 2 * q
  {
    hide Times;
    if n == 0 {
      q := 0;
    } else {
      var q0 := GeometricParity(h, n - 1);
      var g := Geometric(2 * h + 1, n - 1);
      TimesEven(h, g);
      q := Times(h, g) + q0;
    }
  }

  /** The sum of n powers has exactly as many factors two as n. */
  lemma {:induction false} GeometricDivides(k: nat, i: int, n: nat)
    ensures Divides(k, Geometric(4 * i + 1, n)) <==> Divides(k, n)
    decreases k
  {
    hide Geometric, Times, Divides;
    if k == 0 {
      NothingDivides(n);
      NothingDivides(Geometric(4 * i + 1, n));
    } else {
      var a, m := 4 * i + 1, n / 2;
      var q := GeometricParity(2 * i, n);
      assert 2 * (2 * i) + 1 == a;
      if n % 2 == 0 {
        assert n == 2 * m;
        var half := GeometricDouble(i, m);
        HalfDivides(k, Geometric(a, n), Times(half, Geometric(a, m)));
        HalfDivides(k, n, m);
        OddFactor(k - 1, half, Geometric(a, m));
        GeometricDivides(k - 1, i, m);
      } else {
        OddDividesNot(k, n);
        OddDividesNot(k, Geometric(a, n));
      }
    }
  }

  lemma NothingDivides(x: int)
    ensures Divides(0, x)
  {
  }

  lemma HalfDivides(k: nat, x: int, h: int)
    requires k > 0 && x == 2 * h
    ensures Divides(k, x) <==> Divides(k - 1, h)
  {
    assert x / 2 == h;
  }

  lemma OddDividesNot(k: nat, x: int)
    requires k > 0 && x % 2 == 1
    ensures !Divides(k, x)
  {
  }

  /** Doubling the length doubles the sum, up to an odd factor. */
  lemma GeometricDouble(i: int, m: nat) returns (odd: int)
    ensures odd % 2 == 1 && Geometric(4 * i + 1, 2 * m) == 2 * Times(odd, Geometric(4 * i + 1, m))
  {
    hide Geometric, Power, Times;
    var a := 4 * i + 1;
    GeometricSum(a, m, m);
    var j := PowerIsOneMod4(i, m);
    odd := 2 * j + 1;
    DoubleOdd(Geometric(a, m), j);
  }

  lemma DoubleOdd(g: int, j: int)
    ensures Times(g, 4 * j + 1) + g == 2 * Times(2 * j + 1, g)
  {
    assert g * (4 * j + 1) == 4 * (g * j) + g;
    assert (2 * j + 1) * g == 2 * (j * g) + g;
  }

  // ---- the period ----

  lemma NextIs(x: int) returns (w: int)
    ensures Next(x) == Times(A, x) + INCREMENT - 0x8000_0000 * w
  {
    w := (x * A + INCREMENT) / 0x8000_0000;
  }

  lemma StepKeepsDifference(a: int, y: int, q: int)
    ensures Times(a, y + 0x8000_0000 * q) == Times(a, y) + 0x8000_0000 * Times(a, q)
  {
    assert a * (y + 0x8000_0000 * q) == a * y + a * (0x8000_0000 * q);
    assert a * (0x8000_0000 * q) == 0x8000_0000 * (a * q);
  }

  /** The reduced generator agrees with the unreduced one in its low bits. */
  lemma {:induction false} IterateIsUnreduced(seed: int, n: nat) returns (q: int)
    ensures Iterate(seed, n) == Unreduced(A, INCREMENT, seed, n) + 0x8000_0000 * q
  {
    hide Next, Times;
    if n == 0 {
      q := 0;
    } else {
      var q0 := IterateIsUnreduced(seed, n - 1);
      var w := NextIs(Iterate(seed, n - 1));
      StepKeepsDifference(A, Unreduced(A, INCREMENT, seed, n - 1), q0);
      q := Times(A, q0) - w;
    }
  }

  lemma {:induction false} IterateSum(seed: int, m: nat, n: nat)
    ensures Iterate(seed, m + n) == Iterate(Iterate(seed, m), n)
    decreases n
  {
    hide Next;
    if n > 0 {
      IterateSum(seed, m, n - 1);
    }
  }

  lemma {:induction false} DividesSum(k: nat, x: int, y: int)
    requires Divides(k, x)
    ensures Divides(k, y) <==> Divides(k, x + y)
  {
    if k > 0 && y % 2 == 0 {
      DividesSum(k - 1, x / 2, y / 2);
      assert (x + y) / 2 == x / 2 + y / 2;
    }
  }

  lemma {:induction false} DividesLess(j: nat, k: nat, x: int)
    requires j <= k && Divides(k, x)
    ensures Divides(j, x)
  {
    if j > 0 {
      DividesLess(j - 1, k - 1, x / 2);
    }
  }

  lemma DividesPow31(x: int)
    ensures Divides(31, x) <==> x % 0x8000_0000 == 0
  {
    hide Divides, Pow2;
    DividesIsMod(31, x);
    WordPowers();
  }

  lemma FirstMoveOdd(a: int, c: int, seed: int)
    requires a % 2 == 1 && c % 2 == 1
    ensures (Times(a - 1, seed) + c) % 2 == 1
  {
    hide Times;
    assert a - 1 == 2 * (a / 2);
    TimesEven(a / 2, seed);
  }

  /** Full period, in terms of factors two. */
  lemma FullPeriodDivides(k: nat, seed: int, n: nat)
    requires k <= 31
    ensures Divides(k, Iterate(seed, n) - seed) <==> Divides(k, n)
  {
    hide Iterate, Unreduced, Geometric, Divides, Times;
    var u, x := Unreduced(A, INCREMENT, seed, n), Iterate(seed, n);
    var first, g := Times(A - 1, seed) + INCREMENT, Geometric(A, n);
    var q := IterateIsUnreduced(seed, n);
    DividesPow31(x - u);
    DividesLess(k, 31, x - u);
    UnreducedMoves(A, INCREMENT, seed, n);
    FirstMoveOdd(A, INCREMENT, seed);
    OddFactor(k, first, g);
    TimesTurned(first, g);
    GeometricDivides(k, 0x1071_939b, n);
    DividesSum(k, x - u, u - seed);
  }

  lemma TimesTurned(a: int, b: int)
    ensures Times(a, b) == Times(b, a)
  {
  }

  /** Full period: in its k low bits (k <= 31) the generator returns to where it was
      exactly after multiples of 2^k steps, from every seed. */
  lemma FullPeriod(k: nat, seed: int, n: nat)
    requires k <= 31
    ensures (Iterate(seed, n) - seed) % Pow2(k) == 0 <==> n % Pow2(k) == 0
  {
    hide *;
    FullPeriodDivides(k, seed, n);
    DividesIsMod(k, Iterate(seed, n) - seed);
    DividesIsMod(k, n);
  }

  /** Fewer than 2^31 steps apart, two iterates of a seed are different. */
  lemma IteratesDistinct(seed: int, i: nat, j: nat)
    requires i < j < i + 0x8000_0000
    ensures Iterate(seed, i) != Iterate(seed, j)
  {
    hide *;
    IterateSum(seed, i, j - i);
    FullPeriodDivides(31, Iterate(seed, i), j - i);
    DividesPow31(j - i);
    DividesPow31(0);
  }

  // ---- the stream ----

  /** Value `t` of the stream: every 1024 values the seed starts again from zero. */
  function SeedAt(t: nat): int { Iterate(0, t % INNER + 1) }

  /** The stream is that of the C library's old generator, with 31 bits. */
  lemma StreamRecurrence(t: nat)
    ensures t % 1024 == 0 ==> SeedAt(t) == 12345
    ensures (t + 1) % 1024 != 0 ==> SeedAt(t + 1) == (1103515245 * SeedAt(t) + 12345) % 0x8000_0000
  {
    if (t + 1) % 1024 != 0 {
      NextPlace(t);
    }
    assert Iterate(0, 0) == 0;
  }

  lemma NextPlace(t: nat)
    requires (t + 1) % 1024 != 0
    ensures (t + 1) % 1024 == t % 1024 + 1
  {
  }

  /** Every window of 1024 values is free of repetitions, and the windows are alike. */
  lemma SeedWindow(s: nat, t: nat)
    ensures SeedAt(s) == SeedAt(t) <==> s % INNER == t % INNER
  {
    hide Iterate;
    var i, j := s % INNER, t % INNER;
    if i < j {
      IteratesDistinct(0, i + 1, j + 1);
    } else if j < i {
      IteratesDistinct(0, j + 1, i + 1);
    }
  }

  /** `stream_crc32_seed`; for n <= 0 the length test after the first value returns it. */
  method StreamCrc32Seed(n: int) returns (out: seq<int>)
    ensures |out| == if n < 1 then 1 else if n < OUTER * INNER then n else OUTER * INNER
    ensures forall t :: 0 <= t < |out| ==> out[t] == SeedAt(t)
  {
    hide Next;
    out := [];
    for outer := 0 to OUTER
      invariant |out| == outer * INNER && (outer > 0 ==> |out| < n)
      invariant forall t :: 0 <= t < |out| ==> out[t] == SeedAt(t)
    {
      var seed := 0;
      for inner := 0 to INNER
        invariant |out| == outer * INNER + inner && (|out| > 0 ==> |out| < n)
        invariant seed == Iterate(0, inner)
        invariant forall t :: 0 <= t < |out| ==> out[t] == SeedAt(t)
      {
        seed := Next(seed);
        assert (outer * INNER + inner) % INNER == inner;
        out := out + [seed];
        if |out| >= n {
          return;
        }
      }
    }
    // The closing slice `out[:n]` keeps everything: all loops were run and n is larger.
    assert |out| < n;
  }
}

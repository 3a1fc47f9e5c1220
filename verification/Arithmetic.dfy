/** Powers of two and the few facts about products and remainders that the solver does
    not find by itself. */
module Arithmetic {

  function Pow2(k: nat): (p: nat)
    ensures p >= 1
  {
    if k == 0 then 1 else 2 * Pow2(k - 1)
  }

  lemma {:induction false} Pow2Sum(a: nat, b: nat)
    ensures Pow2(a + b) == Pow2(a) * Pow2(b)
  {
    if a != 0 {
      Pow2Sum(a - 1, b);
    }
  }

  lemma {:induction false} Pow2Monotone(a: nat, b: nat)
    requires a <= b
    ensures Pow2(a) <= Pow2(b) && (a < b ==> Pow2(a) < Pow2(b))
    decreases b
  {
    if a < b {
      Pow2Monotone(a, b - 1);
    }
  }

  lemma Pow2Injective(a: nat, b: nat)
    requires Pow2(a) == Pow2(b)
    ensures a == b
  {
    if a < b {
      Pow2Monotone(a, b);
    } else if b < a {
      Pow2Monotone(b, a);
    }
  }

  lemma MulMonotone(a: int, b: int, d: nat)
    requires a <= b
    ensures a * d <= b * d
  {
    assert (b - a) * d >= 0;
  }

  /** Quotient and remainder are determined by p == q d + r with 0 <= r < d. */
  lemma DivisionUnique(p: int, d: nat, q: int, r: nat)
    requires d > 0 && p == q * d + r && r < d
    ensures p / d == q && p % d == r
  {
    var q1 := p / d;
    assert p == q1 * d + p % d;
    if q1 < q {
      MulMonotone(q1 + 1, q, d);
    } else if q1 > q {
      MulMonotone(q + 1, q1, d);
    }
  }

  lemma SmallPowers()
    ensures Pow2(7) == 128 && Pow2(8) == 256
  {
  }

  /** The ranges of 31 and 64 bits. */
  lemma WordPowers()
    ensures Pow2(31) == 0x8000_0000 && Pow2(64) == 0x1_0000_0000_0000_0000
  {
    hide Pow2;
    SmallPowers();
    Pow2Sum(8, 8);
    Pow2Sum(16, 8);
    Pow2Sum(24, 7);
    Pow2Sum(16, 16);
    Pow2Sum(32, 32);
  }

  // ---- products, for proofs that are not about their size ----

  function Times(a: int, b: int): int { a * b }

  lemma TimesSum(a: int, b: int, c: int)
    ensures Times(a, b + c) == Times(a, b) + Times(a, c)
    ensures Times(b + c, a) == Times(b, a) + Times(c, a)
  {
  }

  lemma TimesSwap(a: int, b: int, c: int)
    ensures Times(a, Times(b, c)) == Times(Times(a, b), c)
    ensures Times(a, Times(b, c)) == Times(b, Times(a, c))
  {
  }

  lemma TimesUnits(a: int)
    ensures Times(a, 1) == a && Times(1, a) == a && Times(a, 0) == 0 && Times(0, a) == 0
  {
  }

  lemma TimesEven(h: int, b: int)
    ensures Times(2 * h, b) == 2 * Times(h, b) && Times(2 * h + 1, b) == 2 * Times(h, b) + b
  {
    assert (2 * h) * b == 2 * (h * b);
    assert (2 * h + 1) * b == (2 * h) * b + b;
  }
}

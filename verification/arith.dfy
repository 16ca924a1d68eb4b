/** Multiplication and division facts the solver does not find on its own. */
module Arith {

  lemma {:induction false} MulAtLeast(k: nat, d: nat)
    requires k >= 1
    ensures k * d >= d
    decreases k
  {
    if k > 1 {
      MulAtLeast(k - 1, d);
      assert k * d == (k - 1) * d + d;
    }
  }

  /** Euclidean division is determined by any quotient/remainder decomposition. */
  lemma DivByParts(x: int, d: int, q: int, r: int)
    requires d > 0 && 0 <= r < d && x == q * d + r
    ensures x / d == q
  {
    var q', r' := x / d, x % d;
    assert x == q' * d + r';
    assert (q - q') * d == r' - r;
    if q > q' {
      MulAtLeast(q - q', d);
    } else if q < q' {
      MulAtLeast(q' - q, d);
    }
  }

  lemma ScaleMonotone(r: nat, a: nat, b: nat)
    requires r > 0
    ensures r * a <= r * b <==> a <= b
  {
    if a > b {
      assert r * a == r * b + (a - b) * r;
      MulAtLeast(a - b, r);
    } else {
      assert r * b == r * a + (b - a) * r;
    }
  }

  lemma MulPred(k: nat, d: int)
    requires k >= 1
    ensures (k - 1) * d + d == k * d
  {
  }

  /** The `k`-th point of the progression `start, start + step, ...`. */
  function Progression(start: nat, step: nat, k: nat): nat
  {
    if k == 0 then start else Progression(start, step, k - 1) + step
  }

  lemma {:induction false} ProgressionIs(start: nat, step: nat, k: nat)
    ensures Progression(start, step, k) == start + k * step
    decreases k
  {
    if k > 0 {
      ProgressionIs(start, step, k - 1);
      MulPred(k, step);
    }
  }

  lemma ProgressionShift(start: nat, step: nat, k: nat)
    requires k >= 1
    ensures Progression(start + step, step, k - 1) == Progression(start, step, k)
  {
    ProgressionIs(start + step, step, k - 1);
    ProgressionIs(start, step, k);
    MulPred(k, step);
  }

  /** Comparing two ratios of reals with positive denominators is comparing the
      cross products. */
  lemma RealRatioAtLeast(a: real, r: real, b: real, c: real)
    requires r > 0.0 && c > 0.0
    ensures a / r >= b / c <==> a * c >= b * r
  {
    var p, q := a / r, b / c;
    assert p * r == a && q * c == b;
    assert r * c > 0.0;
    assert a * c - b * r == (p - q) * (r * c);
    if p >= q {
      assert (p - q) * (r * c) >= 0.0;
    } else {
      assert (q - p) * (r * c) > 0.0;
    }
  }
}

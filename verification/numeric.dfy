/** Exact real arithmetic the calculators are built from: integer powers
    (Python's `x ** n` for a non-negative integer `n`), factorials
    (`math.factorial`) and the facts about them the proofs need.
 */
module Numeric {

  /** `x` raised to the natural power `n`. */
  function Pow(x: real, n: nat): real
    decreases n
  {
    if n == 0 then 1.0 else x * Pow(x, n - 1)
  }

  /** One unfolding of the power: `x^n = x * x^(n-1)`. */
  lemma PowStep(x: real, n: nat)
    requires n >= 1
    ensures Pow(x, n) == x * Pow(x, n - 1)
  {
  }

  /** Powers of a positive base are positive. */
  lemma {:induction false} PowPositive(x: real, n: nat)
    requires x > 0.0
    ensures Pow(x, n) > 0.0
    decreases n
  {
    if n > 0 {
      PowPositive(x, n - 1);
      assert Pow(x, n) == x * Pow(x, n - 1);
    }
  }

  /** `n!` (`math.factorial`). */
  function Fact(n: nat): (r: real)
    ensures r >= 1.0
    decreases n
  {
    if n == 0 then 1.0 else n as real * Fact(n - 1)
  }

  /** `n!` as the calculators divide by it: at least 1, so never zero. The
      proofs speak of factorials only through this
      non-recursive wrapper, which keeps the solver from unfolding the
      recursion inside nonlinear terms. */
  function RealFact(n: nat): (r: real)
    ensures r >= 1.0
  {
    Fact(n)
  }

  /** Powers distribute over quotients: `(x/y)^n * y^n = x^n`. */
  lemma {:induction false} PowDiv(x: real, y: real, n: nat)
    requires y != 0.0
    ensures Pow(x / y, n) * Pow(y, n) == Pow(x, n)
    decreases n
  {
    if n > 0 {
      PowDiv(x, y, n - 1);
      PowStep(x / y, n);
      PowStep(y, n);
      PowStep(x, n);
      Interchange(x / y, Pow(x / y, n - 1), y, Pow(y, n - 1));
      assert (x / y) * y == x;
    }
  }

  /** `(x/y)^n = x^n / y^n`, the quotient form of `PowDiv`. */
  lemma {:induction false} PowQuotient(x: real, y: real, n: nat)
    requires y != 0.0
    ensures Pow(y, n) != 0.0
    ensures Pow(x / y, n) == Pow(x, n) / Pow(y, n)
  {
    PowNonZero(y, n);
    PowDiv(x, y, n);
  }

  /** A non-zero base has non-zero powers. */
  lemma {:induction false} PowNonZero(x: real, n: nat)
    requires x != 0.0
    ensures Pow(x, n) != 0.0
    decreases n
  {
    if n > 0 {
      PowNonZero(x, n - 1);
    }
  }

  /** For a base strictly between 0 and 1 each further factor strictly
      shrinks the power. */
  lemma {:induction false} PowShrinks(x: real, n: nat)
    requires 0.0 < x < 1.0
    ensures Pow(x, n + 1) < Pow(x, n)
  {
    PowPositive(x, n);
    var p := Pow(x, n);
    assert Pow(x, n + 1) == x * Pow(x, n + 1 - 1);
    assert x * p < p;
  }

  /** Every power of a base strictly between 0 and 1 is at most 1, and every
      positive power lies strictly below 1. */
  lemma {:induction false} PowBelowOne(x: real, n: nat)
    requires 0.0 < x < 1.0
    ensures Pow(x, n) <= 1.0
    ensures n >= 1 ==> Pow(x, n) < 1.0
    decreases n
  {
    if n > 0 {
      PowBelowOne(x, n - 1);
      PowShrinks(x, n - 1);
    }
  }

  /** `f(lo) + f(lo + 1) + ... + f(hi - 1)`, Python's
      `sum(f(k) for k in range(lo, hi))`; empty, and so 0, when `hi <= lo`. */
  function Sum(f: int -> real, lo: int, hi: int): real
    decreases hi - lo
  {
    if hi <= lo then 0.0 else Sum(f, lo, hi - 1) + f(hi - 1)
  }

  /** The first term can be split off a non-empty sum. */
  lemma {:induction false} SumSplitFirst(f: int -> real, lo: int, hi: int)
    requires lo < hi
    ensures Sum(f, lo, hi) == f(lo) + Sum(f, lo + 1, hi)
    decreases hi - lo
  {
    if lo + 1 < hi {
      SumSplitFirst(f, lo, hi - 1);
    }
  }

  /** A sum of positive terms is non-negative, and positive when non-empty. */
  lemma {:induction false} SumPositive(f: int -> real, lo: int, hi: int)
    requires forall k :: lo <= k < hi ==> f(k) > 0.0
    ensures Sum(f, lo, hi) >= 0.0
    ensures lo < hi ==> Sum(f, lo, hi) > 0.0
    decreases hi - lo
  {
    if lo < hi {
      SumPositive(f, lo, hi - 1);
    }
  }

  /** Scaling every term scales the sum: if `g(k) = p f(k)` on the range then
      `sum g = p sum f`. */
  lemma {:induction false} SumScale(f: int -> real, g: int -> real, p: real, lo: int, hi: int)
    requires forall k :: lo <= k < hi ==> g(k) == p * f(k)
    ensures Sum(g, lo, hi) == p * Sum(f, lo, hi)
    decreases hi - lo
  {
    if lo < hi {
      SumScale(f, g, p, lo, hi - 1);
      assert g(hi - 1) == p * f(hi - 1);
      Distribute(p, Sum(f, lo, hi - 1), f(hi - 1), Sum(f, lo, hi));
    }
  }

  /** Sums are linear: if `h(k) = a f(k) - g(k)` on the range then
      `sum h = a sum f - sum g`. */
  lemma {:induction false} SumCombine(f: int -> real, g: int -> real, h: int -> real, a: real, lo: int, hi: int)
    requires forall k :: lo <= k < hi ==> h(k) == a * f(k) - g(k)
    ensures Sum(h, lo, hi) == a * Sum(f, lo, hi) - Sum(g, lo, hi)
    decreases hi - lo
  {
    if lo < hi {
      SumCombine(f, g, h, a, lo, hi - 1);
      assert h(hi - 1) == a * f(hi - 1) - g(hi - 1);
      LinearStep(a, Sum(f, lo, hi - 1), f(hi - 1), Sum(f, lo, hi));
    }
  }

  /** One unfolding of the factorial: `(n + 1)! = (n + 1) n!`. */
  lemma RealFactStep(n: nat)
    ensures RealFact(n + 1) == (n + 1) as real * RealFact(n)
  {
  }

  /** A ratio of positives with a smaller numerator lies strictly between 0
      and 1. */
  lemma RatioBelowOne(a: real, b: real)
    requires 0.0 < a < b
    ensures 0.0 < a / b < 1.0
  {
    var p := a / b;
    assert p * b == a;
    if p >= 1.0 {
      assert false;
    }
  }

  /* The solver does not expand products of compound terms on its own, so
     the arithmetic lemmas below take plain variables and state their
     conclusions in expanded form. */

  /** A factor strictly between 0 and 1 strictly shrinks a positive quantity. */
  lemma ScaleBelow(f: real, b: real)
    requires 0.0 < f < 1.0 && 0.0 < b
    ensures 0.0 < f * b < b
  {
  }

  /** For `x, y < 1`, `(1 - x)(1 - y) > 0`, expanded: `x*y > x + y - 1`. */
  lemma ProductAboveSum(x: real, y: real)
    requires x < 1.0 && y < 1.0
    ensures x * y > x + y - 1.0
  {
    var u := 1.0 - x;
    var v := 1.0 - y;
    assert u * v > 0.0;
    assert u * v == 1.0 - x - y + x * y;
  }

  /** The reciprocal of a number strictly between 0 and 1 exceeds 1. */
  lemma ReciprocalAboveOne(p: real)
    requires 0.0 < p < 1.0
    ensures 1.0 / p > 1.0
  {
    var r := 1.0 / p;
    assert r * p == 1.0;
    if r <= 1.0 {
      assert false;
    }
  }

  /** A product of three positives is positive. */
  lemma ProductPositive(a: real, b: real, c: real)
    requires 0.0 < a && 0.0 < b && 0.0 < c
    ensures a * b * c > 0.0
  {
    assert a * b > 0.0;
  }

  /** Multiplication distributes over `1 + s + w`. */
  lemma Distribute(p: real, s: real, w: real, t: real)
    requires t == s + w
    ensures p * (1.0 + s) + p * w == p * (1.0 + t)
  {
  }

  /** The induction step behind the falling-factorial form of
      `m! psi^k / (m-k)!`, on plain variables: from `w d1 = f a` with
      `w1 = c psi w`, `d1 = c d` and `a1 = psi a` follows `w1 d = f a1`. */
  lemma FallingStep(w: real, w1: real, c: real, psi: real, d: real, d1: real, f: real, a: real, a1: real)
    requires w1 == c * psi * w && d1 == c * d && a1 == psi * a
    requires w * d1 == f * a
    ensures w1 * d == f * a1
  {
    assert w1 * d == psi * (w * (c * d));
    assert f * a1 == psi * (f * a);
  }

  /** Multiplication distributes over a sum of two terms. */
  lemma LinearStep(a: real, s: real, x: real, t: real)
    requires t == s + x
    ensures a * t == a * s + a * x
  {
  }

  /** Exchanging the middle factors of a four-fold product. */
  lemma Interchange(a: real, b: real, c: real, d: real)
    ensures (a * b) * (c * d) == (a * c) * (b * d)
  {
  }

  /** Moving a factor across a three-fold product. */
  lemma Regroup(p: real, c: real, s: real, w: real)
    ensures p * (c * s * w) == c * s * (p * w)
  {
  }

  /** Regrouping a product before a division: `p f a / d = p (f a / d)`. */
  lemma MulDivAssoc(p: real, f: real, a: real, d: real)
    requires d != 0.0
    ensures p * f * a / d == p * (f * a / d)
  {
    var w := f * a / d;
    assert w * d == f * a;
    assert (p * w) * d == p * (w * d);
  }

  /** Multiplying by the reciprocal of `b` is dividing by `b`. */
  lemma TimesReciprocal(p: real, a: real, b: real)
    requires b != 0.0 && p * b == 1.0
    ensures p * a == a / b
  {
    assert (p * a) * b == a * (p * b);
  }

  /** A common non-zero factor cancels from a quotient. */
  lemma CancelFactor(m: real, a: real, b: real)
    requires m != 0.0 && b != 0.0
    ensures (m * a) / (m * b) == a / b
    ensures m * (a / (m * b)) == a / b
  {
    var r := a / b;
    assert r * b == a;
    assert (m * a) == r * (m * b);
  }

  /** The terms `n p(n)` of the mean of a law `p` on the integers. */
  function Moments(p: int -> real): (r: int -> real)
    ensures forall n :: r(n) == n as real * p(n)
  {
    n => n as real * p(n)
  }

  /** The mean `sum_{n=0..m} n p(n)` of a law `p` on `0..m`. */
  function Mean(p: int -> real, m: int): real
  {
    Sum(Moments(p), 0, m + 1)
  }

  /** The terms `(m - n) p(n)`: in a finite-source queue, the mean number
      of sources outside when `n` units are inside. */
  function Complements(p: int -> real, m: int): (r: int -> real)
    ensures forall n :: r(n) == (m - n) as real * p(n)
  {
    n => (m - n) as real * p(n)
  }

  /** The balance equations `p(n) = psi (m - n + 1) p(n - 1)` of a
      finite-source birth-death law hold for `n = 1..k`. */
  predicate Balanced(p: int -> real, psi: real, m: int, k: int)
    decreases k
  {
    k <= 0 || (Balanced(p, psi, m, k - 1) && p(k) == psi * Complements(p, m)(k - 1))
  }

  /** Summing the balance equations: `psi sum_{n<k} (m - n) p(n)` is
      `sum_{n=1..k} p(n)`. */
  lemma {:induction false} BalanceSum(p: int -> real, psi: real, m: int, k: int)
    requires Balanced(p, psi, m, k)
    ensures psi * Sum(Complements(p, m), 0, k) == Sum(p, 1, k + 1)
    decreases k
  {
    var c := Complements(p, m);
    if k > 0 {
      BalanceSum(p, psi, m, k - 1);
      var a, a1, b, b1 := Sum(c, 0, k - 1), Sum(c, 0, k), Sum(p, 1, k), Sum(p, 1, k + 1);
      assert p(k) == psi * c(k - 1);
      assert a1 == a + c(k - 1);
      assert b1 == b + p(k);
      ExtendScaled(psi, a, c(k - 1), a1, b, p(k), b1);
    } else {
      assert Sum(c, 0, k) == 0.0 && Sum(p, 1, k + 1) == 0.0;
    }
  }

  /** Extending a scaled partial sum by one term: from `psi a = b`,
      `a1 = a + x`, `b1 = b + y` and `y = psi x` follows `psi a1 = b1`. */
  lemma ExtendScaled(psi: real, a: real, x: real, a1: real, b: real, y: real, b1: real)
    requires psi * a == b && a1 == a + x && b1 == b + y && y == psi * x
    ensures psi * a1 == b1
  {
  }

  /** For a law on `0..m` with total mass 1, the complements `(m - n) p(n)`
      over `n < m` sum to `m` less the mean (the term `n = m` is 0). */
  lemma {:induction false} ComplementsSum(p: int -> real, m: int)
    requires m >= 0
    requires Sum(p, 0, m + 1) == 1.0
    ensures Sum(Complements(p, m), 0, m) == m as real - Sum(Moments(p), 0, m + 1)
  {
    var c, x := Complements(p, m), Moments(p);
    forall n | 0 <= n < m + 1
      ensures c(n) == m as real * p(n) - x(n)
    {
      SubtractTimes(m as real, n as real, p(n));
    }
    SumCombine(p, x, c, m as real, 0, m + 1);
    assert c(m) == 0.0;
    assert Sum(c, 0, m + 1) == Sum(c, 0, m) + c(m);
  }

  /** For a law on `0..m` with total mass 1, the mass of `1..m` is
      `1 - p(0)`. */
  lemma {:induction false} MassAboveZero(p: int -> real, m: int)
    requires m >= 0
    requires Sum(p, 0, m + 1) == 1.0
    ensures Sum(p, 1, m + 1) == 1.0 - p(0)
  {
    SumSplitFirst(p, 0, m + 1);
  }

  /** Positive weights on `0..m`, `m >= 1`, have their first moment
      strictly between 0 and `m` times their mass:
      `0 < sum n p(n) < m sum p(n)`. */
  lemma MeanBounds(p: int -> real, m: int)
    requires m >= 1
    requires forall n :: 0 <= n <= m ==> p(n) > 0.0
    ensures 0.0 < Mean(p, m) < m as real * Sum(p, 0, m + 1)
  {
    MomentsPositive(p, m);
    ComplementsPositive(p, m);
    var c, x := Complements(p, m), Moments(p);
    forall n | 0 <= n < m + 1
      ensures c(n) == m as real * p(n) - x(n)
    {
      SubtractTimes(m as real, n as real, p(n));
    }
    SumCombine(p, x, c, m as real, 0, m + 1);
  }

  /** Positive weights on `0..m`, `m >= 1`, have a positive first moment
      (the term at 0 vanishes, the others are positive). */
  lemma MomentsPositive(p: int -> real, m: int)
    requires m >= 1
    requires forall n :: 0 <= n <= m ==> p(n) > 0.0
    ensures Mean(p, m) > 0.0
  {
    var x := Moments(p);
    forall n | 1 <= n < m + 1
      ensures x(n) > 0.0
    {
      PositiveProduct(n as real, p(n));
    }
    SumPositive(x, 1, m + 1);
    SumSplitFirst(x, 0, m + 1);
  }

  /** Positive weights on `0..m`, `m >= 1`, have positive complements
      `sum (m - n) p(n)` (the term at `m` vanishes, the others are positive). */
  lemma ComplementsPositive(p: int -> real, m: int)
    requires m >= 1
    requires forall n :: 0 <= n <= m ==> p(n) > 0.0
    ensures Sum(Complements(p, m), 0, m + 1) > 0.0
  {
    var c := Complements(p, m);
    forall n | 0 <= n < m
      ensures c(n) > 0.0
    {
      PositiveProduct((m - n) as real, p(n));
    }
    SumPositive(c, 0, m);
    assert Sum(c, 0, m + 1) == Sum(c, 0, m) + c(m);
  }

  /** A law `p` on `0..m` of a finite-source birth-death chain with ratio
      `psi`: it sums to 1 and each `p(k)` is `psi` times the remaining
      `m - k + 1` sources times `p(k - 1)`. */
  predicate FiniteSourceLaw(p: int -> real, psi: real, m: int)
  {
    && psi > 0.0
    && m >= 0
    && Balanced(p, psi, m, m)
    && Sum(p, 0, m + 1) == 1.0
  }

  /** The mean of a finite-source birth-death law on `0..m` whose
      probabilities sum to 1 is `m - (1 - p(0)) / psi`: the sources outside
      the system, `m` less the mean inside, arrive at the rate at which the
      busy server completes. */
  lemma {:induction false} FiniteSourceMean(p: int -> real, psi: real, m: int)
    requires FiniteSourceLaw(p, psi, m)
    ensures Mean(p, m) == m as real - (1.0 / psi) * (1.0 - p(0))
  {
    BalanceSum(p, psi, m, m);
    ComplementsSum(p, m);
    MassAboveZero(p, m);
    SolveForMean(psi, m as real, Sum(Moments(p), 0, m + 1), Sum(Complements(p, m), 0, m), Sum(p, 1, m + 1), 1.0 - p(0));
  }

  /** `(a - b) x = a x - b x`. */
  lemma SubtractTimes(a: real, b: real, x: real)
    ensures (a - b) * x == a * x - b * x
  {
  }

  /** From `a = m - x` and `psi a = b` follows `x = m - b / psi`, written
      `m - (1/psi) b`. */
  lemma SolveForMean(psi: real, m: real, x: real, a: real, b: real, b1: real)
    requires psi > 0.0
    requires a == m - x && psi * a == b && b == b1
    ensures x == m - (1.0 / psi) * b1
  {
    assert (1.0 / psi) * b == (1.0 / psi) * psi * a;
    assert (1.0 / psi) * psi == 1.0;
  }

  /** With `psi mu = lmbda`: `lmbda ((1/psi) b) = mu b`. */
  lemma RateOverUtilisation(psi: real, mu: real, lmbda: real, b: real)
    requires psi > 0.0 && psi * mu == lmbda
    ensures lmbda * ((1.0 / psi) * b) == mu * b
  {
    assert lmbda * (1.0 / psi) == mu;
  }

  /** `((1 + psi)/psi) b = (1/psi) b + b`. */
  lemma OneMoreOverRatio(psi: real, b: real)
    requires psi > 0.0
    ensures ((1.0 + psi) / psi) * b == (1.0 / psi) * b + b
  {
    assert (1.0 + psi) / psi == 1.0 / psi + 1.0;
  }

  /** `(1/mu)(m/b - 1/psi) (mu b) = m - (1/psi) b`. */
  lemma SojournTimesRate(mu: real, psi: real, m: real, b: real)
    requires mu > 0.0 && psi > 0.0 && b > 0.0
    ensures (1.0 / mu) * (m / b - 1.0 / psi) * (mu * b) == m - (1.0 / psi) * b
  {
    assert (1.0 / mu) * (mu * b) == b;
    assert (m / b - 1.0 / psi) * b == m - (1.0 / psi) * b;
  }

  /** `(x / a) a = x` for a positive `a`. */
  lemma CancelDivision(x: real, a: real)
    requires a > 0.0
    ensures x / a * a == x
  {
  }

  /** Two times related by a common positive rate `a`: if `w a = l`,
      `wq a = l - b`, `a = mu b` and `s mu = 1`, then `w = wq + s`. */
  lemma SplitByRate(w: real, wq: real, s: real, mu: real, a: real, b: real, l: real, lq: real)
    requires a > 0.0 && mu > 0.0
    requires w * a == l && wq * a == lq && lq == l - b && a == mu * b && s * mu == 1.0
    ensures w == wq + s
  {
    assert s * a == b;
    assert (w - wq - s) * a == 0.0;
  }

  /** The finite-source sojourn identity in the calculators' own terms: with
      `psi mu = lmbda` and `b = 1 - P0`,
      `(1/mu)(m/b - 1/psi) = (m - ((1 + psi)/psi) b) / (lmbda (1/psi) b) + 1/mu`. */
  lemma SojournAlgebra(psi: real, mu: real, lmbda: real, m: real, b: real)
    requires psi > 0.0 && mu > 0.0 && b > 0.0 && psi * mu == lmbda
    ensures (1.0 / mu) * (m / b - 1.0 / psi)
         == (m - ((1.0 + psi) / psi) * b) / (lmbda * ((1.0 / psi) * b)) + 1.0 / mu
  {
    var o := (1.0 / psi) * b;
    var a := lmbda * o;
    var lq := m - ((1.0 + psi) / psi) * b;
    RateOverUtilisation(psi, mu, lmbda, b);
    assert a == mu * b;
    assert a > 0.0;
    OneMoreOverRatio(psi, b);
    SojournTimesRate(mu, psi, m, b);
    CancelDivision(lq, a);
    SplitByRate((1.0 / mu) * (m / b - 1.0 / psi), lq / a, 1.0 / mu, mu, a, b, m - o, lq);
  }

  /** A positive over a product of two positives is positive. */
  lemma QuotientOfPositives(a: real, f: real, d: real)
    requires a > 0.0 && f > 0.0 && d > 0.0
    ensures f * d > 0.0
    ensures a / (f * d) > 0.0
  {
  }

  /** One more factor `x / c`: `c ((x a) / (c f) p) = x (a / f p)`. */
  lemma QuotientStep(x: real, a: real, c: real, f: real, p: real)
    requires c != 0.0 && f != 0.0
    ensures c * ((x * a) / (c * f) * p) == x * (a / f * p)
  {
    assert c * ((x * a) / (c * f)) == x * (a / f);
  }

  /** `c a = x b` with `c` non-zero gives `a = x / c b`. */
  lemma DivideOut(c: real, x: real, a: real, b: real)
    requires c != 0.0
    ensures c * a == x * b ==> a == x / c * b
  {
  }

  /** `p a / (f d) d = a / f p`. */
  lemma SwapQuotient(p: real, a: real, f: real, d: real)
    requires f != 0.0 && d != 0.0
    ensures p * a / (f * d) * d == a / f * p
  {
  }

  /** `c p1 = psi p`, `psi mu = lmbda` and a rate `r = mu c` give
      `lmbda p = r p1`. */
  lemma BalanceAtRate(mu: real, psi: real, lmbda: real, c: real, r: real, p: real, p1: real)
    ensures c * p1 == psi * p && psi * mu == lmbda && r == mu * c ==> lmbda * p == r * p1
  {
    if c * p1 == psi * p && psi * mu == lmbda && r == mu * c {
      assert mu * c * p1 == mu * (psi * p);
    }
  }

  /** A quotient scaled by a positive factor stays positive. */
  lemma ScaledQuotientPositive(a: real, f: real, p: real)
    requires a > 0.0 && f > 0.0 && p > 0.0
    ensures a / f * p > 0.0
  {
    assert a / f > 0.0;
  }

  /** `p` is geometric with ratio `rho` on `lo..lo+k`: each of
      `p(lo + 1), ..., p(lo + k)` is `rho` times its predecessor. */
  predicate Geometric(p: int -> real, rho: real, lo: int, k: int)
    decreases k
  {
    k <= 0 || (Geometric(p, rho, lo, k - 1) && p(lo + k) == rho * p(lo + k - 1))
  }

  /** The terms of a geometric sequence: `p(lo + k) = rho^k p(lo)`. */
  lemma {:induction false} GeometricTerm(p: int -> real, rho: real, lo: int, k: nat)
    requires Geometric(p, rho, lo, k)
    ensures p(lo + k) == Pow(rho, k) * p(lo)
  {
    if k > 0 {
      GeometricTerm(p, rho, lo, k - 1);
      PowStep(rho, k);
      ScaleChain(rho, p(lo + k - 1), Pow(rho, k - 1), p(lo), p(lo + k), Pow(rho, k));
    } else {
      assert Pow(rho, 0) == 1.0;
    }
  }

  /** `x = a p`, `y = rho x` and `a1 = rho a` give `y = a1 p`. */
  lemma ScaleChain(rho: real, x: real, a: real, p: real, y: real, a1: real)
    requires x == a * p && y == rho * x && a1 == rho * a
    ensures y == a1 * p
  {
  }

  /** The partial sums of a geometric sequence telescope:
      `(1 - rho) sum_{n=lo..lo+k-1} p(n) = p(lo) - p(lo + k)`. */
  lemma {:induction false} GeometricTelescope(p: int -> real, rho: real, lo: int, k: nat)
    requires Geometric(p, rho, lo, k)
    ensures (1.0 - rho) * Sum(p, lo, lo + k) == p(lo) - p(lo + k)
  {
    if k > 0 {
      GeometricTelescope(p, rho, lo, k - 1);
      assert Sum(p, lo, lo + k) == Sum(p, lo, lo + k - 1) + p(lo + k - 1);
      TelescopeStep(rho, Sum(p, lo, lo + k - 1), p(lo + k - 1), Sum(p, lo, lo + k), p(lo), p(lo + k));
    } else {
      assert Sum(p, lo, lo + k) == 0.0;
    }
  }

  /** One step of a telescoping geometric sum: from `(1 - rho) s = a - x`,
      adding `x` and its successor `y = rho x` gives `(1 - rho) t = a - y`. */
  lemma TelescopeStep(rho: real, s: real, x: real, t: real, a: real, y: real)
    requires (1.0 - rho) * s == a - x && t == s + x && y == rho * x
    ensures (1.0 - rho) * t == a - y
  {
    LinearStep(1.0 - rho, s, x, t);
  }


  /** Solving a telescoped tail: `d S = a - b` and `g d = a` with `d` and
      `b` positive give `S = g - b / d < g`. */
  lemma SolveTail(d: real, s: real, g: real, a: real, b: real)
    ensures d > 0.0 && b > 0.0 && d * s == a - b && g * d == a ==> s == g - b / d && s < g
  {
    if d > 0.0 && b > 0.0 && d * s == a - b && g * d == a {
      assert d * (g - b / d) == a - b;
    }
  }

  /** One more geometric step extends a geometric run. */
  lemma GeometricExtend(p: int -> real, rho: real, lo: int, k: int)
    requires k >= 1
    requires Geometric(p, rho, lo, k - 1)
    requires p(lo + k) == rho * p(lo + k - 1)
    ensures Geometric(p, rho, lo, k)
  {
  }

  /** A geometric run with ratio `rho` in (0, 1) whose whole tail has mass
      `g` (`g (1 - rho) = p(lo)`) has partial sums
      `sum_{n=lo..lo+k-1} p(n) = g - p(lo + k) / (1 - rho)`, below `g`. */
  lemma GeometricTailSum(p: int -> real, rho: real, lo: int, k: nat, g: real)
    requires 0.0 < rho < 1.0
    requires Geometric(p, rho, lo, k)
    requires p(lo + k) > 0.0
    requires g * (1.0 - rho) == p(lo)
    ensures Sum(p, lo, lo + k) == g - p(lo + k) / (1.0 - rho)
    ensures Sum(p, lo, lo + k) < g
  {
    SolveTail(1.0 - rho, Sum(p, lo, lo + k), g, p(lo), p(lo + k));
    GeometricTelescope(p, rho, lo, k);
  }

  /** The Poisson-shaped term `x^n / n! p`. */
  function PoissonTerm(x: real, n: nat, p: real): real
  {
    Pow(x, n) / RealFact(n) * p
  }

  /** Consecutive Poisson-shaped terms: `(n + 1) T(n + 1) = x T(n)`. */
  lemma PoissonStep(x: real, n: nat, p: real)
    ensures (n + 1) as real * PoissonTerm(x, n + 1, p) == x * PoissonTerm(x, n, p)
  {
    PowStep(x, n + 1);
    RealFactStep(n);
    QuotientStep(x, Pow(x, n), (n + 1) as real, RealFact(n), p);
  }

  /** The queue factor of a geometric tail: with `a1 = psi a`, `g2 = g g`,
      `q (s f g2) = a1`, `t (f g) = p a` and `r s = psi`, the identity
      `q p = t (r / g)` holds. */
  lemma TailQueueAlgebra(psi: real, a: real, a1: real, s: real, f: real, g: real, g2: real, p: real,
                         q: real, t: real, r: real)
    requires s > 0.0 && f > 0.0 && g > 0.0 && g2 > 0.0
    requires g2 == g * g && a1 == psi * a
    requires q * (s * f * g2) == a1 && t * (f * g) == p * a && r * s == psi
    ensures q * p == t * (r / g)
  {
    assert (q * p) * (s * f * g2) == (t * (r / g)) * (s * f * g2);
  }

  /** `x = n / d` gives `x d = n`. */
  lemma QuotientTimesDivisor(x: real, n: real, d: real)
    requires d != 0.0 && x == n / d
    ensures x * d == n
  {
  }

  /** Scaling by a non-negative factor keeps order. */
  lemma ScaleMonotone(mu: real, a: real, b: real)
    requires mu >= 0.0 && a <= b
    ensures mu * a <= mu * b
  {
  }

  /** A product of two positives is positive; stated for two arbitrary
      factors so that it also covers squares. */
  lemma PositiveProduct(x: real, y: real)
    requires x > 0.0 && y > 0.0
    ensures x * y > 0.0
  {
  }

  /** A reciprocal times its argument is one. */
  lemma CancelReciprocal(x: real)
    requires x != 0.0
    ensures 1.0 / x * x == 1.0
  {
  }

  /** Little's law with a mean above the offered load: if `w lmbda = l`,
      `l > psi`, `psi mu = lmbda` and `v mu = 1`, the time `w` is longer
      than the service time `v`. */
  lemma SojournAboveService(w: real, v: real, lmbda: real, mu: real, psi: real, l: real)
    requires lmbda > 0.0 && mu > 0.0 && psi * mu == lmbda
    requires w * lmbda == l && l > psi && v * mu == 1.0
    ensures w > v
  {
    assert (w * mu) * lmbda == l * mu;
    assert l * mu > psi * mu;
    if w * mu <= 1.0 {
      ScaleMonotone(lmbda, w * mu, 1.0);
    }
    if w <= v {
      ScaleMonotone(mu, w, v);
    }
  }

  /** Scaling a positive `p` by a factor `e` into `r = p e`: a factor in
      (0, 1] keeps `r` in (0, p], a factor above one takes it past `p`. */
  lemma ScaledByFactor(p: real, e: real, r: real)
    requires p > 0.0 && r == p * e
    ensures 0.0 < e <= 1.0 ==> 0.0 < r <= p
    ensures e > 1.0 ==> r > p
  {
    if 0.0 < e <= 1.0 {
      ScaleMonotone(p, e, 1.0);
    }
  }

  /** A positive rate times a time times a negative number: negative for a
      positive time, zero at time zero. */
  lemma NegativeScaled(mu: real, t: real, d: real)
    requires mu > 0.0 && d < 0.0
    ensures t > 0.0 ==> mu * t * d < 0.0
    ensures t == 0.0 ==> mu * t * d == 0.0
  {
    if t > 0.0 {
      assert mu * t > 0.0;
    }
  }

  /** The powers `x^n` as a law on the integers, zero at negative `n`. */
  function Powers(x: real): (r: int -> real)
    ensures forall n: nat :: r(n) == Pow(x, n)
  {
    n => if n >= 0 then Pow(x, n) else 0.0
  }

  /** The finite geometric series: `(1 - x) sum_{n<k} x^n = 1 - x^k`. */
  lemma {:induction false} PowerSum(x: real, k: nat)
    ensures (1.0 - x) * Sum(Powers(x), 0, k) == 1.0 - Pow(x, k)
  {
    if k > 0 {
      PowerSum(x, k - 1);
      var s, a, s1 := Sum(Powers(x), 0, k - 1), Pow(x, k - 1), Sum(Powers(x), 0, k);
      assert s1 == s + a;
      assert Pow(x, k) == x * a;
      TelescopeStep(x, s, a, s1, 1.0, x * a);
    }
  }

  /** The weighted geometric series reduced to the plain one, over flat
      values: with `s = sum_{n<k} n x^n`, `g = sum_{n<k} x^n` and `a = x^k`,
      `(1 - x) s = g - 1 - (k - 1) a`. */
  predicate MomentLaw(x: real, k: real, s: real, g: real, a: real)
  {
    (1.0 - x) * s == g - 1.0 - (k - 1.0) * a
  }

  /** `MomentLaw` holds for every non-empty range. */
  lemma {:induction false} MomentSum(x: real, k: nat)
    requires k >= 1
    ensures MomentLaw(x, k as real, Sum(Moments(Powers(x)), 0, k), Sum(Powers(x), 0, k), Pow(x, k))
  {
    if k > 1 {
      MomentSum(x, k - 1);
      MomentSumStep(x, k - 1, k, (k - 1) as real, k as real);
    } else {
      assert Sum(Powers(x), 0, 1) == Pow(x, 0);
    }
  }

  /** The inductive step of `MomentSum`, from `j` terms to `k = j + 1`;
      `jr` and `kr` are the two counts as reals. */
  lemma MomentSumStep(x: real, j: nat, k: nat, jr: real, kr: real)
    requires k == j + 1 && jr == j as real && kr == k as real
    requires MomentLaw(x, jr, Sum(Moments(Powers(x)), 0, j), Sum(Powers(x), 0, j), Pow(x, j))
    ensures MomentLaw(x, kr, Sum(Moments(Powers(x)), 0, k), Sum(Powers(x), 0, k), Pow(x, k))
  {
    MomentTerm(x, j, k, jr);
    PowerTerm(x, j, k);
    PowSucc(x, j, k);
    MomentStep(x, jr, kr, Sum(Moments(Powers(x)), 0, j), Sum(Powers(x), 0, j), Pow(x, j), Pow(x, k),
               Sum(Moments(Powers(x)), 0, k), Sum(Powers(x), 0, k));
  }

  /** Consecutive powers: `x^k = x x^j` for `k = j + 1`. */
  lemma PowSucc(x: real, j: nat, k: nat)
    requires k == j + 1
    ensures Pow(x, k) == x * Pow(x, j)
  {
  }

  /** The plain series grows by `x^j` from `j` terms to `k = j + 1`. */
  lemma PowerTerm(x: real, j: nat, k: nat)
    requires k == j + 1
    ensures Sum(Powers(x), 0, k) == Sum(Powers(x), 0, j) + Pow(x, j)
  {
  }

  /** The weighted series grows by `j x^j` from `j` terms to `k = j + 1`. */
  lemma MomentTerm(x: real, j: nat, k: nat, jr: real)
    requires k == j + 1 && jr == j as real
    ensures Sum(Moments(Powers(x)), 0, k) == Sum(Moments(Powers(x)), 0, j) + jr * Pow(x, j)
  {
    assert Moments(Powers(x))(j) == j as real * Powers(x)(j);
  }

  /** One step of `MomentSum` over flat values: `a = x^j`, `a1 = x^(j+1)`,
      the plain series `g` and weighted series `s` grow by `a` and `j a`. */
  lemma MomentStep(x: real, j: real, k: real, s: real, g: real, a: real, a1: real, s1: real, g1: real)
    requires k == j + 1.0 && a1 == x * a
    requires MomentLaw(x, j, s, g, a)
    requires s1 == s + j * a && g1 == g + a
    ensures MomentLaw(x, k, s1, g1, a1)
  {
    assert (1.0 - x) * (j * a) == j * a - j * a1;
  }

  /** The algebra that identifies a truncated geometric mean: with
      `(1 - x) g = 1 - y`, the weighted series `s` in `MomentLaw` over `k`
      terms and `r = x/(1 - x) - k y/(1 - y)`, the mean `r` satisfies
      `r g = s`. */
  lemma MeanAlgebra(x: real, k: real, y: real, g: real, s: real, r: real)
    requires 0.0 < x < 1.0 && y < 1.0
    requires (1.0 - x) * g == 1.0 - y
    requires MomentLaw(x, k, s, g, y)
    requires r == x / (1.0 - x) - k * y / (1.0 - y)
    ensures r * g == s
  {
    var d, e := 1.0 - x, 1.0 - y;
    var a, b := x / d, k * y / e;
    assert a * d == x;
    assert b * e == k * y;
    assert d * (r * g) == x * g - k * y by {
      assert d * (r * g) == (a * d) * g - b * (d * g);
    }
    assert d * (r * g) == d * s;
  }

  /** From `r g = s` with `g > 0` and `0 < s < m g` follows `0 < r < m`. */
  lemma RatioWithin(r: real, g: real, s: real, m: real)
    requires g > 0.0 && r * g == s && 0.0 < s < m * g
    ensures 0.0 < r < m
  {
    if r <= 0.0 {
      assert r * g <= 0.0;
    }
    if r >= m {
      assert r * g >= m * g;
    }
  }

  /** The mean of the truncated geometric law `x^n / sum_{n<=m} x^n` on
      `0..m`, in the closed form `x/(1 - x) - (m + 1) x^(m+1) / (1 - x^(m+1))`:
      strictly inside `(0, m)` and strictly below `x/(1 - x)`, the mean of
      the untruncated law. `TruncatedMeanIsExpectation` shows it is that
      mean. */
  function TruncatedMean(x: real, m: nat): (r: real)
    requires 0.0 < x < 1.0 && m >= 1
    ensures 0.0 < r < m as real
    ensures r < x / (1.0 - x)
  {
    PowPositive(x, m + 1);
    PowBelowOne(x, m + 1);
    TruncatedGeometricMean(x, m, (m + 1) as real, Pow(x, m + 1),
                           x / (1.0 - x) - (m + 1) as real * Pow(x, m + 1) / (1.0 - Pow(x, m + 1)),
                           Sum(Powers(x), 0, m + 1), Mean(Powers(x), m));
    x / (1.0 - x) - (m + 1) as real * Pow(x, m + 1) / (1.0 - Pow(x, m + 1))
  }

  /** `TruncatedMean` is the mean of the truncated geometric law: for any
      `r` equal to it, `r sum_{n<=m} x^n = sum_{n<=m} n x^n`. */
  lemma TruncatedMeanIsExpectation(x: real, m: nat, r: real)
    requires 0.0 < x < 1.0 && m >= 1
    requires r == TruncatedMean(x, m)
    ensures r * Sum(Powers(x), 0, m + 1) == Mean(Powers(x), m)
  {
    var k, y := (m + 1) as real, Pow(x, m + 1);
    ClosedFormAt(x, m, r, k, y);
    TruncatedMoment(x, m, k, y, r, Sum(Powers(x), 0, m + 1), Mean(Powers(x), m));
  }

  /** Any `r` equal to `TruncatedMean(x, m)` is the closed form over the
      flat values `k = m + 1` and `y = x^(m+1)`, with `y < 1`. */
  lemma ClosedFormAt(x: real, m: nat, r: real, k: real, y: real)
    requires 0.0 < x < 1.0 && m >= 1
    requires r == TruncatedMean(x, m)
    requires k == (m + 1) as real && y == Pow(x, m + 1)
    ensures y < 1.0 && r == x / (1.0 - x) - k * y / (1.0 - y)
  {
    PowBelowOne(x, m + 1);
    TruncatedMeanValue(x, m, m + 1, k, y);
  }

  /** `TruncatedMean` over flat values `n = m + 1`, `k = n` as a real and
      `y = x^n`. */
  lemma TruncatedMeanValue(x: real, m: nat, n: nat, k: real, y: real)
    requires 0.0 < x < 1.0 && m >= 1
    requires n == m + 1 && k == n as real && y == Pow(x, n) && y < 1.0
    ensures TruncatedMean(x, m) == x / (1.0 - x) - k * y / (1.0 - y)
  {
  }

  /** The facts behind `TruncatedMean` over flat values: `k = m + 1`,
      `y = x^(m+1)`, the mass `g` and first moment `s` of the powers on
      `0..m`, and the closed form `r`. */
  lemma TruncatedGeometricMean(x: real, m: nat, k: real, y: real, r: real, g: real, s: real)
    requires 0.0 < x < 1.0 && m >= 1
    requires k == (m + 1) as real && y == Pow(x, m + 1) && 0.0 < y < 1.0
    requires g == Sum(Powers(x), 0, m + 1) && s == Mean(Powers(x), m)
    requires r == x / (1.0 - x) - k * y / (1.0 - y)
    ensures r * g == s
    ensures 0.0 < r < m as real
    ensures r < x / (1.0 - x)
  {
    TruncatedMoment(x, m, k, y, r, g, s);
    TruncatedMeanWithin(x, m, r, g, s);
    QuotientOfPositives(k * y, 1.0, 1.0 - y);
  }

  /** The closed form `r` times the mass `g` is the first moment `s`. */
  lemma TruncatedMoment(x: real, m: nat, k: real, y: real, r: real, g: real, s: real)
    requires 0.0 < x < 1.0 && m >= 1
    requires k == (m + 1) as real && y == Pow(x, m + 1) && y < 1.0
    requires g == Sum(Powers(x), 0, m + 1) && s == Mean(Powers(x), m)
    requires r == x / (1.0 - x) - k * y / (1.0 - y)
    ensures r * g == s
  {
    PowerSumAt(x, m + 1, g, y);
    MomentSumAt(x, m + 1, k, s, g, y);
    MeanAlgebra(x, k, y, g, s, r);
  }

  /** Any `r` with `r g = s` for the mass `g` and first moment `s` of the
      powers of `x` on `0..m` lies strictly inside `(0, m)`. */
  lemma TruncatedMeanWithin(x: real, m: nat, r: real, g: real, s: real)
    requires 0.0 < x && m >= 1
    requires g == Sum(Powers(x), 0, m + 1) && s == Mean(Powers(x), m)
    requires r * g == s
    ensures 0.0 < r < m as real
  {
    PowersWithin(x, m);
    MeanBounds(Powers(x), m);
    SumPositive(Powers(x), 0, m + 1);
    RatioWithin(r, g, s, m as real);
  }

  /** `PowerSum` over flat values: `g` and `y` are the sum of the first `n`
      powers and `x^n`. */
  lemma PowerSumAt(x: real, n: nat, g: real, y: real)
    requires g == Sum(Powers(x), 0, n) && y == Pow(x, n)
    ensures (1.0 - x) * g == 1.0 - y
  {
    PowerSum(x, n);
  }

  /** `MomentSum` over flat values: `k`, `s`, `g`, `y` are `n` as a real,
      the weighted and plain sums of the first `n` powers, and `x^n`. */
  lemma MomentSumAt(x: real, n: nat, k: real, s: real, g: real, y: real)
    requires n >= 1
    requires k == n as real && s == Sum(Moments(Powers(x)), 0, n)
    requires g == Sum(Powers(x), 0, n) && y == Pow(x, n)
    ensures MomentLaw(x, k, s, g, y)
  {
    MomentSum(x, n);
  }

  /** The powers of a base in (0, 1) are positive. */
  lemma PowersWithin(x: real, m: nat)
    requires 0.0 < x
    ensures forall n :: 0 <= n <= m ==> Powers(x)(n) > 0.0
  {
    forall n | 0 <= n <= m
      ensures Powers(x)(n) > 0.0
    {
      PowPositive(x, n);
    }
  }
}

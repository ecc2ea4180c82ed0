/** The occupancy law the M/M/s calculator writes down, stated over its
    ingredients: the offered load `psi`, the number of servers `s` and an
    empty-system probability `p0`. Keeping `p0` a plain number keeps the
    calculator's own (long) formula for it out of these proofs; the
    calculator module instantiates `p0` with that formula.
 */
module MultiServer {
  import opened Numeric

  /** A number of servers: at least one. */
  type ServerCount = s: int | s >= 1 witness 1

  /** A load the servers can keep up with: positive and below `s`. */
  predicate Subcritical(psi: real, s: ServerCount)
  {
    0.0 < psi < s as real
  }

  /** The ingredients the law is defined for: a subcritical load and a
      positive empty-system probability. */
  predicate Stable(psi: real, s: ServerCount, p0: real)
  {
    Subcritical(psi, s) && p0 > 0.0
  }

  /** The load per server, `psi / s`. */
  function Load(psi: real, s: ServerCount): real
  {
    psi / s as real
  }

  /** A subcritical load per server lies strictly between 0 and 1. */
  lemma LoadBounds(psi: real, s: ServerCount)
    requires Subcritical(psi, s)
    ensures 0.0 < Load(psi, s) < 1.0
  {
    RatioBelowOne(psi, s as real);
  }

  /** The spare fraction of each server, `1 - psi/s`. */
  function Gap(psi: real, s: ServerCount): (r: real)
    requires Subcritical(psi, s)
    ensures 0.0 < r < 1.0
  {
    LoadBounds(psi, s);
    1.0 - Load(psi, s)
  }

  /** The summands `psi^s / k!` of the first sum of the empty-system
      probability as the calculator writes it, with the exponent `s` where
      the textbook has `k`. */
  function EmptyTerms(psi: real, s: ServerCount): (f: int -> real)
    ensures forall k :: 0 <= k ==> f(k) == Pow(psi, s) / RealFact(k)
  {
    k => if 0 <= k then Pow(psi, s) / RealFact(k) else 0.0
  }

  /** The second term of the empty-system probability as written,
      `psi^s / (s! (1 - (psi/s)^2))`; positive below the critical load. */
  function EmptyTail(psi: real, s: ServerCount): (r: real)
    requires Subcritical(psi, s)
    ensures r > 0.0
  {
    LoadBounds(psi, s);
    PowPositive(psi, s);
    PowBelowOne(Load(psi, s), 2);
    QuotientOfPositives(Pow(psi, s), RealFact(s), 1.0 - Pow(Load(psi, s), 2));
    Pow(psi, s) / (RealFact(s) * (1.0 - Pow(Load(psi, s), 2)))
  }

  /** The quantity the calculator inverts for the empty-system probability:
      `sum_{k<s} psi^s / k! + psi^s / (s! (1 - (psi/s)^2))`. */
  function EmptyInverse(psi: real, s: ServerCount): (r: real)
    requires Subcritical(psi, s)
    ensures r > 0.0
  {
    EmptyTermsPositive(psi, s);
    Sum(EmptyTerms(psi, s), 0, s) + EmptyTail(psi, s)
  }

  /** The first sum of `EmptyInverse` is positive. */
  lemma EmptyTermsPositive(psi: real, s: ServerCount)
    requires Subcritical(psi, s)
    ensures Sum(EmptyTerms(psi, s), 0, s) > 0.0
  {
    PowPositive(psi, s);
    forall k | 0 <= k < s
      ensures EmptyTerms(psi, s)(k) > 0.0
    {
      QuotientOfPositives(Pow(psi, s), RealFact(k), 1.0);
    }
    SumPositive(EmptyTerms(psi, s), 0, s);
  }

  /** The empty-system probability as the calculator computes it, the
      reciprocal of `EmptyInverse`. */
  function EmptyProbability(psi: real, s: ServerCount): (r: real)
    requires Subcritical(psi, s)
    ensures r > 0.0
  {
    1.0 / EmptyInverse(psi, s)
  }

  /** The denominator `s! s^j` of the tail formula, one factor `s` per unit
      beyond the servers. */
  function ServerScale(s: ServerCount, j: nat): (r: real)
    ensures r >= 1.0
    decreases j
  {
    if j == 0 then RealFact(s) else s as real * ServerScale(s, j - 1)
  }

  /** `ServerScale` is the calculator's `s! * s^j`. */
  lemma {:induction false} ServerScaleIsPower(s: ServerCount, j: nat)
    ensures ServerScale(s, j) == RealFact(s) * Pow(s as real, j)
    decreases j
  {
    if j > 0 {
      ServerScaleIsPower(s, j - 1);
      PowStep(s as real, j);
      Regroup(s as real, RealFact(s), 1.0, Pow(s as real, j - 1));
    } else {
      assert Pow(s as real, 0) == 1.0;
    }
  }

  /** Probability of `n` units given `p0`: `psi^n / n! p0` below the
      servers, `psi^n / (s! s^(n-s)) p0` from them on; 0 for negative `n`,
      which the calculator refuses before reaching this formula. */
  function Occupancy(psi: real, s: ServerCount, p0: real, n: int): real
  {
    if n < 0 then 0.0
    else if n < s then PoissonTerm(psi, n, p0)
    else Pow(psi, n) / ServerScale(s, n - s) * p0
  }

  /** The law as a function of `n`, for summing. */
  function OccupancyOf(psi: real, s: ServerCount, p0: real): (p: int -> real)
    ensures forall n :: p(n) == Occupancy(psi, s, p0, n)
  {
    n => Occupancy(psi, s, p0, n)
  }

  /** With no units the law gives the empty-system probability itself. */
  lemma OccupancyAtZero(psi: real, s: ServerCount, p0: real)
    ensures Occupancy(psi, s, p0, 0) == p0
  {
    assert Pow(psi, 0) == 1.0;
    assert RealFact(0) == 1.0;
  }

  /** From the servers on the law is the calculator's
      `psi^n / (s! s^(n-s)) p0`. */
  lemma TailIsLiteral(psi: real, s: ServerCount, p0: real, n: int)
    requires n >= s
    ensures ServerScale(s, n - s) == RealFact(s) * Pow(s as real, n - s)
    ensures Occupancy(psi, s, p0, n) == Pow(psi, n) / (RealFact(s) * Pow(s as real, n - s)) * p0
  {
    ServerScaleIsPower(s, n - s);
  }

  /** Every probability of a non-negative count is positive. */
  lemma OccupancyPositive(psi: real, s: ServerCount, p0: real, n: int)
    requires Stable(psi, s, p0)
    requires n >= 0
    ensures Occupancy(psi, s, p0, n) > 0.0
  {
    PowPositive(psi, n);
    if n < s {
      ScaledQuotientPositive(Pow(psi, n), RealFact(n), p0);
    } else {
      ScaledQuotientPositive(Pow(psi, n), ServerScale(s, n - s), p0);
    }
  }

  /** The two formulas agree at their seam `n = s`, where `s^(n-s) = 1`. */
  lemma BranchesAgree(psi: real, s: ServerCount, p0: real)
    ensures Occupancy(psi, s, p0, s) == PoissonTerm(psi, s, p0)
  {
  }

  /** Below the servers: `(n + 1) P(n + 1) = psi P(n)`. */
  lemma PoissonRatio(psi: real, s: ServerCount, p0: real, n: nat)
    requires n + 1 <= s
    ensures (n + 1) as real * Occupancy(psi, s, p0, n + 1) == psi * Occupancy(psi, s, p0, n)
  {
    PoissonStep(psi, n, p0);
    if n + 1 == s {
      BranchesAgree(psi, s, p0);
    }
  }

  /** From the servers on: `s P(m) = psi P(n)` for `m = n + 1`. */
  lemma TailStep(psi: real, s: ServerCount, p0: real, n: int, m: int)
    requires n >= s && m == n + 1
    ensures s as real * Occupancy(psi, s, p0, m) == psi * Occupancy(psi, s, p0, n)
  {
    var j := n - s;
    assert m - s == j + 1;
    var a, f := Pow(psi, n), ServerScale(s, j);
    assert Pow(psi, m) == psi * a;
    assert ServerScale(s, m - s) == s as real * f;
    QuotientStep(psi, a, s as real, f, p0);
  }

  /** Past the servers each unit multiplies the probability of one unit
      fewer by the load per server: `P(m) = (psi/s) P(n)` for `m = n + 1`,
      `n >= s`. */
  lemma TailRatio(psi: real, s: ServerCount, p0: real, n: int, m: int)
    requires n >= s && m == n + 1
    ensures Occupancy(psi, s, p0, m) == Load(psi, s) * Occupancy(psi, s, p0, n)
  {
    DivideOut(s as real, psi, Occupancy(psi, s, p0, m), Occupancy(psi, s, p0, n));
    TailStep(psi, s, p0, n, m);
  }

  /** The rate at which `n` units are served: one busy server per unit up
      to `s`, all `s` servers from then on. */
  function ServiceRate(mu: real, s: ServerCount, n: nat): real
  {
    if n < s then mu * n as real else mu * s as real
  }

  /** More units never lower the service rate. */
  lemma ServiceRateGrows(mu: real, s: ServerCount, n: nat, k: nat)
    requires mu >= 0.0 && n <= k
    ensures ServiceRate(mu, s, n) <= ServiceRate(mu, s, k)
  {
    if k < s {
      ScaleMonotone(mu, n as real, k as real);
    } else if n < s {
      ScaleMonotone(mu, n as real, s as real);
    }
  }

  /** Balance while some server stays idle: `n + 1 < s` units are served
      at rate `mu (n + 1)`. */
  lemma BalanceWhileIdle(psi: real, s: ServerCount, p0: real, mu: real, lmbda: real, n: nat)
    requires psi * mu == lmbda && n + 1 < s
    ensures lmbda * Occupancy(psi, s, p0, n) == ServiceRate(mu, s, n + 1) * Occupancy(psi, s, p0, n + 1)
  {
    PoissonRatio(psi, s, p0, n);
    BalanceAtRate(mu, psi, lmbda, (n + 1) as real, ServiceRate(mu, s, n + 1), Occupancy(psi, s, p0, n), Occupancy(psi, s, p0, n + 1));
  }

  /** Balance as the last server turns busy: `s` units are served at rate
      `mu s`. */
  lemma BalanceReachingServers(psi: real, s: ServerCount, p0: real, mu: real, lmbda: real, n: nat)
    requires psi * mu == lmbda && n + 1 == s
    ensures lmbda * Occupancy(psi, s, p0, n) == ServiceRate(mu, s, n + 1) * Occupancy(psi, s, p0, n + 1)
  {
    PoissonRatio(psi, s, p0, n);
    BalanceAtRate(mu, psi, lmbda, s as real, ServiceRate(mu, s, n + 1), Occupancy(psi, s, p0, n), Occupancy(psi, s, p0, n + 1));
  }

  /** Balance once every server is busy: `n + 1` units are served at
      rate `mu s`. */
  lemma BalanceAllBusy(psi: real, s: ServerCount, p0: real, mu: real, lmbda: real, n: nat)
    requires psi * mu == lmbda && n >= s
    ensures lmbda * Occupancy(psi, s, p0, n) == ServiceRate(mu, s, n + 1) * Occupancy(psi, s, p0, n + 1)
  {
    var m := n + 1;
    var p, p1, r := Occupancy(psi, s, p0, n), Occupancy(psi, s, p0, m), ServiceRate(mu, s, m);
    TailStep(psi, s, p0, n, m);
    assert r == mu * s as real;
    BalanceAtRate(mu, psi, lmbda, s as real, r, p, p1);
  }

  /** The birth-death balance at every level: the flow up from `n`,
      `lmbda P(n)`, equals the flow down from `n + 1` at the service rate
      of `n + 1` units. */
  lemma Balance(psi: real, s: ServerCount, p0: real, mu: real, lmbda: real, n: nat)
    requires psi * mu == lmbda
    ensures lmbda * Occupancy(psi, s, p0, n) == ServiceRate(mu, s, n + 1) * Occupancy(psi, s, p0, n + 1)
  {
    if n + 1 < s {
      BalanceWhileIdle(psi, s, p0, mu, lmbda, n);
    } else if n + 1 == s {
      BalanceReachingServers(psi, s, p0, mu, lmbda, n);
    } else {
      BalanceAllBusy(psi, s, p0, mu, lmbda, n);
    }
  }

  /** `Balance` for values already known to be the occupancies and the
      service rate. */
  lemma BalanceOf(psi: real, s: ServerCount, p0: real, mu: real, lmbda: real, n: nat, p: real, r: real, p1: real)
    requires psi * mu == lmbda
    requires p == Occupancy(psi, s, p0, n) && r == ServiceRate(mu, s, n + 1) && p1 == Occupancy(psi, s, p0, n + 1)
    ensures lmbda * p == r * p1
  {
    Balance(psi, s, p0, mu, lmbda, n);
  }

  /** The law is geometric with ratio `psi / s` from `s` on. */
  lemma {:induction false} TailGeometric(psi: real, s: ServerCount, p0: real, k: int)
    ensures Geometric(OccupancyOf(psi, s, p0), Load(psi, s), s, k)
    decreases k
  {
    if k > 0 {
      TailGeometric(psi, s, p0, k - 1);
      TailGeometricStep(psi, s, p0, k);
    }
  }

  /** One more unit past the servers keeps the law geometric. */
  lemma TailGeometricStep(psi: real, s: ServerCount, p0: real, k: int)
    requires k >= 1
    requires Geometric(OccupancyOf(psi, s, p0), Load(psi, s), s, k - 1)
    ensures Geometric(OccupancyOf(psi, s, p0), Load(psi, s), s, k)
  {
    TailRatio(psi, s, p0, s + k - 1, s + k);
    GeometricExtend(OccupancyOf(psi, s, p0), Load(psi, s), s, k);
  }

  /** The `k`-th tail probability is `(psi/s)^k P(s)`. */
  lemma TailTerm(psi: real, s: ServerCount, p0: real, k: nat)
    ensures Occupancy(psi, s, p0, s + k) == Pow(Load(psi, s), k) * Occupancy(psi, s, p0, s)
  {
    TailGeometric(psi, s, p0, k);
    GeometricTerm(OccupancyOf(psi, s, p0), Load(psi, s), s, k);
  }

  /** The busy-servers probability as the calculator writes it:
      `p0 psi^s / (s! (1 - psi/s))`. */
  function AtLeastServers(psi: real, s: ServerCount, p0: real): real
    requires Subcritical(psi, s)
  {
    p0 * Pow(psi, s) / (RealFact(s) * Gap(psi, s))
  }

  /** The busy-servers probability is the geometric tail started at `P(s)`:
      `Pgeq (1 - psi/s) = P(s)`, and it is positive. */
  lemma AtLeastServersIsTail(psi: real, s: ServerCount, p0: real)
    requires Stable(psi, s, p0)
    ensures AtLeastServers(psi, s, p0) * Gap(psi, s) == Occupancy(psi, s, p0, s)
    ensures AtLeastServers(psi, s, p0) > 0.0
  {
    SwapQuotient(p0, Pow(psi, s), RealFact(s), Gap(psi, s));
    OccupancyPositive(psi, s, p0, s);
  }

  /** The tail probabilities from `s` to `s + k - 1` add up to the
      busy-servers probability less the geometric remainder
      `P(s + k) / (1 - psi/s)`: `Pgeq` is the mass of the whole tail, and
      every partial tail stays below it. */
  lemma TailPartialSum(psi: real, s: ServerCount, p0: real, k: nat)
    requires Stable(psi, s, p0)
    ensures Sum(OccupancyOf(psi, s, p0), s, s + k)
         == AtLeastServers(psi, s, p0) - Occupancy(psi, s, p0, s + k) / Gap(psi, s)
    ensures Sum(OccupancyOf(psi, s, p0), s, s + k) < AtLeastServers(psi, s, p0)
  {
    TailGeometric(psi, s, p0, k);
    AtLeastServersIsTail(psi, s, p0);
    OccupancyPositive(psi, s, p0, s + k);
    LoadBounds(psi, s);
    GeometricTailSum(OccupancyOf(psi, s, p0), Load(psi, s), s, k, AtLeastServers(psi, s, p0));
  }

  /** The factor `psi^(s+1) / (s s! (1 - psi/s)^2)` of both queue means as
      the calculator writes them; positive below the critical load. */
  function QueueFactor(psi: real, s: ServerCount): (r: real)
    requires Subcritical(psi, s)
    ensures r > 0.0
  {
    PowPositive(psi, s + 1);
    PositiveProduct(Gap(psi, s), Gap(psi, s));
    ProductPositive(s as real, RealFact(s), Gap(psi, s) * Gap(psi, s));
    Pow(psi, s + 1) / (s as real * RealFact(s) * (Gap(psi, s) * Gap(psi, s)))
  }

  /** `QueueFactor p0` is the expected queue of the geometric tail,
      `Pgeq (psi/s) / (1 - psi/s)`. */
  lemma QueueFactorIsTail(psi: real, s: ServerCount, p0: real)
    requires Subcritical(psi, s)
    ensures QueueFactor(psi, s) * p0 == AtLeastServers(psi, s, p0) * (Load(psi, s) / Gap(psi, s))
  {
    var g := Gap(psi, s);
    assert Pow(psi, s + 1) == psi * Pow(psi, s);
    PositiveProduct(g, g);
    QueueFactorTimes(psi, s);
    AtLeastServersTimes(psi, s, p0);
    TailQueueAlgebra(psi, Pow(psi, s), Pow(psi, s + 1), s as real, RealFact(s), g, g * g, p0,
                     QueueFactor(psi, s), AtLeastServers(psi, s, p0), Load(psi, s));
  }

  /** `QueueFactor` times its denominator is its numerator. */
  lemma QueueFactorTimes(psi: real, s: ServerCount)
    requires Subcritical(psi, s)
    ensures QueueFactor(psi, s) * (s as real * RealFact(s) * (Gap(psi, s) * Gap(psi, s))) == Pow(psi, s + 1)
  {
    PositiveProduct(Gap(psi, s), Gap(psi, s));
    ProductPositive(s as real, RealFact(s), Gap(psi, s) * Gap(psi, s));
    QuotientTimesDivisor(QueueFactor(psi, s), Pow(psi, s + 1), s as real * RealFact(s) * (Gap(psi, s) * Gap(psi, s)));
  }

  /** `AtLeastServers` times its denominator is its numerator. */
  lemma AtLeastServersTimes(psi: real, s: ServerCount, p0: real)
    requires Subcritical(psi, s)
    ensures AtLeastServers(psi, s, p0) * (RealFact(s) * Gap(psi, s)) == p0 * Pow(psi, s)
  {
    QuotientTimesDivisor(AtLeastServers(psi, s, p0), p0 * Pow(psi, s), RealFact(s) * Gap(psi, s));
  }
}

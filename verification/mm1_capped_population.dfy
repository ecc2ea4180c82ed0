/** The M/M/1 queue with a finite population of `m` sources (the
    machine-repair model): one server, unbounded room, and each of the `m`
    sources generates arrivals at rate `lmbda` while it is outside the
    system. The probability of `n` units can be computed by a closed form or
    by a recursion; the two agree (`StrategiesAgree`).
 */
module MM1CappedPopulation {
  import opened Outcomes
  import opened Numeric

  /** A calculator instance, immutable once built; `population` is `m`. */
  datatype Queue = Queue(lmbda: real, mu: real, psi: real, population: int)

  /** How `ProbabilityOfNUnits` computes its value: the closed form
      `P0 m!/(m-n)! psi^n`, or the recursion on `n`. */
  datatype Strategy = Default | Recursive

  /** The instances the accessors are defined on: positive rates and a
      population of at least one source (both assumed, never checked, by the
      calculator), the stability guard of the constructor, and
      `psi = lmbda / mu` stated without the division. */
  predicate Valid(q: Queue)
  {
    && 0.0 < q.lmbda
    && 0.0 < q.mu
    && q.lmbda < q.mu
    && q.psi * q.mu == q.lmbda
    && q.population >= 1
  }

  /** The constructor: applies the same stability guard as the unbounded
      queue, although a finite population would be stable at any load. */
  function New(lmbda: real, mu: real, population: int): (r: Result<Queue>)
    requires mu != 0.0 || lmbda >= mu
    ensures r.Err? <==> lmbda >= mu
    ensures r.Err? ==> r.error == Unstable
    ensures r.Ok? ==> r.value.lmbda == lmbda && r.value.mu == mu && r.value.population == population
    ensures r.Ok? ==> r.value.psi * mu == lmbda
    ensures r.Ok? && 0.0 < lmbda && population >= 1 ==> Valid(r.value)
  {
    if lmbda >= mu then Err(Unstable) else Ok(Queue(lmbda, mu, lmbda / mu, population))
  }

  /** A valid instance has a utilisation strictly between 0 and 1. */
  lemma {:induction false} UtilisationBounds(q: Queue)
    requires Valid(q)
    ensures 0.0 < q.psi < 1.0
  {
    RatioBelowOne(q.lmbda, q.mu);
    assert q.psi == q.lmbda / q.mu;
  }

  /** The `k`-th term `m! psi^k / (m-k)!` of the normalising sum, built up
      as the product `m (m-1) ... (m-k+1) psi^k` so that no division is
      involved; `WeightIsQuotient` shows it is the quotient the Python
      code writes. */
  function Weight(q: Queue, k: int): (r: real)
    requires Valid(q)
    requires 0 <= k <= q.population
    ensures r > 0.0
    decreases k
  {
    if k == 0 then 1.0
    else
      UtilisationBounds(q);
      var w := Weight(q, k - 1);
      ProductPositive((q.population - k + 1) as real, q.psi, w);
      (q.population - k + 1) as real * q.psi * w
  }

  /** One factor of the falling product: with `j = m - k`,
      `Weight(k) = (j + 1) psi Weight(k - 1)`. */
  lemma {:induction false} WeightStep(q: Queue, k: int, j: int)
    requires Valid(q)
    requires 1 <= k <= q.population && j == q.population - k
    ensures Weight(q, k) == (j + 1) as real * q.psi * Weight(q, k - 1)
  {
  }

  /** The product form of a weight times `(m-k)!` is `m! psi^k`; the
      complement `j = m - k` is passed along so that each step is stated on
      the same terms as the previous one. */
  lemma {:induction false} WeightTimesFact(q: Queue, k: int, j: nat)
    requires Valid(q)
    requires 0 <= k <= q.population && j == q.population - k
    ensures Weight(q, k) * RealFact(j) == RealFact(q.population) * Pow(q.psi, k)
    decreases k
  {
    if k > 0 {
      WeightTimesFact(q, k - 1, j + 1);
      WeightTimesFactStep(q, k, j);
    } else {
      assert Pow(q.psi, 0) == 1.0;
    }
  }

  /** The inductive step of `WeightTimesFact`, from `k - 1` to `k`. */
  lemma WeightTimesFactStep(q: Queue, k: int, j: nat)
    requires Valid(q)
    requires 1 <= k <= q.population && j == q.population - k
    requires Weight(q, k - 1) * RealFact(j + 1) == RealFact(q.population) * Pow(q.psi, k - 1)
    ensures Weight(q, k) * RealFact(j) == RealFact(q.population) * Pow(q.psi, k)
  {
    WeightStep(q, k, j);
    RealFactStep(j);
    PowStep(q.psi, k);
    FallingStep(Weight(q, k - 1), Weight(q, k), (j + 1) as real, q.psi,
                RealFact(j), RealFact(j + 1), RealFact(q.population), Pow(q.psi, k - 1), Pow(q.psi, k));
  }

  /** The weight is the calculator's summand `m! psi^k / (m-k)!`. */
  lemma {:induction false} WeightIsQuotient(q: Queue, k: int)
    requires Valid(q)
    requires 0 <= k <= q.population
    ensures Weight(q, k) == RealFact(q.population) * Pow(q.psi, k) / RealFact(q.population - k)
  {
    WeightTimesFact(q, k, q.population - k);
  }

  /** The weights as a function of `k`, for summing; 0 outside `0..m`. */
  function WeightOf(q: Queue): (w: int -> real)
    requires Valid(q)
    ensures forall k :: 0 <= k <= q.population ==> w(k) == Weight(q, k)
  {
    k => if 0 <= k <= q.population then Weight(q, k) else 0.0
  }

  /** The normalising sum `sum_{k=1..m} m! psi^k / (m-k)!` is positive. */
  lemma {:induction false} WeightSumPositive(q: Queue)
    requires Valid(q)
    ensures Sum(WeightOf(q), 1, q.population + 1) > 0.0
  {
    forall k | 1 <= k < q.population + 1
      ensures WeightOf(q)(k) > 0.0
    {
      assert WeightOf(q)(k) == Weight(q, k);
    }
    SumPositive(WeightOf(q), 1, q.population + 1);
  }

  /** Probability that no unit is in the system:
      `1 / (1 + sum_{k=1..m} m! psi^k / (m-k)!)`. */
  function ProbabilityOfZeroUnits(q: Queue): (r: real)
    requires Valid(q)
    ensures 0.0 < r < 1.0
  {
    var total := 1.0 + Sum(WeightOf(q), 1, q.population + 1);
    WeightSumPositive(q);
    ReciprocalAboveOne(1.0 / total);
    1.0 / total
  }

  /** The recursive strategy: `P(1) = m psi P0` and
      `P(n) = (m - n + 1) psi P(n - 1)` beyond. */
  function PnRecursive(q: Queue, n: int): real
    requires Valid(q)
    requires n >= 1
    decreases n
  {
    if n == 1 then (q.population - n + 1) as real * q.psi * ProbabilityOfZeroUnits(q)
    else (q.population - n + 1) as real * q.psi * PnRecursive(q, n - 1)
  }

  /** The default strategy, the closed form `P0 m! psi^n / (m - n)!`,
      computed as the empty-system probability times the weight of `n`;
      `DefaultIsClosedForm` shows it is the calculator's quotient. */
  function PnDefault(q: Queue, n: int): real
    requires Valid(q)
    requires 0 <= n <= q.population
  {
    ProbabilityOfZeroUnits(q) * Weight(q, n)
  }

  /** The default strategy's value is `P0 m! psi^n / (m - n)!`. */
  lemma {:induction false} DefaultIsClosedForm(q: Queue, n: int)
    requires Valid(q)
    requires 0 <= n <= q.population
    ensures PnDefault(q, n)
         == ProbabilityOfZeroUnits(q) * RealFact(q.population) * Pow(q.psi, n) / RealFact(q.population - n)
  {
    WeightIsQuotient(q, n);
    MulDivAssoc(ProbabilityOfZeroUnits(q), RealFact(q.population), Pow(q.psi, n), RealFact(q.population - n));
  }

  /** Probability of exactly `n` units in the system, by the chosen
      strategy: refused below 0 and above the population, `P0` at 0
      whatever the strategy, positive in between (`OccupancyIsWeighted`
      gives the value there). */
  function ProbabilityOfNUnits(q: Queue, n: int, strategy: Strategy): (r: Result<real>)
    requires Valid(q)
    ensures r.Err? <==> n < 0 || n > q.population
    ensures n < 0 ==> r == Err(NegativeUnits)
    ensures n > q.population ==> r == Err(UnitsAbovePopulation)
    ensures n == 0 ==> r == Ok(ProbabilityOfZeroUnits(q))
    ensures r.Ok? ==> r.value > 0.0
  {
    if n < 0 then Err(NegativeUnits)
    else if n == 0 then Ok(ProbabilityOfZeroUnits(q))
    else if n > q.population then Err(UnitsAbovePopulation)
    else
      match strategy
      case Default => Ok(PnDefault(q, n))
      case Recursive => RecursiveIsWeighted(q, n); Ok(PnRecursive(q, n))
  }

  /** Inside the population, whatever the strategy, the probability of `n`
      units is `P0` times the weight of `n`. */
  lemma {:induction false} OccupancyIsWeighted(q: Queue, n: int, strategy: Strategy)
    requires Valid(q)
    requires 1 <= n <= q.population
    ensures ProbabilityOfNUnits(q, n, strategy) == Ok(ProbabilityOfZeroUnits(q) * Weight(q, n))
  {
    if strategy == Default {
      assert PnDefault(q, n) == ProbabilityOfZeroUnits(q) * Weight(q, n);
      assert ProbabilityOfNUnits(q, n, Default) == Ok(PnDefault(q, n));
    } else {
      RecursiveIsWeighted(q, n);
      assert ProbabilityOfNUnits(q, n, Recursive) == Ok(PnRecursive(q, n));
    }
  }

  /** The recursion is the empty-system probability times the weight of `n`. */
  lemma {:induction false} RecursiveIsWeighted(q: Queue, n: int)
    requires Valid(q)
    requires 1 <= n <= q.population
    ensures PnRecursive(q, n) == ProbabilityOfZeroUnits(q) * Weight(q, n)
    decreases n
  {
    if n == 1 {
      assert Weight(q, 0) == 1.0;
    } else {
      RecursiveIsWeighted(q, n - 1);
    }
    Regroup(ProbabilityOfZeroUnits(q), (q.population - n + 1) as real, q.psi, Weight(q, n - 1));
  }

  /** The two strategies agree for every `1 <= n <= m`, and so the accessor
      returns the same value whatever the strategy. */
  lemma {:induction false} StrategiesAgree(q: Queue, n: int)
    requires Valid(q)
    requires 1 <= n <= q.population
    ensures PnRecursive(q, n) == PnDefault(q, n)
    ensures ProbabilityOfNUnits(q, n, Default) == ProbabilityOfNUnits(q, n, Recursive)
  {
    RecursiveIsWeighted(q, n);
  }

  /** The balance between `n - 1` and `n` units, `lmbda (m - n + 1) P(n-1) =
      mu P(n)`, in the form `P(n) = (m - n + 1) psi P(n - 1)`. */
  lemma {:induction false} BalanceStep(q: Queue, n: int, strategy: Strategy)
    requires Valid(q)
    requires 1 <= n <= q.population
    ensures ProbabilityOfNUnits(q, n, strategy).value
         == (q.population - n + 1) as real * q.psi * ProbabilityOfNUnits(q, n - 1, strategy).value
  {
    OccupancyIsWeighted(q, n, strategy);
    if n > 1 {
      OccupancyIsWeighted(q, n - 1, strategy);
    }
    Regroup(ProbabilityOfZeroUnits(q), (q.population - n + 1) as real, q.psi, Weight(q, n - 1));
  }

  /** The occupancy probabilities of a strategy as a function of `n`, for
      summing; 0 where the accessor refuses `n`. */
  function OccupancyOf(q: Queue, strategy: Strategy): (p: int -> real)
    requires Valid(q)
    ensures forall n :: 0 <= n <= q.population ==> p(n) == ProbabilityOfNUnits(q, n, strategy).value
  {
    n => var r := ProbabilityOfNUnits(q, n, strategy); if r.Ok? then r.value else 0.0
  }

  /** The empty-system probability times `1 + sum_k Weight(k)` is 1. */
  lemma {:induction false} ZeroUnitsNormalises(q: Queue)
    requires Valid(q)
    ensures ProbabilityOfZeroUnits(q) + ProbabilityOfZeroUnits(q) * Sum(WeightOf(q), 1, q.population + 1) == 1.0
  {
    WeightSumPositive(q);
    var total := 1.0 + Sum(WeightOf(q), 1, q.population + 1);
    assert (1.0 / total) * total == 1.0;
  }

  /** Once the normalising sum is known to be `c`, the empty-system
      probability is the reciprocal of `1 + c`. */
  lemma ZeroUnitsFromSum(q: Queue, c: real)
    requires Valid(q)
    requires Sum(WeightOf(q), 1, q.population + 1) == c
    ensures ProbabilityOfZeroUnits(q) * (1.0 + c) == 1.0
  {
    ZeroUnitsNormalises(q);
    var p0 := ProbabilityOfZeroUnits(q);
    assert p0 + p0 * c == 1.0;
  }

  /** `OccupancyIsWeighted` for the summed forms of the law and the weights. */
  lemma OccupancyTermIsWeighted(q: Queue, strategy: Strategy, n: int)
    requires Valid(q)
    requires 1 <= n <= q.population
    ensures OccupancyOf(q, strategy)(n) == ProbabilityOfZeroUnits(q) * WeightOf(q)(n)
  {
    OccupancyIsWeighted(q, n, strategy);
    assert OccupancyOf(q, strategy)(n) == ProbabilityOfNUnits(q, n, strategy).value;
    assert WeightOf(q)(n) == Weight(q, n);
  }

  /** Beyond the empty system the summed law is `P0` times the summed
      weights, term by term. */
  lemma OccupancyScalesWeights(q: Queue, strategy: Strategy, f: int -> real, g: int -> real, p0: real, hi: int)
    requires Valid(q)
    requires f == WeightOf(q) && g == OccupancyOf(q, strategy) && p0 == ProbabilityOfZeroUnits(q)
    requires hi == q.population + 1
    ensures forall n :: 1 <= n < hi ==> g(n) == p0 * f(n)
  {
    forall n | 1 <= n < hi
      ensures g(n) == p0 * f(n)
    {
      OccupancyTermIsWeighted(q, strategy, n);
    }
  }

  /** Beyond the empty system, the occupancy probabilities add up to `P0`
      times the normalising sum. */
  lemma {:induction false} BusyMass(q: Queue, strategy: Strategy)
    requires Valid(q)
    ensures Sum(OccupancyOf(q, strategy), 1, q.population + 1)
         == ProbabilityOfZeroUnits(q) * Sum(WeightOf(q), 1, q.population + 1)
  {
    var f, g, p0, hi := WeightOf(q), OccupancyOf(q, strategy), ProbabilityOfZeroUnits(q), q.population + 1;
    OccupancyScalesWeights(q, strategy, f, g, p0, hi);
    SumScale(f, g, p0, 1, hi);
  }

  /** Normalisation: the probabilities of `0..m` units sum to 1, whichever
      strategy computes them, and those of `1..m` to the probability that
      the server is busy. */
  lemma {:induction false} Normalisation(q: Queue, strategy: Strategy)
    requires Valid(q)
    ensures Sum(OccupancyOf(q, strategy), 0, q.population + 1) == 1.0
    ensures Sum(OccupancyOf(q, strategy), 1, q.population + 1) == ProbabilityOfWaiting(q)
  {
    BusyMass(q, strategy);
    ZeroUnitsNormalises(q);
    SumSplitFirst(OccupancyOf(q, strategy), 0, q.population + 1);
    assert OccupancyOf(q, strategy)(0) == ProbabilityOfZeroUnits(q);
  }

  /** Mean number of units in the system, `m - (1 - P0) / psi`. */
  function SystemUnitsAmountMean(q: Queue): (r: real)
    requires Valid(q)
    ensures r < q.population as real
  {
    OutsidePositive(q);
    q.population as real - (1.0 / q.psi) * (1.0 - ProbabilityOfZeroUnits(q))
  }

  /** `(1 - P0) / psi`, written `(1/psi)(1 - P0)`, is positive. */
  lemma OutsidePositive(q: Queue)
    requires Valid(q)
    ensures (1.0 / q.psi) * (1.0 - ProbabilityOfZeroUnits(q)) > 0.0
  {
    UtilisationBounds(q);
    var inv, busy := 1.0 / q.psi, 1.0 - ProbabilityOfZeroUnits(q);
    assert inv > 0.0 && busy > 0.0;
    assert inv * busy > 0.0;
  }

  /** Mean number of units waiting, `m - ((1 + psi) / psi)(1 - P0)`. */
  function QueueUnitsAmountMean(q: Queue): real
    requires Valid(q)
  {
    q.population as real - ((1.0 + q.psi) / q.psi) * (1.0 - ProbabilityOfZeroUnits(q))
  }

  /** Mean number of idle servers, `sum_{n=0..1} (1 - n) P(n)`: the `n = 1`
      term has weight 0, so it is the empty-system probability. */
  function UnoccupiedServersMean(q: Queue): (r: real)
    requires Valid(q)
    ensures r == ProbabilityOfZeroUnits(q)
  {
    (1 - 0) as real * ProbabilityOfNUnits(q, 0, Default).value
      + (1 - 1) as real * ProbabilityOfNUnits(q, 1, Default).value
  }

  /** Mean number of sources outside the system, `(1 - P0) / psi`. */
  function UnitsOutsideSystemMean(q: Queue): (r: real)
    requires Valid(q)
    ensures r > 0.0
  {
    OutsidePositive(q);
    (1.0 / q.psi) * (1.0 - ProbabilityOfZeroUnits(q))
  }

  /** Mean arrival rate: each source outside the system arrives at `lmbda`. */
  function ArrivalRateMean(q: Queue): (r: real)
    requires Valid(q)
    ensures r > 0.0
  {
    var outside := UnitsOutsideSystemMean(q);
    q.lmbda * outside
  }

  /** Mean time in the queue: the queue length over the mean arrival rate. */
  function TimeInQueueMean(q: Queue): real
    requires Valid(q)
  {
    QueueUnitsAmountMean(q) / (q.lmbda * UnitsOutsideSystemMean(q))
  }

  /** Mean time in the system, `(1/mu)(m / (1 - P0) - 1/psi)`. */
  function TimeInSystemMean(q: Queue): real
    requires Valid(q)
  {
    (1.0 / q.mu) * (q.population as real / (1.0 - ProbabilityOfZeroUnits(q)) - 1.0 / q.psi)
  }

  /** Mean service time, the reciprocal of the service rate. */
  function TimeOfServiceMean(q: Queue): (r: real)
    requires Valid(q)
    ensures r * q.mu == 1.0
  {
    1.0 / q.mu
  }

  /** Probability that an arriving unit has to wait at all: the server is busy. */
  function ProbabilityOfWaiting(q: Queue): (r: real)
    requires Valid(q)
    ensures 0.0 < r < 1.0
    ensures r + UnoccupiedServersMean(q) == 1.0
  {
    1.0 - ProbabilityOfZeroUnits(q)
  }

  /** Probability of waiting longer than `t`. The exponential `np.exp` is
      not modelled: `exp` stands for it. Negative thresholds are refused, and
      at `t = 0` the answer is the probability of waiting at all, whatever
      `exp` is. */
  function ProbabilityOfWaitingOver(q: Queue, t: real, exp: real -> real): (r: Result<real>)
    requires Valid(q)
    ensures r.Err? <==> t < 0.0
    ensures r.Err? ==> r.error == NegativeTime
    ensures t == 0.0 ==> r == Ok(ProbabilityOfWaiting(q))
  {
    if t < 0.0 then Err(NegativeTime)
    else if t == 0.0 then Ok(ProbabilityOfWaiting(q))
    else Ok(q.psi * exp(q.mu * t * (q.psi - 1.0)))
  }

  /** The balance equation between `k - 1` and `k` units in terms of the
      summed law: `P(k) = psi ((m - k + 1) P(k - 1))`, with `j = m - k + 1`. */
  lemma {:induction false} OccupancyBalanceStep(q: Queue, strategy: Strategy, k: int, j: int)
    requires Valid(q)
    requires 1 <= k <= q.population && j == q.population - k + 1
    ensures OccupancyOf(q, strategy)(k) == q.psi * Complements(OccupancyOf(q, strategy), q.population)(k - 1)
  {
    BalanceStep(q, k, strategy);
    var p, p1 := ProbabilityOfNUnits(q, k - 1, strategy).value, ProbabilityOfNUnits(q, k, strategy).value;
    assert p1 == j as real * q.psi * p;
    assert OccupancyOf(q, strategy)(k) == p1;
    assert Complements(OccupancyOf(q, strategy), q.population)(k - 1) == j as real * p;
    assert j as real * q.psi * p == q.psi * (j as real * p);
  }

  /** The occupancy law satisfies the balance equations for `n = 1..k`. */
  lemma {:induction false} OccupancyBalanced(q: Queue, strategy: Strategy, k: int)
    requires Valid(q)
    requires 0 <= k <= q.population
    ensures Balanced(OccupancyOf(q, strategy), q.psi, q.population, k)
    decreases k
  {
    if k > 0 {
      OccupancyBalanced(q, strategy, k - 1);
      OccupancyBalanceStep(q, strategy, k, q.population - k + 1);
    }
  }

  /** The occupancy law is the law of a finite-source chain with ratio `psi`. */
  lemma OccupancyIsFiniteSourceLaw(q: Queue, strategy: Strategy)
    requires Valid(q)
    ensures FiniteSourceLaw(OccupancyOf(q, strategy), q.psi, q.population)
  {
    UtilisationBounds(q);
    OccupancyBalanced(q, strategy, q.population);
    Normalisation(q, strategy);
  }

  /** The mean of the occupancy law in terms of its first probability:
      `sum_{n=0..m} n P(n) = m - (1 - P(0)) / psi`. */
  lemma {:induction false} OccupancyMean(q: Queue, strategy: Strategy)
    requires Valid(q)
    ensures Mean(OccupancyOf(q, strategy), q.population)
         == q.population as real - (1.0 / q.psi) * (1.0 - OccupancyOf(q, strategy)(0))
  {
    OccupancyIsFiniteSourceLaw(q, strategy);
    FiniteSourceMean(OccupancyOf(q, strategy), q.psi, q.population);
  }

  /** The closed form of the mean occupancy is the mean of the occupancy
      law: `m - (1 - P0)/psi = sum_{n=0..m} n P(n)`, whichever strategy
      computes the probabilities. */
  lemma {:induction false} SystemMeanIsExpectation(q: Queue, strategy: Strategy)
    requires Valid(q)
    ensures Mean(OccupancyOf(q, strategy), q.population) == SystemUnitsAmountMean(q)
  {
    OccupancyMean(q, strategy);
    assert OccupancyOf(q, strategy)(0) == ProbabilityOfZeroUnits(q);
  }

  /** Every source is either in the system or outside it: the two means add
      up to the population. */
  lemma OutsidePlusSystem(q: Queue)
    requires Valid(q)
    ensures UnitsOutsideSystemMean(q) + SystemUnitsAmountMean(q) == q.population as real
  {
  }

  /** Flow balance: units arrive at the rate at which the busy server
      completes them, `lmbda (1 - P0) / psi = mu (1 - P0)`. */
  lemma FlowBalance(q: Queue)
    requires Valid(q)
    ensures ArrivalRateMean(q) == q.mu * ProbabilityOfWaiting(q)
  {
    UtilisationBounds(q);
    RateOverUtilisation(q.psi, q.mu, q.lmbda, 1.0 - ProbabilityOfZeroUnits(q));
  }

  /** The queue holds the system's units less the one in service:
      `Lq = L - (1 - P0)`. */
  lemma QueueIsSystemLessServed(q: Queue)
    requires Valid(q)
    ensures QueueUnitsAmountMean(q) == SystemUnitsAmountMean(q) - ProbabilityOfWaiting(q)
  {
    UtilisationBounds(q);
    OneMoreOverRatio(q.psi, 1.0 - ProbabilityOfZeroUnits(q));
  }

  /** Little's law for the system: the mean time in the system times the
      mean arrival rate is the mean number in the system. */
  lemma LittlesLawSystem(q: Queue)
    requires Valid(q)
    ensures TimeInSystemMean(q) * ArrivalRateMean(q) == SystemUnitsAmountMean(q)
  {
    UtilisationBounds(q);
    FlowBalance(q);
    SojournTimesRate(q.mu, q.psi, q.population as real, 1.0 - ProbabilityOfZeroUnits(q));
  }

  /** Little's law for the queue: the mean time in the queue times the mean
      arrival rate is the mean number waiting. */
  lemma LittlesLawQueue(q: Queue)
    requires Valid(q)
    ensures TimeInQueueMean(q) * ArrivalRateMean(q) == QueueUnitsAmountMean(q)
  {
    var a := ArrivalRateMean(q);
    assert a == q.lmbda * UnitsOutsideSystemMean(q);
    CancelDivision(QueueUnitsAmountMean(q), a);
  }

  /** The time in the system is the time in the queue plus the service time. */
  lemma SojournSplit(q: Queue)
    requires Valid(q)
    ensures TimeInSystemMean(q) == TimeInQueueMean(q) + TimeOfServiceMean(q)
  {
    UtilisationBounds(q);
    SojournAlgebra(q.psi, q.mu, q.lmbda, q.population as real, 1.0 - ProbabilityOfZeroUnits(q));
  }

  /** The closed form of the mean queue length is the expected number of
      units beyond the one in service: the mean of the occupancy law less
      the probability that the server is busy. */
  lemma QueueMeanIsExpectation(q: Queue, strategy: Strategy)
    requires Valid(q)
    ensures QueueUnitsAmountMean(q)
         == Mean(OccupancyOf(q, strategy), q.population) - Sum(OccupancyOf(q, strategy), 1, q.population + 1)
  {
    SystemMeanIsExpectation(q, strategy);
    Normalisation(q, strategy);
    QueueIsSystemLessServed(q);
  }

  /** The six-source scenario `lmbda = 1/4`, `mu = 3/2`, `m = 6` has
      `psi = 1/6` and weights `1, 5/6, 5/9, 5/18, 5/54, 5/324`. */
  lemma SixSourceWeights()
    ensures New(0.25, 1.5, 6).Ok? && Valid(New(0.25, 1.5, 6).value)
    ensures Sum(WeightOf(New(0.25, 1.5, 6).value), 1, 7) == 899.0 / 324.0
  {
    var q := New(0.25, 1.5, 6).value;
    assert q.psi == 1.0 / 6.0;
    var w := WeightOf(q);
    assert w(1) == Weight(q, 1) == 1.0;
    assert w(2) == Weight(q, 2) == 5.0 / 6.0;
    assert w(3) == Weight(q, 3) == 5.0 / 9.0;
    assert w(4) == Weight(q, 4) == 5.0 / 18.0;
    assert w(5) == Weight(q, 5) == 5.0 / 54.0;
    assert w(6) == Weight(q, 6) == 5.0 / 324.0;
    assert Sum(w, 1, 1) == 0.0;
    assert Sum(w, 1, 2) == 1.0;
    assert Sum(w, 1, 3) == 11.0 / 6.0;
    assert Sum(w, 1, 4) == 43.0 / 18.0;
    assert Sum(w, 1, 5) == 48.0 / 18.0;
    assert Sum(w, 1, 6) == 149.0 / 54.0;
  }

  /** The six-source scenario's empty-system probability, `324/1223`. */
  lemma SixSourceZeroUnits()
    ensures New(0.25, 1.5, 6).Ok? && Valid(New(0.25, 1.5, 6).value)
    ensures ProbabilityOfZeroUnits(New(0.25, 1.5, 6).value) == 324.0 / 1223.0
  {
    SixSourceWeights();
    var q := New(0.25, 1.5, 6).value;
    ZeroUnitsFromSum(q, 899.0 / 324.0);
  }

  /** The six-source scenario's means: `5394/1223` sources outside and
      `1045/1223` units waiting. */
  lemma SixSourceMeans()
    ensures New(0.25, 1.5, 6).Ok? && Valid(New(0.25, 1.5, 6).value)
    ensures UnitsOutsideSystemMean(New(0.25, 1.5, 6).value) == 5394.0 / 1223.0
    ensures QueueUnitsAmountMean(New(0.25, 1.5, 6).value) == 1045.0 / 1223.0
  {
    SixSourceZeroUnits();
    var q := New(0.25, 1.5, 6).value;
    assert q.psi == 1.0 / 6.0;
  }

  /** The six-source scenario: `P0 = 324/1223`, `(1 - P0)/psi = 5394/1223`
      sources outside and `Wq = 2090/2697`. */
  lemma SixSourceScenario()
    ensures New(0.25, 1.5, 6).Ok? && Valid(New(0.25, 1.5, 6).value)
    ensures ProbabilityOfZeroUnits(New(0.25, 1.5, 6).value) == 324.0 / 1223.0
    ensures UnitsOutsideSystemMean(New(0.25, 1.5, 6).value) == 5394.0 / 1223.0
    ensures TimeInQueueMean(New(0.25, 1.5, 6).value) == 2090.0 / 2697.0
  {
    SixSourceZeroUnits();
    SixSourceMeans();
  }
}

/** The M/M/s calculator with unbounded capacity and unbounded population:
    `s` identical servers, Poisson arrivals at rate `lmbda`, exponential
    service at rate `mu` per server, offered load `psi = lmbda / mu` and
    load per server `psi / s`.

    The occupancy law and its consequences live in `MultiServer`; this
    module is the calculator itself: its constructor guard, its accessors
    and what each of them promises. The empty-system probability and the
    queue mean are the formulas the calculator writes, which are not the
    textbook M/M/s ones; `QueueMeanAsWritten`, `EightyFiftyScenario` and
    `LightLoadScenario` state what they amount to.
 */
module MMSUncapped {
  import opened Outcomes
  import opened Numeric
  import opened MultiServer

  /** A calculator instance, immutable once built; `servers` is `s`. */
  datatype Queue = Queue(lmbda: real, mu: real, psi: real, servers: int)

  /** The instances the accessors are defined on: positive rates and at
      least one server (assumed, never checked, by the calculator), the
      stability guard of the constructor, and `psi = lmbda / mu` stated
      without the division. */
  predicate Valid(q: Queue)
  {
    && 0.0 < q.lmbda
    && 0.0 < q.mu
    && q.servers >= 1
    && q.lmbda < q.servers as real * q.mu
    && q.psi * q.mu == q.lmbda
  }

  /** The constructor: refuses an arrival rate the `s` servers together
      cannot keep up with. */
  function New(lmbda: real, mu: real, servers: int): (r: Result<Queue>)
    requires mu != 0.0 || lmbda >= servers as real * mu
    ensures r.Err? <==> lmbda >= servers as real * mu
    ensures r.Err? ==> r.error == Unstable
    ensures r.Ok? ==> r.value.lmbda == lmbda && r.value.mu == mu && r.value.servers == servers
    ensures r.Ok? ==> r.value.psi * mu == lmbda
    ensures r.Ok? && 0.0 < lmbda && 0.0 < mu && servers >= 1 ==> Valid(r.value)
  {
    if lmbda >= servers as real * mu then Err(Unstable)
    else Ok(Queue(lmbda, mu, lmbda / mu, servers))
  }

  /** A valid instance offers a load below its number of servers, so the
      load per server lies strictly between 0 and 1. */
  lemma UtilisationBounds(q: Queue)
    requires Valid(q)
    ensures Subcritical(q.psi, q.servers)
    ensures 0.0 < Load(q.psi, q.servers) < 1.0
  {
    var s := q.servers as real;
    assert q.psi > 0.0;
    assert (s - q.psi) * q.mu > 0.0;
    LoadBounds(q.psi, q.servers);
  }

  /** Probability that the system is empty, the reciprocal of the two sums
      the calculator adds; always positive. */
  function ProbabilityOfZeroUnits(q: Queue): (r: real)
    requires Valid(q)
    ensures r > 0.0
  {
    UtilisationBounds(q);
    EmptyProbability(q.psi, q.servers)
  }

  /** The empty-system probability times the sums it is the reciprocal of
      gives one: `P0 (sum_{k<s} psi^s/k! + psi^s/(s! (1 - (psi/s)^2))) = 1`. */
  lemma ZeroUnitsIsReciprocal(q: Queue)
    requires Valid(q)
    ensures Subcritical(q.psi, q.servers)
    ensures ProbabilityOfZeroUnits(q)
            * (Sum(EmptyTerms(q.psi, q.servers), 0, q.servers) + EmptyTail(q.psi, q.servers)) == 1.0
  {
    UtilisationBounds(q);
    var psi, s := q.psi, q.servers;
    CancelReciprocal(EmptyInverse(psi, s));
  }

  /** Probability of exactly `n` units in the system: `psi^n / n! P0` while
      a server is idle, `psi^n / (s! s^(n-s)) P0` from then on. A negative
      `n` fails in `math.factorial`; every other answer is positive. */
  function ProbabilityOfNUnits(q: Queue, n: int): (r: Result<real>)
    requires Valid(q)
    ensures r.Err? <==> n < 0
    ensures r.Err? ==> r.error == NegativeFactorial
  {
    if n < 0 then Err(NegativeFactorial)
    else Ok(Occupancy(q.psi, q.servers, ProbabilityOfZeroUnits(q), n))
  }

  /** Every occupancy the calculator answers is positive. */
  lemma NUnitsPositive(q: Queue, n: int)
    requires Valid(q)
    requires n >= 0
    ensures ProbabilityOfNUnits(q, n).value > 0.0
  {
    UtilisationBounds(q);
    var psi, s, p0 := q.psi, q.servers, ProbabilityOfZeroUnits(q);
    OccupancyPositive(psi, s, p0, n);
  }

  /** The occupancy at zero is the empty-system probability. */
  lemma ZeroUnitsAgree(q: Queue)
    requires Valid(q)
    ensures ProbabilityOfNUnits(q, 0) == Ok(ProbabilityOfZeroUnits(q))
  {
    var psi, s, p0 := q.psi, q.servers, ProbabilityOfZeroUnits(q);
    OccupancyAtZero(psi, s, p0);
  }

  /** At `n = s` the tail formula `psi^s / (s! s^0) P0` coincides with the
      formula of the other branch, `psi^s / s! P0`. */
  lemma NUnitsBranchesAgree(q: Queue)
    requires Valid(q)
    ensures ProbabilityOfNUnits(q, q.servers).value == PoissonTerm(q.psi, q.servers, ProbabilityOfZeroUnits(q))
  {
    var psi, s, p0 := q.psi, q.servers, ProbabilityOfZeroUnits(q);
    BranchesAgree(psi, s, p0);
  }

  /** Once every server is busy, each further unit is `psi / s` times as
      likely as the one before. */
  lemma NUnitsTailRatio(q: Queue, n: int)
    requires Valid(q)
    requires n >= q.servers
    ensures ProbabilityOfNUnits(q, n + 1).value == Load(q.psi, q.servers) * ProbabilityOfNUnits(q, n).value
  {
    var psi, s, p0 := q.psi, q.servers, ProbabilityOfZeroUnits(q);
    TailRatio(psi, s, p0, n, n + 1);
  }

  /** The rate at which the system completes service with `n` units: `n`
      busy servers below `s`, all `s` from then on; a negative count is
      refused. */
  function EffectiveServiceRate(q: Queue, n: int): (r: Result<real>)
    requires Valid(q)
    ensures r.Err? <==> n < 0
    ensures r.Err? ==> r.error == NegativeUnits
    ensures r.Ok? ==> 0.0 <= r.value <= q.mu * q.servers as real
  {
    if n < 0 then Err(NegativeUnits)
    else
      ServiceRateBounds(q, n);
      Ok(ServiceRate(q.mu, q.servers, n))
  }

  /** The service rate of `n` units lies between 0 and `mu s`. */
  lemma ServiceRateBounds(q: Queue, n: nat)
    requires Valid(q)
    ensures 0.0 <= ServiceRate(q.mu, q.servers, n) <= q.mu * q.servers as real
  {
    if n < q.servers {
      ScaleMonotone(q.mu, n as real, q.servers as real);
    }
  }

  /** More units never slow the service down. */
  lemma ServiceRateMonotone(q: Queue, n: int, k: int)
    requires Valid(q)
    requires 0 <= n <= k
    ensures EffectiveServiceRate(q, n).value <= EffectiveServiceRate(q, k).value
  {
    var mu, s := q.mu, q.servers;
    ServiceRateGrows(mu, s, n, k);
  }

  /** The service rate reaches its cap `mu s` exactly when every server is
      busy. */
  lemma ServiceRateSaturates(q: Queue, n: int)
    requires Valid(q)
    requires n >= 0
    ensures EffectiveServiceRate(q, n).value == q.mu * q.servers as real <==> n >= q.servers
  {
    if n < q.servers {
      assert q.mu * n as real < q.mu * q.servers as real;
    }
  }

  /** The balance equations of the birth-death chain: the flow up from `n`,
      `lmbda P(n)`, equals the flow down from `n + 1` at the effective
      service rate there. */
  lemma BirthDeathBalance(q: Queue, n: nat)
    requires Valid(q)
    ensures q.lmbda * ProbabilityOfNUnits(q, n).value
         == EffectiveServiceRate(q, n + 1).value * ProbabilityOfNUnits(q, n + 1).value
  {
    var psi, s, p0, mu, lmbda := q.psi, q.servers, ProbabilityOfZeroUnits(q), q.mu, q.lmbda;
    var p, r, p1 := ProbabilityOfNUnits(q, n).value, EffectiveServiceRate(q, n + 1).value, ProbabilityOfNUnits(q, n + 1).value;
    assert p == Occupancy(psi, s, p0, n);
    assert p1 == Occupancy(psi, s, p0, n + 1);
    assert r == ServiceRate(mu, s, n + 1);
    BalanceOf(psi, s, p0, mu, lmbda, n, p, r, p1);
  }

  /** Probability that every server is busy,
      `P0 psi^s / (s! (1 - psi/s))`; positive, and its share `1 - psi/s` is
      the occupancy at `s`, the head of the geometric tail. */
  function ProbabilityOfAtLeastServers(q: Queue): (r: real)
    requires Valid(q)
    ensures Subcritical(q.psi, q.servers)
    ensures r > 0.0
    ensures r * Gap(q.psi, q.servers) == ProbabilityOfNUnits(q, q.servers).value
  {
    UtilisationBounds(q);
    AtLeastServersIsTail(q.psi, q.servers, ProbabilityOfZeroUnits(q));
    AtLeastServers(q.psi, q.servers, ProbabilityOfZeroUnits(q))
  }

  /** The occupancies from `s` up to any bound add up to less than the
      probability of at least `s` units, and fall short of it by exactly
      the geometric remainder `P(s + k) / (1 - psi/s)`. */
  lemma AtLeastServersBoundsTail(q: Queue, k: nat)
    requires Valid(q)
    ensures Subcritical(q.psi, q.servers)
    ensures Sum(OccupancyOf(q.psi, q.servers, ProbabilityOfZeroUnits(q)), q.servers, q.servers + k)
         == ProbabilityOfAtLeastServers(q) - ProbabilityOfNUnits(q, q.servers + k).value / Gap(q.psi, q.servers)
    ensures Sum(OccupancyOf(q.psi, q.servers, ProbabilityOfZeroUnits(q)), q.servers, q.servers + k)
         < ProbabilityOfAtLeastServers(q)
  {
    UtilisationBounds(q);
    var psi, s, p0 := q.psi, q.servers, ProbabilityOfZeroUnits(q);
    TailPartialSum(psi, s, p0, k);
  }

  /** The exponent `mu t (psi/s - 1)` of the waiting-time decay; negative
      for a positive `t`. */
  function WaitExponent(q: Queue, t: real): (x: real)
    requires Valid(q)
    ensures t > 0.0 ==> x < 0.0
    ensures t == 0.0 ==> x == 0.0
  {
    UtilisationBounds(q);
    NegativeScaled(q.mu, t, Load(q.psi, q.servers) - 1.0);
    q.mu * t * (Load(q.psi, q.servers) - 1.0)
  }

  /** Probability of waiting longer than `t`: `Pgeq exp(mu t (psi/s - 1))`.
      `np.exp` is not modelled: `exp` stands for it. The calculator does not
      check the sign of `t`; at `t = 0` the answer is `Pgeq`. */
  function ProbabilityOfWaitingOver(q: Queue, t: real, exp: real -> real): (r: real)
    requires Valid(q)
    ensures t == 0.0 && exp(0.0) == 1.0 ==> r == ProbabilityOfAtLeastServers(q)
  {
    ProbabilityOfAtLeastServers(q) * exp(WaitExponent(q, t))
  }

  /** A decaying factor in (0, 1] keeps the answer in (0, Pgeq]; a factor
      above one, as a negative `t` can give, pushes it past `Pgeq`. */
  lemma WaitingOverBounds(q: Queue, t: real, exp: real -> real)
    requires Valid(q)
    ensures 0.0 < exp(WaitExponent(q, t)) <= 1.0 ==>
              0.0 < ProbabilityOfWaitingOver(q, t, exp) <= ProbabilityOfAtLeastServers(q)
    ensures exp(WaitExponent(q, t)) > 1.0 ==>
              ProbabilityOfWaitingOver(q, t, exp) > ProbabilityOfAtLeastServers(q)
  {
    ScaledByFactor(ProbabilityOfAtLeastServers(q), exp(WaitExponent(q, t)), ProbabilityOfWaitingOver(q, t, exp));
  }

  /** Mean number of units in the system,
      `psi^(s+1) / (s s! (1 - psi/s)^2) P0 + psi`; more than `psi`. */
  function SystemUnitsAmountMean(q: Queue): (r: real)
    requires Valid(q)
    ensures r > q.psi
  {
    UtilisationBounds(q);
    PositiveProduct(QueueFactor(q.psi, q.servers), ProbabilityOfZeroUnits(q));
    QueueFactor(q.psi, q.servers) * ProbabilityOfZeroUnits(q) + q.psi
  }

  /** The system mean exceeds `psi` by the mean of the geometric tail,
      `Pgeq (psi/s) / (1 - psi/s)`, as in the textbook M/M/s law. */
  lemma SystemMeanFromTail(q: Queue)
    requires Valid(q)
    ensures Subcritical(q.psi, q.servers)
    ensures SystemUnitsAmountMean(q) - q.psi
         == ProbabilityOfAtLeastServers(q) * (Load(q.psi, q.servers) / Gap(q.psi, q.servers))
  {
    UtilisationBounds(q);
    var psi, s, p0 := q.psi, q.servers, ProbabilityOfZeroUnits(q);
    QueueFactorIsTail(psi, s, p0);
  }

  /** Mean number of units waiting, `psi^(s+1) / (s s! (1 - psi/s)^2 mu)`;
      positive. */
  function QueueUnitsAmountMean(q: Queue): (r: real)
    requires Valid(q)
    ensures r > 0.0
  {
    UtilisationBounds(q);
    QueueFactor(q.psi, q.servers) / q.mu
  }

  /** The queue mean is not the system mean less `psi`: it lacks the factor
      `P0` and is divided by `mu`, so `L = mu P0 Lq + psi`. */
  lemma QueueMeanAsWritten(q: Queue)
    requires Valid(q)
    ensures SystemUnitsAmountMean(q) == q.mu * ProbabilityOfZeroUnits(q) * QueueUnitsAmountMean(q) + q.psi
  {
    UtilisationBounds(q);
    var psi, s, mu := q.psi, q.servers, q.mu;
    CancelDivision(QueueFactor(psi, s), mu);
  }

  /** Mean number of idle servers, `s - psi`: strictly between 0 and `s`,
      and `mu` times it is the spare service capacity `s mu - lmbda`. */
  function UnoccupiedServersMean(q: Queue): (r: real)
    requires Valid(q)
    ensures 0.0 < r < q.servers as real
    ensures r * q.mu == q.servers as real * q.mu - q.lmbda
  {
    UtilisationBounds(q);
    SubtractTimes(q.servers as real, q.psi, q.mu);
    q.servers as real - q.psi
  }

  /** Mean wait in the queue, Little's law on the queue mean. */
  function TimeInQueueMean(q: Queue): (r: real)
    requires Valid(q)
    ensures r > 0.0
    ensures r * q.lmbda == QueueUnitsAmountMean(q)
  {
    CancelDivision(QueueUnitsAmountMean(q), q.lmbda);
    QueueUnitsAmountMean(q) / q.lmbda
  }

  /** Mean time in the system, Little's law on the system mean. */
  function TimeInSystemMean(q: Queue): (r: real)
    requires Valid(q)
    ensures r * q.lmbda == SystemUnitsAmountMean(q)
  {
    CancelDivision(SystemUnitsAmountMean(q), q.lmbda);
    SystemUnitsAmountMean(q) / q.lmbda
  }

  /** A unit stays longer than one service time `1 / mu`, because the
      system mean exceeds `psi`. */
  lemma SojournExceedsService(q: Queue)
    requires Valid(q)
    ensures TimeInSystemMean(q) > TimeOfServiceMean(q)
  {
    var psi, mu, lmbda := q.psi, q.mu, q.lmbda;
    SojournAboveService(TimeInSystemMean(q), TimeOfServiceMean(q), lmbda, mu, psi, SystemUnitsAmountMean(q));
  }

  /** Mean service time, `1 / mu`. */
  function TimeOfServiceMean(q: Queue): (r: real)
    requires Valid(q)
    ensures r > 0.0
    ensures r * q.mu == 1.0
  {
    1.0 / q.mu
  }

  /** The calculator's own instance, `lmbda = 80`, `mu = 50`, `s = 2`:
      `P0 = 225/1952` and `W = 347/6100` (within the tolerance 0.01 of the
      expected 0.1111 and 4.444444/80), with `L = 1388/305`,
      `Lq = 64/125` and `Pgeq = 45/61`. The probabilities of 0 units, of 1
      unit and of at least 2 units add up to `2025/1952`, not to 1. */
  lemma EightyFiftyScenario()
    ensures New(80.0, 50.0, 2).Ok?
    ensures Valid(New(80.0, 50.0, 2).value)
    ensures ProbabilityOfZeroUnits(New(80.0, 50.0, 2).value) == 225.0 / 1952.0
    ensures ProbabilityOfAtLeastServers(New(80.0, 50.0, 2).value) == 45.0 / 61.0
    ensures SystemUnitsAmountMean(New(80.0, 50.0, 2).value) == 1388.0 / 305.0
    ensures TimeInSystemMean(New(80.0, 50.0, 2).value) == 347.0 / 6100.0
    ensures QueueUnitsAmountMean(New(80.0, 50.0, 2).value) == 64.0 / 125.0
    ensures ProbabilityOfNUnits(New(80.0, 50.0, 2).value, 0).value
          + ProbabilityOfNUnits(New(80.0, 50.0, 2).value, 1).value
          + ProbabilityOfAtLeastServers(New(80.0, 50.0, 2).value) == 2025.0 / 1952.0
  {
    var q := New(80.0, 50.0, 2).value;
    assert q.psi == 1.6;
    assert Pow(1.6, 2) == 2.56 by {
      assert Pow(1.6, 1) == 1.6 * Pow(1.6, 0);
    }
    assert Pow(0.8, 2) == 0.64 by {
      assert Pow(0.8, 1) == 0.8 * Pow(0.8, 0);
    }
    assert Pow(1.6, 3) == 1.6 * 2.56;
    assert RealFact(1) == 1.0 && RealFact(2) == 2.0;
    assert Load(1.6, 2) == 0.8;
    assert Gap(1.6, 2) == 0.2;
    assert Sum(EmptyTerms(1.6, 2), 0, 2) == 5.12 by {
      assert Sum(EmptyTerms(1.6, 2), 0, 1) == Sum(EmptyTerms(1.6, 2), 0, 0) + 2.56;
    }
    assert EmptyTail(1.6, 2) == 32.0 / 9.0;
    assert ProbabilityOfZeroUnits(q) == 225.0 / 1952.0;
    assert QueueFactor(1.6, 2) == 25.6;
    assert PoissonTerm(1.6, 1, 225.0 / 1952.0) == 1.6 * (225.0 / 1952.0);
    OccupancyAtZero(1.6, 2, 225.0 / 1952.0);
  }

  /** A lightly loaded single server, `lmbda = 1`, `mu = 10`, `s = 1`: the
      empty-system probability as written is `990/199`, above one. */
  lemma LightLoadScenario()
    ensures New(1.0, 10.0, 1).Ok?
    ensures Valid(New(1.0, 10.0, 1).value)
    ensures ProbabilityOfZeroUnits(New(1.0, 10.0, 1).value) == 990.0 / 199.0
    ensures ProbabilityOfZeroUnits(New(1.0, 10.0, 1).value) > 1.0
  {
    var q := New(1.0, 10.0, 1).value;
    assert q.psi == 0.1;
    assert Pow(0.1, 1) == 0.1;
    assert Pow(0.1, 2) == 0.01 by {
      assert Pow(0.1, 1) == 0.1 * Pow(0.1, 0);
    }
    assert RealFact(1) == 1.0;
    assert Load(0.1, 1) == 0.1;
    assert Sum(EmptyTerms(0.1, 1), 0, 1) == 0.1;
    assert EmptyTail(0.1, 1) == 10.0 / 99.0;
  }
}

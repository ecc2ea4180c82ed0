/** The M/M/1 queue with unbounded capacity and unbounded population: one
    server, Poisson arrivals at rate `lmbda`, exponential service at rate
    `mu`, utilisation `psi = lmbda / mu`.
 */
module MM1Uncapped {
  import opened Outcomes
  import opened Numeric

  /** A calculator instance, immutable once built. */
  datatype Queue = Queue(lmbda: real, mu: real, psi: real)

  /** The instances the accessors are defined on: positive rates (which the
      calculator assumes but never checks; several accessors divide by `lmbda`),
      the stability guard of the constructor, and `psi = lmbda / mu` as it
      stores it (stated without the division). */
  predicate Valid(q: Queue)
  {
    && 0.0 < q.lmbda
    && 0.0 < q.mu
    && q.lmbda < q.mu
    && q.psi * q.mu == q.lmbda
  }

  /** The constructor: refuses an arrival rate the server cannot keep up with. */
  function New(lmbda: real, mu: real): (r: Result<Queue>)
    requires mu != 0.0 || lmbda >= mu
    ensures r.Err? <==> lmbda >= mu
    ensures r.Err? ==> r.error == Unstable
    ensures r.Ok? ==> r.value.lmbda == lmbda && r.value.mu == mu && r.value.psi * mu == lmbda
    ensures r.Ok? && 0.0 < lmbda ==> Valid(r.value) && 0.0 < r.value.psi < 1.0
  {
    if lmbda >= mu then Err(Unstable)
    else
      var q := Queue(lmbda, mu, lmbda / mu);
      assert 0.0 < lmbda ==> 0.0 < q.psi < 1.0 by {
        if 0.0 < lmbda {
          RatioBelowOne(lmbda, mu);
        }
      }
      Ok(q)
  }

  /** A valid instance has a utilisation strictly between 0 and 1. */
  lemma UtilisationBounds(q: Queue)
    requires Valid(q)
    ensures 0.0 < q.psi < 1.0
  {
    RatioBelowOne(q.lmbda, q.mu);
    assert q.psi == q.lmbda / q.mu;
  }

  /** Mean number of units in the system, `psi / (1 - psi)`. */
  function SystemUnitsAmountMean(q: Queue): (r: real)
    requires Valid(q)
    ensures r > 0.0
  {
    UtilisationBounds(q);
    q.psi / (1.0 - q.psi)
  }

  /** Mean number of units waiting, not yet in service. */
  function QueueUnitsAmountMean(q: Queue): (r: real)
    requires Valid(q)
    ensures 0.0 < r < SystemUnitsAmountMean(q)
  {
    UtilisationBounds(q);
    var psi := q.psi;
    PowPositive(psi, 2);
    assert Pow(psi, 2) == psi * psi;
    assert psi * psi < psi;
    Pow(psi, 2) / (1.0 - psi)
  }

  /** Mean number of idle servers: the fraction of time the one server is idle. */
  function UnoccupiedServersMean(q: Queue): (r: real)
    requires Valid(q)
    ensures 0.0 < r < 1.0
  {
    UtilisationBounds(q);
    1.0 - q.psi
  }

  /** Mean time in the queue, by Little's law from the queue length. */
  function TimeInQueueMean(q: Queue): (r: real)
    requires Valid(q)
    ensures r * q.lmbda == QueueUnitsAmountMean(q)
    ensures r > 0.0
  {
    QueueUnitsAmountMean(q) / q.lmbda
  }

  /** Mean time in the system, by Little's law from the system occupancy. */
  function TimeInSystemMean(q: Queue): (r: real)
    requires Valid(q)
    ensures r * q.lmbda == SystemUnitsAmountMean(q)
    ensures r > TimeInQueueMean(q)
  {
    SystemUnitsAmountMean(q) / q.lmbda
  }

  /** Mean service time, the reciprocal of the service rate. */
  function TimeOfServiceMean(q: Queue): (r: real)
    requires Valid(q)
    ensures r * q.mu == 1.0
  {
    1.0 / q.mu
  }

  /** Probability that a unit waits longer than `t`. The exponential
      `np.exp` is not modelled: `exp` stands for it. Negative thresholds are
      refused; at `t = 0` the answer is the utilisation, and whenever the
      exponential factor is a decay in (0, 1] the answer lies in (0, psi]. */
  function ProbabilityOfWaitingOver(q: Queue, t: real, exp: real -> real): (r: Result<real>)
    requires Valid(q)
    ensures r.Err? <==> t < 0.0
    ensures r.Err? ==> r.error == NegativeTime
    ensures t == 0.0 && exp(0.0) == 1.0 ==> r == Ok(q.psi)
    ensures r.Ok? && 0.0 < exp(q.mu * t * (q.psi - 1.0)) <= 1.0 ==> 0.0 < r.value <= q.psi
  {
    UtilisationBounds(q);
    if t < 0.0 then Err(NegativeTime)
    else Ok(q.psi * exp(q.mu * t * (q.psi - 1.0)))
  }

  /** Probability that the system is empty. */
  function ProbabilityOfZeroUnits(q: Queue): (r: real)
    requires Valid(q)
    ensures 0.0 < r < 1.0
    ensures r == UnoccupiedServersMean(q)
  {
    UtilisationBounds(q);
    1.0 - q.psi
  }

  /** Probability of exactly `n` units in the system: refused for negative
      `n`, the empty-system probability at 0, and a geometric law beyond. */
  function ProbabilityOfNUnits(q: Queue, n: int): (r: Result<real>)
    requires Valid(q)
    ensures n < 0 ==> r == Err(NegativeUnits)
    ensures n == 0 ==> r == Ok(ProbabilityOfZeroUnits(q))
    ensures n >= 1 ==> r.Ok? && 0.0 < r.value < ProbabilityOfZeroUnits(q)
  {
    UtilisationBounds(q);
    if n < 0 then Err(NegativeUnits)
    else if n == 0 then Ok(ProbabilityOfZeroUnits(q))
    else
      GeometricTermBounds(q.psi, n);
      Ok(Pow(q.psi, n) * (1.0 - q.psi))
  }

  /** A term `psi^n * (1 - psi)` of the geometric law with `n >= 1` lies
      strictly between 0 and `1 - psi`. */
  lemma {:induction false} GeometricTermBounds(psi: real, n: nat)
    requires 0.0 < psi < 1.0
    requires n >= 1
    ensures 0.0 < Pow(psi, n) * (1.0 - psi) < 1.0 - psi
  {
    PowPositive(psi, n);
    PowBelowOne(psi, n);
    ScaleBelow(psi, Pow(psi, n));
    ProductAboveSum(Pow(psi, n), psi);
  }

  /** Each further unit multiplies the occupancy probability by `psi`. */
  lemma {:induction false} NextUnitRatio(q: Queue, n: nat)
    requires Valid(q)
    ensures ProbabilityOfNUnits(q, n + 1).value == q.psi * ProbabilityOfNUnits(q, n).value
  {
    var psi := q.psi;
    assert Pow(psi, n + 1) == psi * Pow(psi, n + 1 - 1);
    if n == 0 {
      assert Pow(psi, 0) == 1.0;
    }
  }

  /** One more unit is strictly less likely: `P(m) < P(n)` for `m = n + 1`. */
  lemma NextUnitLessLikely(q: Queue, n: nat, m: nat)
    requires Valid(q)
    requires m == n + 1
    ensures ProbabilityOfNUnits(q, m).value < ProbabilityOfNUnits(q, n).value
  {
    UtilisationBounds(q);
    NextUnitRatio(q, n);
    var psi, p, p1 := q.psi, ProbabilityOfNUnits(q, n).value, ProbabilityOfNUnits(q, m).value;
    assert p > 0.0;
    assert p1 == psi * p;
    ScaleBelow(psi, p);
  }

  /** The occupancy probabilities strictly decrease in `n`. */
  lemma {:induction false} ProbabilityStrictlyDecreasing(q: Queue, n: nat, k: nat)
    requires Valid(q)
    requires n < k
    ensures ProbabilityOfNUnits(q, k).value < ProbabilityOfNUnits(q, n).value
    decreases k - n
  {
    if n + 1 < k {
      ProbabilityStrictlyDecreasing(q, n, k - 1);
      NextUnitLessLikely(q, k - 1, k);
    } else {
      NextUnitLessLikely(q, n, k);
    }
  }

  /** Probability of fewer than `count` units: `P(0) + ... + P(count - 1)`. */
  function ProbabilityBelow(q: Queue, count: nat): real
    requires Valid(q)
    decreases count
  {
    if count == 0 then 0.0
    else ProbabilityBelow(q, count - 1) + ProbabilityOfNUnits(q, count - 1).value
  }

  /** Geometric normalisation: the first `count` occupancy probabilities sum
      to `1 - psi^count`, so every partial sum stays below 1 and the missing
      mass is exactly the tail `psi^count`. */
  lemma {:induction false} ProbabilityBelowClosedForm(q: Queue, count: nat)
    requires Valid(q)
    ensures ProbabilityBelow(q, count) == 1.0 - Pow(q.psi, count)
    ensures ProbabilityBelow(q, count) < 1.0
    decreases count
  {
    PowPositive(q.psi, count);
    if count > 0 {
      ProbabilityBelowClosedForm(q, count - 1);
      var k := count - 1;
      var a := Pow(q.psi, k);
      assert Pow(q.psi, count) == q.psi * Pow(q.psi, count - 1);
      if k == 0 {
        assert ProbabilityOfNUnits(q, k).value == 1.0 - q.psi;
      } else {
        assert ProbabilityOfNUnits(q, k).value == a * (1.0 - q.psi);
      }
      assert ProbabilityOfNUnits(q, k).value == a - q.psi * a;
    }
  }

  /** The queue holds the system's units less the one in service:
      `Lq = L - (1 - P0)`; and the idle-server mean is the empty-system
      probability. */
  lemma QueueIsSystemLessServed(q: Queue)
    requires Valid(q)
    ensures QueueUnitsAmountMean(q) == SystemUnitsAmountMean(q) - (1.0 - ProbabilityOfZeroUnits(q))
    ensures UnoccupiedServersMean(q) == ProbabilityOfZeroUnits(q)
  {
    var psi := q.psi;
    assert Pow(psi, 2) == psi * psi;
    var d := 1.0 - psi;
    assert psi * psi / d == psi / d - psi by {
      assert (psi / d - psi) * d == psi - psi * d == psi * psi;
    }
  }

  /** The scenario `lmbda = 10`, `mu = 15`: `P0 = 1/3`, `Lq = 4/3` and
      `Wq = 2/15`. */
  lemma TenFifteenScenario()
    ensures New(10.0, 15.0).Ok?
    ensures ProbabilityOfZeroUnits(New(10.0, 15.0).value) == 1.0 / 3.0
    ensures QueueUnitsAmountMean(New(10.0, 15.0).value) == 4.0 / 3.0
    ensures TimeInQueueMean(New(10.0, 15.0).value) == 2.0 / 15.0
  {
    var q := New(10.0, 15.0).value;
    assert q.psi == 2.0 / 3.0;
    assert Pow(q.psi, 2) == q.psi * Pow(q.psi, 1) == q.psi * q.psi;
  }
}

/** The M/M/1 queue with a capacity limit `M`: at most `M` units are in the
    system and arrivals finding it full are lost. The formulas are the ones
    the calculator evaluates, including its empty-system probability
    `(1 - psi) / (1 - psi)^(M + 1)`, which is not a normalised probability
    (see `ZeroUnitsAsWritten`).
 */
module MM1CappedSystem {
  import opened Outcomes
  import opened Numeric

  /** A calculator instance, immutable once built; `capacity` is `M`. */
  datatype Queue = Queue(lmbda: real, mu: real, psi: real, capacity: int)

  /** The instances the accessors are defined on: positive rates and a
      capacity of at least one unit (both assumed, never checked, by the
      calculator), the stability guard of the constructor, and
      `psi = lmbda / mu` stated without the division. */
  predicate Valid(q: Queue)
  {
    && 0.0 < q.lmbda
    && 0.0 < q.mu
    && q.lmbda < q.mu
    && q.psi * q.mu == q.lmbda
    && q.capacity >= 1
  }

  /** The constructor: applies the same stability guard as the unbounded
      queue, although a finite capacity would be stable at any load. */
  function New(lmbda: real, mu: real, capacity: int): (r: Result<Queue>)
    requires mu != 0.0 || lmbda >= mu
    ensures r.Err? <==> lmbda >= mu
    ensures r.Err? ==> r.error == Unstable
    ensures r.Ok? ==> r.value.lmbda == lmbda && r.value.mu == mu && r.value.capacity == capacity
    ensures r.Ok? ==> r.value.psi * mu == lmbda
    ensures r.Ok? && 0.0 < lmbda && capacity >= 1 ==> Valid(r.value)
  {
    if lmbda >= mu then Err(Unstable) else Ok(Queue(lmbda, mu, lmbda / mu, capacity))
  }

  /** A valid instance has a utilisation strictly between 0 and 1. */
  lemma UtilisationBounds(q: Queue)
    requires Valid(q)
    ensures 0.0 < q.psi < 1.0
  {
    RatioBelowOne(q.lmbda, q.mu);
    assert q.psi == q.lmbda / q.mu;
  }

  /** Mean number of units in the system,
      `psi/(1 - psi) - (M + 1) psi^(M+1) / (1 - psi^(M+1))`: the mean of the
      truncated geometric law on `0..M` (`SystemMeanIsExpectation`), so a
      mean occupancy strictly between 0 and the capacity `M`, and strictly
      below the unbounded queue's `psi / (1 - psi)`. */
  function SystemUnitsAmountMean(q: Queue): (r: real)
    requires Valid(q)
    ensures 0.0 < r < q.capacity as real
    ensures r < q.psi / (1.0 - q.psi)
  {
    UtilisationBounds(q);
    TruncatedMean(q.psi, q.capacity)
  }

  /** The mean occupancy is the mean of the truncated geometric law
      `psi^n / sum_{k<=M} psi^k` on `0..M`, the occupancy law of a queue that
      turns arrivals away when full:
      `L sum_{n<=M} psi^n = sum_{n<=M} n psi^n`. */
  lemma SystemMeanIsExpectation(q: Queue)
    requires Valid(q)
    ensures SystemUnitsAmountMean(q) * Sum(Powers(q.psi), 0, q.capacity + 1) == Mean(Powers(q.psi), q.capacity)
  {
    UtilisationBounds(q);
    TruncatedMeanIsExpectation(q.psi, q.capacity, SystemUnitsAmountMean(q));
  }

  /** The correction terms `k x / (c (1 - x))` of the two means, with
      `x = psi^k` in (0, 1), are positive for every positive scale `c`. */
  lemma OverflowTermPositive(k: nat, x: real, c: real)
    requires k >= 1 && 0.0 < x < 1.0 && c > 0.0
    ensures c * (1.0 - x) > 0.0
    ensures (k as real * x) / (c * (1.0 - x)) > 0.0
    ensures (k as real * x) / (1.0 - x) > 0.0
  {
    var num, den := k as real * x, 1.0 - x;
    assert num > 0.0 && den > 0.0;
    assert c * den > 0.0;
  }

  /** The powers the correction terms are built from lie in (0, 1). */
  lemma PowerInUnitInterval(q: Queue, k: nat)
    requires Valid(q) && k >= 1
    ensures 0.0 < Pow(q.psi, k) < 1.0
  {
    UtilisationBounds(q);
    PowPositive(q.psi, k);
    PowBelowOne(q.psi, k);
  }

  /** Mean number of units waiting: `psi^2 / (1 - psi)`, as for the
      unbounded queue (the capacity plays no part). */
  function QueueUnitsAmountMean(q: Queue): (r: real)
    requires Valid(q)
    ensures r > 0.0
  {
    UtilisationBounds(q);
    PowPositive(q.psi, 2);
    Pow(q.psi, 2) / (1.0 - q.psi)
  }

  /** Mean number of idle servers, `1 - psi`, again independent of `M`. */
  function UnoccupiedServersMean(q: Queue): (r: real)
    requires Valid(q)
    ensures 0.0 < r < 1.0
  {
    UtilisationBounds(q);
    1.0 - q.psi
  }

  /** Mean time in the queue: the queue length over `lmbda (P(0) + P(1))`. */
  function TimeInQueueMean(q: Queue): (r: real)
    requires Valid(q)
    ensures r > 0.0
  {
    var p1 := ProbabilityOfNUnits(q, 1).value.value;
    var p0 := ProbabilityOfZeroUnits(q);
    var flow := q.lmbda * (p0 + p1);
    assert flow > 0.0;
    QueueUnitsAmountMean(q) / flow
  }

  /** Mean time in the system,
      `1/(mu (1 - psi)) - M psi^M / (mu (1 - psi^M))`. */
  function TimeInSystemMean(q: Queue): (r: real)
    requires Valid(q)
    ensures r < 1.0 / (q.mu * (1.0 - q.psi))
  {
    UtilisationBounds(q);
    PowerInUnitInterval(q, q.capacity);
    OverflowTermPositive(q.capacity, Pow(q.psi, q.capacity), q.mu);
    assert q.mu * (1.0 - q.psi) > 0.0;
    1.0 / (q.mu * (1.0 - q.psi))
      - (q.capacity as real * Pow(q.psi, q.capacity)) / (q.mu * (1.0 - Pow(q.psi, q.capacity)))
  }

  /** Mean service time, the reciprocal of the service rate. */
  function TimeOfServiceMean(q: Queue): (r: real)
    requires Valid(q)
    ensures r * q.mu == 1.0
  {
    1.0 / q.mu
  }

  /** The empty-system probability exactly as the calculator computes it,
      `(1 - psi) / (1 - psi)^(M + 1)`. The exponent on the denominator is
      that of the textbook normaliser `1 - psi^(M + 1)` moved onto the
      bracket, so the value collapses to `(1 - psi)^(-M)`, which exceeds 1
      for every valid instance. */
  function ProbabilityOfZeroUnits(q: Queue): (r: real)
    requires Valid(q)
    ensures r * Pow(1.0 - q.psi, q.capacity) == 1.0
    ensures r > 1.0
  {
    UtilisationBounds(q);
    var term1 := 1.0 - q.psi;
    var m := q.capacity;
    var rest := Pow(term1, m);
    PowPositive(term1, m);
    PowBelowOne(term1, m);
    assert Pow(term1, m + 1) == term1 * rest;
    CancelFactor(term1, 1.0, rest);
    ReciprocalAboveOne(rest);
    term1 / Pow(term1, m + 1)
  }

  /** Probability of exactly `n` units: refused above the capacity, the
      empty-system probability at 0, `P0 psi^n` for `1 <= n <= M`, and no
      value at all (Python's `None`) for negative `n`, which no branch
      handles. */
  function ProbabilityOfNUnits(q: Queue, n: int): (r: Result<Option<real>>)
    requires Valid(q)
    ensures r.Err? <==> n > q.capacity
    ensures r.Err? ==> r.error == UnitsAboveCapacity
    ensures r == Ok(None) <==> n < 0
    ensures n == 0 ==> r == Ok(Some(ProbabilityOfZeroUnits(q)))
    ensures 1 <= n <= q.capacity ==> r.Ok? && r.value.Some? && 0.0 < r.value.value < ProbabilityOfZeroUnits(q)
  {
    if n > q.capacity then Err(UnitsAboveCapacity)
    else if n == 0 then Ok(Some(ProbabilityOfZeroUnits(q)))
    else if n >= 1 then
      UtilisationBounds(q);
      var p0, a := ProbabilityOfZeroUnits(q), Pow(q.psi, n);
      PowPositive(q.psi, n);
      PowBelowOne(q.psi, n);
      ScaleBelow(a, p0);
      Ok(Some(p0 * a))
    else Ok(None)
  }

  /** Below the capacity, each further unit multiplies the occupancy value
      by `psi`. */
  lemma {:induction false} NextUnitRatio(q: Queue, n: nat)
    requires Valid(q)
    requires n < q.capacity
    ensures ProbabilityOfNUnits(q, n + 1).value.value == q.psi * ProbabilityOfNUnits(q, n).value.value
  {
    var psi, p0 := q.psi, ProbabilityOfZeroUnits(q);
    var a := Pow(psi, n);
    assert Pow(psi, n + 1) == psi * Pow(psi, n + 1 - 1);
    if n == 0 {
      assert a == 1.0;
    }
    assert p0 * (psi * a) == psi * (p0 * a);
  }

  /** Arrivals are blocked with the "probability" of a full system, which as
      written is `(psi / (1 - psi))^M`; the effective arrival rate is the
      nominal rate thinned by it. */
  function EffectiveArrivalRate(q: Queue): (r: real)
    requires Valid(q)
    ensures r < q.lmbda
    ensures r == q.lmbda * (1.0 - Pow(q.psi / (1.0 - q.psi), q.capacity))
  {
    FullSystemValue(q);
    var full := ProbabilityOfNUnits(q, q.capacity).value.value;
    assert q.lmbda * full > 0.0;
    q.lmbda * (1.0 - full)
  }

  /** The value the calculator gives a full system is `(psi / (1 - psi))^M`. */
  lemma FullSystemValue(q: Queue)
    requires Valid(q)
    ensures ProbabilityOfNUnits(q, q.capacity).value.value == Pow(q.psi / (1.0 - q.psi), q.capacity)
  {
    UtilisationBounds(q);
    PowQuotient(q.psi, 1.0 - q.psi, q.capacity);
    TimesReciprocal(ProbabilityOfZeroUnits(q), Pow(q.psi, q.capacity), Pow(1.0 - q.psi, q.capacity));
  }

  /** The queue length and the idle-server mean do not depend on the
      capacity: two instances that differ only in `M` agree on both. */
  lemma QueueMeansIgnoreCapacity(q: Queue, q': Queue)
    requires Valid(q) && Valid(q')
    requires q'.lmbda == q.lmbda && q'.mu == q.mu && q'.psi == q.psi
    ensures QueueUnitsAmountMean(q') == QueueUnitsAmountMean(q)
    ensures UnoccupiedServersMean(q') == UnoccupiedServersMean(q)
  {
  }

  /** The throughput used by `TimeInQueueMean` is `lmbda (1 + psi) P0`,
      because `P(1) = psi P0`. */
  lemma TimeInQueueThroughput(q: Queue)
    requires Valid(q)
    ensures TimeInQueueMean(q) * (q.lmbda * (1.0 + q.psi) * ProbabilityOfZeroUnits(q)) == QueueUnitsAmountMean(q)
  {
    var p0 := ProbabilityOfZeroUnits(q);
    NextUnitRatio(q, 0);
    var p1 := ProbabilityOfNUnits(q, 1).value.value;
    assert p1 == q.psi * p0;
    var flow := q.lmbda * (p0 + p1);
    assert flow == q.lmbda * (1.0 + q.psi) * p0;
    assert flow > 0.0;
    var r := TimeInQueueMean(q);
    assert r == QueueUnitsAmountMean(q) / flow;
  }

  /** Mean time in the system equals one service time plus the mean
      occupancy of the same queue with one place less: an arriving unit
      that is admitted sees a system of capacity `M - 1`. */
  lemma TimeInSystemArrivalView(q: Queue)
    requires Valid(q)
    requires q.capacity >= 2
    ensures Valid(q.(capacity := q.capacity - 1))
    ensures TimeInSystemMean(q) * q.mu == 1.0 + SystemUnitsAmountMean(q.(capacity := q.capacity - 1))
    ensures TimeInSystemMean(q) * q.mu > 1.0
  {
    UtilisationBounds(q);
    var t, s := TimeInSystemMean(q), SystemUnitsAmountMean(q.(capacity := q.capacity - 1));
    var k, y := q.capacity as real, Pow(q.psi, q.capacity);
    ClosedFormAt(q.psi, q.capacity - 1, s, k, y);
    ShiftByOneService(q.mu, q.psi, k * y, 1.0 - y, t, s);
  }

  /** With room for a single unit the mean time in the system is exactly
      one service time: `W mu = 1`. Together with `TimeInSystemArrivalView`
      this pins `W` against `1/mu` for every capacity. */
  lemma TimeInSystemSingleRoom(q: Queue)
    requires Valid(q)
    requires q.capacity == 1
    ensures TimeInSystemMean(q) * q.mu == 1.0
  {
  }

  /** The arithmetic behind `TimeInSystemArrivalView`: with `d = 1 - psi`,
      `t = 1/(mu d) - a/(mu e)` and `s = psi/d - a/e` satisfy `t mu = 1 + s`. */
  lemma ShiftByOneService(mu: real, psi: real, a: real, e: real, t: real, s: real)
    requires 0.0 < mu && 0.0 < psi < 1.0 && 0.0 < e
    requires t == 1.0 / (mu * (1.0 - psi)) - a / (mu * e)
    requires s == psi / (1.0 - psi) - a / e
    ensures t * mu == 1.0 + s
  {
    var d := 1.0 - psi;
    CancelFactor(mu, 1.0, d);
    CancelFactor(mu, a, e);
    assert 1.0 / d == 1.0 + psi / d by {
      assert (psi / d) * d == psi;
    }
  }

  /** The empty-system value as written is the reciprocal of `(1 - psi)^M`
      and exceeds 1: the occupancy values do not sum to 1. */
  lemma ZeroUnitsAsWritten(q: Queue)
    requires Valid(q)
    ensures 0.0 < Pow(1.0 - q.psi, q.capacity) < 1.0
    ensures ProbabilityOfZeroUnits(q) == 1.0 / Pow(1.0 - q.psi, q.capacity)
    ensures ProbabilityOfZeroUnits(q) > 1.0
  {
    UtilisationBounds(q);
    PowPositive(1.0 - q.psi, q.capacity);
    PowBelowOne(1.0 - q.psi, q.capacity);
    var b := Pow(1.0 - q.psi, q.capacity);
    var p0 := ProbabilityOfZeroUnits(q);
    assert p0 * b == 1.0;
  }
}

# Steady-state queueing calculators

A Dafny model of the four steady-state queue calculators of
`python-queues-simultation`. Each calculator is built from an arrival rate
`lmbda`, a service rate `mu` and one structural number. It then answers
closed-form questions: mean numbers of units, mean times, and occupancy
and waiting probabilities.

- `MM1Uncapped` (`mm1_uncapped.dfy`): one server, unbounded room and population.
- `MM1CappedSystem` (`mm1_capped_system.dfy`): one server, at most `M` units in the system.
- `MM1CappedPopulation` (`mm1_capped_population.dfy`): one server, a finite population of `m`
  sources. The occupancy probabilities come from one of two strategies, a closed form or a
  recursion.
- `MMSUncapped` (`mms_uncapped.dfy`): `s` servers, unbounded room and population. The occupancy
  law it writes down, and the facts about it, live in `MultiServer` (`multi_server.dfy`). There
  they are stated for an arbitrary empty-system probability `p0`.

Shared definitions:

- `Outcomes` (`outcomes.dfy`): the error results. Each `ValueError` the code raises, including
  the one `math.factorial` raises on a negative argument, becomes an `Err` with a `QueueError`
  naming the guard.
- `Numeric` (`numeric.dfy`): powers, factorials, finite sums, and the real-arithmetic and
  summation lemmas the proofs use.

Each calculator is an immutable datatype `Queue` with a predicate `Valid`:

- `Valid` holds positive rates, the constructor's stability guard, `psi * mu == lmbda`, and a
  structural number of at least one.
- Every accessor is a function on valid queues. It returns a `Result` where the Python code
  raises.
- Formulas are those the code evaluates, including the ones that are not the textbook ones:
  - the capped-system empty probability `(1 - psi) / (1 - psi)^(M+1)`;
  - the M/M/s empty probability, which uses `psi^s` inside its sum and `1 - (psi/s)^2`;
  - the M/M/s queue mean, which has no `P0` factor and is divided by `mu`.

  Lemmas state what these formulas amount to (`ZeroUnitsAsWritten`, `QueueMeanAsWritten`,
  `EightyFiftyScenario`, `LightLoadScenario`).

## Model

| member | source | states |
|---|---|---|
| MM1Uncapped.New | exercies/models/mm1/uncapped.py:13-27 | refused with `Unstable` exactly when `lmbda >= mu`; otherwise keeps both rates with `psi mu = lmbda`, and a positive arrival rate gives a valid queue with `0 < psi < 1` |
| MM1Uncapped.UtilisationBounds | exercies/models/mm1/uncapped.py:22-27 | a queue past the stability guard has utilisation strictly between 0 and 1 |
| MM1Uncapped.SystemUnitsAmountMean | exercies/models/mm1/uncapped.py:29-37 | the mean number in the system is positive |
| MM1Uncapped.QueueUnitsAmountMean | exercies/models/mm1/uncapped.py:39-48 | the mean queue length is positive and strictly below the mean number in the system |
| MM1Uncapped.UnoccupiedServersMean | exercies/models/mm1/uncapped.py:50-58 | the mean number of idle servers lies strictly between 0 and 1 |
| MM1Uncapped.TimeInQueueMean | exercies/models/mm1/uncapped.py:60-68 | Little's law: the mean wait times `lmbda` is the mean queue length; the wait is positive |
| MM1Uncapped.TimeInSystemMean | exercies/models/mm1/uncapped.py:70-78 | Little's law for the system, and the time in the system exceeds the time in the queue |
| MM1Uncapped.TimeOfServiceMean | exercies/models/mm1/uncapped.py:80-88 | the mean service time is the reciprocal of `mu` |
| MM1Uncapped.ProbabilityOfWaitingOver | exercies/models/mm1/uncapped.py:90-104 | `NegativeTime` exactly when `t < 0`; equals `psi` at `t = 0` (for an `exp` with `exp(0) = 1`); lies in `(0, psi]` whenever the exponential factor is in `(0, 1]` |
| MM1Uncapped.ProbabilityOfZeroUnits | exercies/models/mm1/uncapped.py:106-114 | the empty probability lies in `(0, 1)` and equals the mean number of idle servers |
| MM1Uncapped.ProbabilityOfNUnits | exercies/models/mm1/uncapped.py:116-132 | `NegativeUnits` for negative `n`; the empty probability at 0; strictly between 0 and the empty probability for `n >= 1` |
| MM1Uncapped.GeometricTermBounds | exercies/models/mm1/uncapped.py:131-132 | each geometric term `psi^n (1 - psi)`, `n >= 1`, lies strictly between 0 and `1 - psi` |
| MM1Uncapped.NextUnitRatio | exercies/models/mm1/uncapped.py:127-132 | each further unit multiplies the occupancy probability by `psi` |
| MM1Uncapped.NextUnitLessLikely | exercies/models/mm1/uncapped.py:127-132 | one more unit is strictly less likely than the count before it |
| MM1Uncapped.ProbabilityStrictlyDecreasing | exercies/models/mm1/uncapped.py:127-132 | the occupancy probabilities strictly decrease in `n` |
| MM1Uncapped.ProbabilityBelowClosedForm | exercies/models/mm1/uncapped.py:106-132 | the first `count` occupancy probabilities sum to `1 - psi^count`, so every partial sum stays below 1 |
| MM1Uncapped.QueueIsSystemLessServed | exercies/models/mm1/uncapped.py:29-58 | the queue mean is the system mean less the busy probability `1 - P0`, and the idle-server mean is `P0` |
| MM1Uncapped.TenFifteenScenario | tests/test_mm1_uncapped.py:5-23 | for `lmbda = 10`, `mu = 15`: exactly `P0 = 1/3`, `Lq = 4/3`, `Wq = 2/15` |
| MM1CappedSystem.New | exercies/models/mm1/capped_system.py:10-26 | refused with `Unstable` exactly when `lmbda >= mu`, whatever the capacity; otherwise keeps the rates and `M` with `psi mu = lmbda`; valid for positive `lmbda` and `M >= 1` |
| MM1CappedSystem.UtilisationBounds | exercies/models/mm1/capped_system.py:20-25 | a queue past the stability guard has utilisation strictly between 0 and 1 |
| MM1CappedSystem.SystemUnitsAmountMean | exercies/models/mm1/capped_system.py:28-39 | the mean lies strictly between 0 and the capacity `M`, and strictly below the unbounded queue's `psi / (1 - psi)` |
| MM1CappedSystem.SystemMeanIsExpectation | exercies/models/mm1/capped_system.py:28-39 | the closed form is the mean of the truncated geometric occupancy law: times `sum_{n<=M} psi^n` it equals `sum_{n<=M} n psi^n` |
| MM1CappedSystem.PowerInUnitInterval | exercies/models/mm1/capped_system.py:37 | the powers `psi^k` of the correction terms lie in `(0, 1)` |
| MM1CappedSystem.QueueUnitsAmountMean | exercies/models/mm1/capped_system.py:41-50 | the mean queue length is positive |
| MM1CappedSystem.UnoccupiedServersMean | exercies/models/mm1/capped_system.py:52-60 | the mean number of idle servers lies strictly between 0 and 1 |
| MM1CappedSystem.QueueMeansIgnoreCapacity | exercies/models/mm1/capped_system.py:41-60 | two queues that differ only in capacity have the same queue mean and idle-server mean |
| MM1CappedSystem.TimeInQueueMean | exercies/models/mm1/capped_system.py:62-70 | the mean wait is positive |
| MM1CappedSystem.TimeInQueueThroughput | exercies/models/mm1/capped_system.py:62-70 | the wait times the throughput `lmbda (P0 + P(1)) = lmbda (1 + psi) P0` is the queue mean |
| MM1CappedSystem.TimeInSystemMean | exercies/models/mm1/capped_system.py:72-83 | the capacity correction is positive: the time stays strictly below `1 / (mu (1 - psi))` |
| MM1CappedSystem.TimeInSystemArrivalView | exercies/models/mm1/capped_system.py:28-83 | for `M >= 2`, `mu W` for capacity `M` equals one plus the system mean for capacity `M - 1`, so `W` exceeds one service time `1/mu` |
| MM1CappedSystem.TimeInSystemSingleRoom | exercies/models/mm1/capped_system.py:72-83 | for `M = 1`, `W` is exactly one service time: `mu W = 1` |
| MM1CappedSystem.TimeOfServiceMean | exercies/models/mm1/capped_system.py:85-93 | the mean service time is the reciprocal of `mu` |
| MM1CappedSystem.ProbabilityOfZeroUnits | exercies/models/mm1/capped_system.py:95-105 | the empty value as written times `(1 - psi)^M` is 1, so it exceeds 1 |
| MM1CappedSystem.ZeroUnitsAsWritten | exercies/models/mm1/capped_system.py:103-105 | the empty value is `1 / (1 - psi)^M` with `(1 - psi)^M` in `(0, 1)`, and is above 1 |
| MM1CappedSystem.ProbabilityOfNUnits | exercies/models/mm1/capped_system.py:107-123 | `UnitsAboveCapacity` exactly when `n > M`; no value (Python `None`) exactly when `n < 0`; the empty value at 0; strictly between 0 and it for `1 <= n <= M` |
| MM1CappedSystem.NextUnitRatio | exercies/models/mm1/capped_system.py:118-123 | below the capacity each further unit multiplies the occupancy value by `psi` |
| MM1CappedSystem.EffectiveArrivalRate | exercies/models/mm1/capped_system.py:125-133 | the effective rate is `lmbda` thinned by the full-system value `(psi / (1 - psi))^M`, so it is below `lmbda` |
| MM1CappedSystem.FullSystemValue | exercies/models/mm1/capped_system.py:118-123 | the value at `n = M` is `(psi / (1 - psi))^M` |
| MM1CappedPopulation.New | exercies/models/mm1/capped_population.py:14-30 | refused with `Unstable` exactly when `lmbda >= mu`; otherwise keeps the rates and `m` with `psi mu = lmbda`; valid for positive `lmbda` and `m >= 1` |
| MM1CappedPopulation.UtilisationBounds | exercies/models/mm1/capped_population.py:24-29 | a queue past the stability guard has utilisation strictly between 0 and 1 |
| MM1CappedPopulation.Weight | exercies/models/mm1/capped_population.py:119 | each summand `m! psi^k / (m-k)!` of the normalising sum is positive |
| MM1CappedPopulation.WeightTimesFact | exercies/models/mm1/capped_population.py:119 | the falling product times `(m-k)!` is `m! psi^k` |
| MM1CappedPopulation.WeightIsQuotient | exercies/models/mm1/capped_population.py:119 | the falling product equals the code's summand `m! psi^k / (m-k)!` |
| MM1CappedPopulation.WeightSumPositive | exercies/models/mm1/capped_population.py:119 | the normalising sum over `k = 1..m` is positive |
| MM1CappedPopulation.ProbabilityOfZeroUnits | exercies/models/mm1/capped_population.py:111-119 | the empty probability lies strictly between 0 and 1 |
| MM1CappedPopulation.ZeroUnitsNormalises | exercies/models/mm1/capped_population.py:111-119 | `P0 (1 + sum_k m! psi^k/(m-k)!) = 1` |
| MM1CappedPopulation.ZeroUnitsFromSum | exercies/models/mm1/capped_population.py:111-119 | once the normalising sum is known to be `c`, `P0 (1 + c) = 1` |
| MM1CappedPopulation.RecursiveIsWeighted | exercies/models/mm1/capped_population.py:121-129 | the recursive strategy gives `P0` times the weight of `n` |
| MM1CappedPopulation.DefaultIsClosedForm | exercies/models/mm1/capped_population.py:131-135 | the default strategy gives the code's `P0 m! psi^n / (m-n)!` |
| MM1CappedPopulation.StrategiesAgree | exercies/models/mm1/capped_population.py:121-147 | both strategies give the same probability for every `1 <= n <= m` |
| MM1CappedPopulation.ProbabilityOfNUnits | exercies/models/mm1/capped_population.py:149-167 | refused exactly for `n < 0` (`NegativeUnits`) and `n > m` (`UnitsAbovePopulation`); `P0` at 0 under either strategy; positive otherwise |
| MM1CappedPopulation.OccupancyIsWeighted | exercies/models/mm1/capped_population.py:149-167 | inside the population, under either strategy, the probability of `n` is `P0` times the weight of `n` |
| MM1CappedPopulation.BalanceStep | exercies/models/mm1/capped_population.py:126-129 | the balance `P(n) = (m - n + 1) psi P(n - 1)` holds under either strategy |
| MM1CappedPopulation.BusyMass | exercies/models/mm1/capped_population.py:111-167 | the probabilities of `1..m` units sum to `P0` times the normalising sum |
| MM1CappedPopulation.Normalisation | exercies/models/mm1/capped_population.py:111-167 | the probabilities of `0..m` units sum to 1, and those of `1..m` to the probability of waiting |
| MM1CappedPopulation.OccupancyIsFiniteSourceLaw | exercies/models/mm1/capped_population.py:111-167 | the occupancy law satisfies every finite-source balance equation and is normalised |
| MM1CappedPopulation.SystemUnitsAmountMean | exercies/models/mm1/capped_population.py:32-40 | the mean number in the system is below the population |
| MM1CappedPopulation.SystemMeanIsExpectation | exercies/models/mm1/capped_population.py:32-40 | the closed form `m - (1 - P0)/psi` is the mean `sum_n n P(n)` of the occupancy law |
| MM1CappedPopulation.QueueIsSystemLessServed | exercies/models/mm1/capped_population.py:40-51 | the queue mean is the system mean less the probability that the server is busy |
| MM1CappedPopulation.QueueMeanIsExpectation | exercies/models/mm1/capped_population.py:42-51 | the queue mean is the mean of the occupancy law less the mass of `1..m` units |
| MM1CappedPopulation.UnoccupiedServersMean | exercies/models/mm1/capped_population.py:53-61 | the weighted sum over `n = 0, 1` is the empty probability |
| MM1CappedPopulation.UnitsOutsideSystemMean | exercies/models/mm1/capped_population.py:169-177 | the mean number of sources outside is positive |
| MM1CappedPopulation.OutsidePlusSystem | exercies/models/mm1/capped_population.py:32-40 | the sources outside and the units inside add up to the population |
| MM1CappedPopulation.ArrivalRateMean | exercies/models/mm1/capped_population.py:179-187 | the mean arrival rate is positive |
| MM1CappedPopulation.FlowBalance | exercies/models/mm1/capped_population.py:179-187 | the mean arrival rate equals `mu` times the probability that the server is busy |
| MM1CappedPopulation.LittlesLawQueue | exercies/models/mm1/capped_population.py:63-71 | the mean wait times the mean arrival rate is the queue mean |
| MM1CappedPopulation.LittlesLawSystem | exercies/models/mm1/capped_population.py:73-81 | the mean time in the system times the mean arrival rate is the system mean |
| MM1CappedPopulation.SojournSplit | exercies/models/mm1/capped_population.py:63-91 | the time in the system is the time in the queue plus the service time |
| MM1CappedPopulation.TimeOfServiceMean | exercies/models/mm1/capped_population.py:83-91 | the mean service time is the reciprocal of `mu` |
| MM1CappedPopulation.ProbabilityOfWaiting | exercies/models/mm1/capped_population.py:189-197 | the waiting probability lies in `(0, 1)` and is the complement of the idle-server mean |
| MM1CappedPopulation.ProbabilityOfWaitingOver | exercies/models/mm1/capped_population.py:93-109 | `NegativeTime` exactly when `t < 0`; at `t = 0` the probability of waiting, whatever `exp` is |
| MM1CappedPopulation.SixSourceWeights | tests/test_mm1_capped_population.py:5-9 | for `lmbda = 1/4`, `mu = 3/2`, `m = 6` the normalising sum is `899/324` |
| MM1CappedPopulation.SixSourceZeroUnits | tests/test_mm1_capped_population.py:11-14 | for the same queue, exactly `P0 = 324/1223` (within 0.01 of the expected 0.26492) |
| MM1CappedPopulation.SixSourceMeans | tests/test_mm1_capped_population.py:16-24 | for the same queue, exactly `5394/1223` sources outside (within 0.01 of 4.41057) and `Lq = 1045/1223` |
| MM1CappedPopulation.SixSourceScenario | tests/test_mm1_capped_population.py:5-24 | for the same queue, exactly `P0 = 324/1223`, `5394/1223` sources outside and `Wq = 2090/2697` |
| MultiServer.LoadBounds | exercies/models/mms/uncapped.py:23-29 | a subcritical load per server `psi/s` lies strictly between 0 and 1 |
| MultiServer.Gap | exercies/models/mms/uncapped.py:150 | the spare fraction `1 - psi/s` lies strictly between 0 and 1 |
| MultiServer.EmptyTail | exercies/models/mms/uncapped.py:118 | the second term `psi^s / (s! (1 - (psi/s)^2))` is positive |
| MultiServer.EmptyTermsPositive | exercies/models/mms/uncapped.py:117 | the first sum is positive |
| MultiServer.EmptyInverse | exercies/models/mms/uncapped.py:117-121 | the quantity that is inverted is positive |
| MultiServer.EmptyProbability | exercies/models/mms/uncapped.py:109-121 | the empty value is positive |
| MultiServer.ServerScale | exercies/models/mms/uncapped.py:137 | the tail denominator `s! s^j` is at least 1 |
| MultiServer.ServerScaleIsPower | exercies/models/mms/uncapped.py:137 | the product built one factor `s` per unit is `s! s^(n-s)` |
| MultiServer.OccupancyAtZero | exercies/models/mms/uncapped.py:134-135 | the law at 0 is the empty probability |
| MultiServer.TailIsLiteral | exercies/models/mms/uncapped.py:136-137 | from `s` on the law is `psi^n / (s! s^(n-s)) p0` |
| MultiServer.OccupancyPositive | exercies/models/mms/uncapped.py:134-137 | for a positive `p0` every probability of a non-negative count is positive |
| MultiServer.BranchesAgree | exercies/models/mms/uncapped.py:134-137 | the two formulas agree at their seam `n = s` |
| MultiServer.PoissonRatio | exercies/models/mms/uncapped.py:134-135 | below the servers `(n + 1) P(n + 1) = psi P(n)` |
| MultiServer.TailStep | exercies/models/mms/uncapped.py:136-137 | from the servers on `s P(n + 1) = psi P(n)` |
| MultiServer.TailRatio | exercies/models/mms/uncapped.py:136-137 | from the servers on each unit multiplies the probability by `psi/s` |
| MultiServer.ServiceRateGrows | exercies/models/mms/uncapped.py:165-168 | for a non-negative `mu`, the service rate never drops as the number of units grows |
| MultiServer.BalanceWhileIdle | exercies/models/mms/uncapped.py:134-166 | `lmbda P(n) = mu (n + 1) P(n + 1)` while `n + 1 < s` |
| MultiServer.BalanceReachingServers | exercies/models/mms/uncapped.py:134-168 | `lmbda P(s - 1) = mu s P(s)` |
| MultiServer.BalanceAllBusy | exercies/models/mms/uncapped.py:136-168 | `lmbda P(n) = mu s P(n + 1)` for `n >= s` |
| MultiServer.Balance | exercies/models/mms/uncapped.py:123-168 | the birth-death balance `lmbda P(n) = rate(n + 1) P(n + 1)` at every level, for every `p0` |
| MultiServer.TailTerm | exercies/models/mms/uncapped.py:136-137 | `P(s + k) = (psi/s)^k P(s)` |
| MultiServer.AtLeastServersIsTail | exercies/models/mms/uncapped.py:139-150 | `Pgeq (1 - psi/s) = P(s)`, so `Pgeq` is positive and heads a geometric tail |
| MultiServer.TailPartialSum | exercies/models/mms/uncapped.py:134-150 | `sum_{n=s}^{s+k-1} P(n) = Pgeq - P(s+k)/(1 - psi/s)`, below `Pgeq` |
| MultiServer.QueueFactor | exercies/models/mms/uncapped.py:39-40 | the factor `psi^(s+1) / (s s! (1 - psi/s)^2)` is positive |
| MultiServer.QueueFactorIsTail | exercies/models/mms/uncapped.py:39-43 | `factor p0 = Pgeq (psi/s) / (1 - psi/s)`, the mean excess of the geometric tail |
| MMSUncapped.New | exercies/models/mms/uncapped.py:13-29 | refused with `Unstable` exactly when `lmbda >= s mu`; otherwise keeps the rates and `s` with `psi mu = lmbda`; valid for positive rates and `s >= 1` |
| MMSUncapped.UtilisationBounds | exercies/models/mms/uncapped.py:23-29 | a queue past the guard is subcritical: `0 < psi/s < 1` |
| MMSUncapped.ProbabilityOfZeroUnits | exercies/models/mms/uncapped.py:109-121 | the empty value is positive |
| MMSUncapped.ZeroUnitsIsReciprocal | exercies/models/mms/uncapped.py:117-121 | the empty value times the two sums it inverts is 1 |
| MMSUncapped.ProbabilityOfNUnits | exercies/models/mms/uncapped.py:123-137 | `NegativeFactorial` exactly when `n < 0` |
| MMSUncapped.NUnitsPositive | exercies/models/mms/uncapped.py:134-137 | every answer for `n >= 0` is positive |
| MMSUncapped.ZeroUnitsAgree | exercies/models/mms/uncapped.py:134-135 | the answer at 0 is the empty value |
| MMSUncapped.NUnitsBranchesAgree | exercies/models/mms/uncapped.py:134-137 | at `n = s` the tail formula equals `psi^s / s! P0` |
| MMSUncapped.NUnitsTailRatio | exercies/models/mms/uncapped.py:136-137 | from `s` on each unit multiplies the answer by `psi/s` |
| MMSUncapped.EffectiveServiceRate | exercies/models/mms/uncapped.py:152-168 | `NegativeUnits` exactly when `n < 0`; otherwise between 0 and `mu s` |
| MMSUncapped.ServiceRateBounds | exercies/models/mms/uncapped.py:165-168 | the rate of `n` units lies between 0 and `mu s` |
| MMSUncapped.ServiceRateMonotone | exercies/models/mms/uncapped.py:165-168 | more units never lower the service rate |
| MMSUncapped.ServiceRateSaturates | exercies/models/mms/uncapped.py:165-168 | the rate is `mu s` exactly when `n >= s` |
| MMSUncapped.BirthDeathBalance | exercies/models/mms/uncapped.py:123-168 | `lmbda P(n) = ESR(n + 1) P(n + 1)` between the two accessors, for every `n >= 0` |
| MMSUncapped.ProbabilityOfAtLeastServers | exercies/models/mms/uncapped.py:139-150 | `Pgeq` is positive and `Pgeq (1 - psi/s) = P(s)` |
| MMSUncapped.AtLeastServersBoundsTail | exercies/models/mms/uncapped.py:123-150 | the answers for `s..s+k-1` sum to `Pgeq - P(s+k)/(1 - psi/s)`, below `Pgeq` |
| MMSUncapped.WaitExponent | exercies/models/mms/uncapped.py:107 | the exponent `mu t (psi/s - 1)` is negative for `t > 0` and 0 at `t = 0` |
| MMSUncapped.ProbabilityOfWaitingOver | exercies/models/mms/uncapped.py:96-107 | at `t = 0` (for an `exp` with `exp(0) = 1`) the answer is `Pgeq` |
| MMSUncapped.WaitingOverBounds | exercies/models/mms/uncapped.py:96-107 | the answer is in `(0, Pgeq]` when the exponential factor is in `(0, 1]`, and above `Pgeq` when the factor exceeds 1 |
| MMSUncapped.SystemUnitsAmountMean | exercies/models/mms/uncapped.py:31-43 | the system mean exceeds `psi` |
| MMSUncapped.SystemMeanFromTail | exercies/models/mms/uncapped.py:31-43 | `L - psi = Pgeq (psi/s) / (1 - psi/s)` |
| MMSUncapped.QueueUnitsAmountMean | exercies/models/mms/uncapped.py:45-54 | the queue mean is positive |
| MMSUncapped.QueueMeanAsWritten | exercies/models/mms/uncapped.py:31-54 | `L = mu P0 Lq + psi`: the queue mean lacks `P0` and is divided by `mu` |
| MMSUncapped.UnoccupiedServersMean | exercies/models/mms/uncapped.py:56-64 | the idle-server mean is in `(0, s)` and `mu` times it is the spare capacity `s mu - lmbda` |
| MMSUncapped.TimeInQueueMean | exercies/models/mms/uncapped.py:66-74 | Little's law on the queue mean; the wait is positive |
| MMSUncapped.TimeInSystemMean | exercies/models/mms/uncapped.py:76-84 | Little's law on the system mean |
| MMSUncapped.SojournExceedsService | exercies/models/mms/uncapped.py:76-94 | the time in the system exceeds one service time |
| MMSUncapped.TimeOfServiceMean | exercies/models/mms/uncapped.py:86-94 | the mean service time is positive and is the reciprocal of `mu` |
| MMSUncapped.EightyFiftyScenario | tests/test_mms_uncapped.py:5-19 | for `lmbda = 80`, `mu = 50`, `s = 2`: exactly `P0 = 225/1952` and `W = 347/6100` (within 0.01 of 0.1111 and 4.444444/80), `Pgeq = 45/61`, `L = 1388/305`, `Lq = 64/125`, and `P(0) + P(1) + Pgeq = 2025/1952` |
| MMSUncapped.LightLoadScenario | exercies/models/mms/uncapped.py:109-121 | for `lmbda = 1`, `mu = 10`, `s = 1` the empty value is `990/199`, above 1 |

## Left out

- Floating point: every quantity is an exact real. Rounding, `inf`, `nan` and Python's
  `OverflowError` are not modelled. Python raises `OverflowError` when a float power leaves the
  float range, or when an integer too large for a float meets a float. The model computes
  without fault at every such point. Among them:
  - `fact(self.m)` in `exercies/models/mm1/capped_population.py:119` and `:135` fails once
    `m >= 171`;
  - `fact(x)` and `fact(self.s)` in `exercies/models/mms/uncapped.py:117-118` fail once
    `s >= 171`, and so does every M/M/s accessor built on them;
  - `s * fact(s)` in `exercies/models/mms/uncapped.py:40` and `:54` fails from `s = 170`;
  - the denominator `fact(self.s) * (self.s ** (n - self.s))` in
    `exercies/models/mms/uncapped.py:137` fails for large `n` whenever `s >= 2`, whatever
    `psi` is (for `s = 2`, from `n = 1025`);
  - `self.psi ** n` in `exercies/models/mms/uncapped.py:135` and `:137` fails for large `n`
    when `psi > 1`.
- `np.exp` is not modelled. The waiting-time functions take it as a parameter `exp`. Their
  contracts hold for any `exp`, or under a stated hypothesis about its value.
- `exercies/exercies.py` (the script that prints answers for fixed inputs) and the `unittest`
  harness are not modelled. The test inputs become the exact scenario lemmas.
- Integer-typed parameters: `M`, `m` and `s` are unbounded integers and `n` is an `int`. A
  float passed where Python expects an `int` is not modelled.
- `Valid` adds what the code assumes but never checks: positive `lmbda` and `mu`, and at least
  one unit of capacity, population or servers. No accessor is modelled outside these.
- MM1Uncapped.New: requires `mu != 0 || lmbda >= mu`. It excludes only `mu = 0` with
  `lmbda < 0`, where the stability guard passes and the Python constructor raises
  `ZeroDivisionError` at `lmbda / mu`. The model does not carry that path. With `mu = 0` and
  `lmbda >= 0` the guard fires first, and the model returns `Err(Unstable)` as the code does.
- MM1CappedSystem.New: requires `mu != 0 || lmbda >= mu`, for the same reason.
- MM1CappedPopulation.New: requires `mu != 0 || lmbda >= mu`, for the same reason.
- MMSUncapped.New: requires `mu != 0 || lmbda >= s mu`, for the same reason. It excludes only
  `mu = 0` with `lmbda < 0`.
- MM1CappedPopulation: the strategy table is a two-constructor datatype. A strategy outside the
  enumeration is not modelled.
- MM1CappedPopulation.ProbabilityOfNUnits: the strategy is a required argument. The Python
  default `PnStrategies.DEFAULT` is not modelled. `StrategiesAgree` shows the choice does not
  change any value.
- MM1CappedPopulation.QueueUnitsAmountMean, TimeInQueueMean and TimeInSystemMean carry no
  contract of their own. Their properties are stated by `QueueIsSystemLessServed`,
  `LittlesLawQueue`, `LittlesLawSystem` and `SojournSplit`.
- MM1CappedPopulation.PnRecursive and PnDefault carry no contract of their own. Their values
  are stated by `RecursiveIsWeighted`, `DefaultIsClosedForm` and `StrategiesAgree`.
- MMSUncapped.ProbabilityOfNUnits: its contract covers only the error path. The values are
  stated by `NUnitsPositive`, `ZeroUnitsAgree`, `NUnitsBranchesAgree`, `NUnitsTailRatio` and
  `BirthDeathBalance`.
- MultiServer.QueueFactor: `(1 - psi/s)**2` is written as a product `g * g`. `(psi/s)**2` in
  the empty value is a `Pow` of exponent 2. Both equal Python's `**2` on exact reals.
- MultiServer.ServerScale: `s**(n-s)` is built as a product, one factor `s` per unit, and
  `ServerScaleIsPower` shows it is the power.
- The M/M/s empty value, the capped-system empty value and the M/M/s queue mean are modelled as
  written, not as the textbook laws:
  - the M/M/s occupancy answers do not sum to 1 (`EightyFiftyScenario`);
  - its empty value can exceed 1 (`LightLoadScenario`);
  - the capped-system empty value is `(1 - psi)^-M` (`ZeroUnitsAsWritten`).

  No normalisation is claimed for either.

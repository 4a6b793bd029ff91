# PlanRace v2 verification

A Dafny model of the validator core of PlanRace v2 with proofs of what the protocol
promises. `dafny verify dfyconfig.toml` checks everything.

The model has five parts, one module per component.

- **Rewards and allocation.** `Statistics` (winsorised mean, MAD standard error),
  `Benchmark`, `BenchmarkLaws` and `BenchmarkRange` (scoring one candidate), `SetupCosts` and
  `SetupRewards` (what a larger setup does),
  `Deduplication` (evaluate-once splitting), `Aggregation`, `AggregationLaws`, `AggregationScaling` and `Network`
  (closed-schedule aggregates), `WaterFilling` and `CappedNormalization` (normalising under
  a concentration cap), `Allocation`, `AllocationLaws` and `AllocationLoop`,
  `ConcentrationMetrics`. `CopiedObservations`, `ClonedAllocation`, `CopyNeutrality` and
  `NearCopies` prove that identity copies are neutral and near-copies do not help.
- **Commit, seal, reveal.** `Merkle` and `Commitment` (binding of the task commitment),
  `Replay` (three replay stores as objects, and all sequences of calls), `Responses`
  (signing and verification), `Lifecycle` (the state machine, all its runs, the object).
- **Canonical encodings.** `Json`, `Hashing`, `Base64`, `Sorting`, `Oracle` and `OracleLaws`
  (exact results), `Indexes` and `PartialIndexes` (strategy digest as a normal form and
  what it means), `IndexSql` (compiler, parser, round trip).
- **Evaluate-once cohort.** `Cohort`, from submissions to observations and into the
  deduplicator, for any evaluator; `CohortEvidence`, what the cache can change for a miner.
- **Chain-side weights.** `Clipping`, `ClippingLaws` and `Quantization`.

Loops are methods proved against specification functions; the laws are lemmas about those
functions. Modules whose name ends in `Meaning` say what an operation computes in the literal
arithmetic and the counts of the source, independently of the functions that compute it;
`FormatExamples` fixes the byte formats on concrete values. Dictionaries are maps, floats are exact reals, and the literal tolerances 1e-15,
1e-12, 1e-9 and 1e-7 are named constants. Where a law is exact only without a tolerance the
specification takes the tolerance as a parameter, and the methods use the literal one.

Inputs of the model:

- `Analysis` supplies log, exp, log2, the power of two and the square root of a count. What
  is assumed of them is stated there: log and exp are inverse homomorphisms, log2 is not
  positive on ratios up to one, the power of two undoes it, is positive, and is at most one
  exactly for exponents up to zero, roots of counts are positive. The laws about setups also
  use that the power of two takes sums to products and that roots square to their counts.
- The hash is a function parameter. Laws that need it to be ideal say so; `Hashing` shows
  that the framed canonical digest over a collision-free byte hash is ideal.
- Signature verification, signing, the entropy draws, the fixture factory, the sandbox
  evaluator and every clock value are parameters.

Where the code and what is said about it differ, the model follows the code:

- A benchmark reward is described as 0 to 100. Horizon weights need only sum to one within
  a relative 1e-9; the range holds exactly when they sum to at most one
  (`BenchmarkRange.RewardRangeIff`, with a policy in `BenchmarkRange.HeavyPolicyExceeds`).
  An observation with a larger reward is refused (planrace/scoring_v2.py:403-404).
- A costlier setup would be expected to pay no better. It never raises a reported speedup,
  but it can bring the samples together and so shrink the margin for confidence by more than
  the mean falls; the reward never rises with the setup exactly when the confidence factor
  is zero (`SetupRewards.SetupNeverHelpsIff`, a candidate in
  `SetupRewards.ErraticEarnsMore`).
- Bundles with one strategy digest are credited with one evidence digest, as if they were
  variants in their metadata only. They may differ in the order of predicate atoms, the
  names of their indexes then differ, and evidence keeps those names; so evaluated alone
  they can have different evidence. `CohortEvidence.CohortUpToEvidence` says exactly when,
  and `CohortEvidence.CacheMakesChecksPass` gives two miners.
- A clipped share can exceed the weight limit. The exact condition is
  `ClippingLaws.LimitMetIff`, an example `ClippingLaws.LimitExceeded`.
- When almost no mass lies below the clipping cutoff, the cutoff is negative and the weight
  is spread evenly over all entries, or the code divides by zero when it is exactly zero
  (`ClippingLaws.DivisionByZeroIff`; vectors in `ClippingLaws.LoneWeightFlattened` and
  `ClippingLaws.DustyDividesByZero`).
- A vector that meets the limit can fail the integer gate after rounding
  (`Quantization.QuantizedGateIff`, `Quantization.LimitMetGateFails`).
- A strategy digest is finer than the meaning of an index
  (`PartialIndexes.SameRowsOtherDigest`, and for equal statements exactly as
  `PartialIndexes.SameStatementsOtherDigestIff` says).
- Response verification still accepts the instant of expiry, at which the persistent replay
  store already forgets the response (`Responses.SecondPresentationIff`,
  `Responses.AdmittedAgainAtExpiry`).

## Model

| member | source | states |
|---|---|---|
| Statistics.WinsorizedMeanBounds | planrace/scoring_v2.py:29-52 | No more than the winsor width of samples beyond a bound, on either side, cannot move the winsorised mean past that bound |
| Statistics.WinsorizedMeanResistsCorruption | planrace/scoring_v2.py:29-52 | Rewriting at most the winsor width of samples arbitrarily leaves the mean inside any range that held the samples before |
| Statistics.WinsorizedMeanScale | planrace/scoring_v2.py:29-52 | The winsorised mean is homogeneous: scaling every sample by c > 0 scales the mean by c |
| Statistics.RobustStandardErrorScale | planrace/scoring_v2.py:55-62 | The MAD-based standard error is homogeneous |
| Statistics.RobustStandardErrorNonNegative | planrace/scoring_v2.py:55-62 | The standard error is never negative, so the confidence margin never raises a score |
| StatisticsMeaning.WidthIsLargest | planrace/scoring_v2.py:45-46 | The winsor width is the largest number that leaves a sample in the middle and does not exceed the fraction of the samples, or the minimum width where there is a fraction at all |
| StatisticsMeaning.WinsorizedMeanIs | planrace/scoring_v2.py:29-52 | In terms of any ascending list of the samples: the mean after the width smallest and largest samples are replaced by the next ones inwards |
| StatisticsMeaning.WinsorizedMeanMonotone | planrace/scoring_v2.py:29-52 | Raising samples never lowers the winsorised mean |
| StatisticsMeaning.MedianIs | planrace/scoring_v2.py:60-61 | The median is the middle sample of an ascending list, or half-way between the two middle ones, and nothing else is |
| StatisticsMeaning.StandardErrorIs | planrace/scoring_v2.py:55-62 | The standard error is 1.4826 times the median distance from the median over the root of the sample count; a lone sample has none |
| StatisticsMeaning.SpreadExample | planrace/scoring_v2.py:55-62 | The samples 4, 1, 11, 2 have standard error 1.4826 * 1.5 over the root of 4 |
| Benchmark.CollectLogSpeedups | planrace/scoring_v2.py:298-306 | The inner loop collects one base-two log speedup per completed trial: baseline total over candidate total with setup and storage mark-up |
| Benchmark.ScoreHorizons | planrace/scoring_v2.py:294-324 | The loop over horizons yields every horizon score in order and the weighted sum of savings |
| Benchmark.ScoreBenchmark | planrace/scoring_v2.py:170-334 | The whole scorer, gates in source order and loops, equals the specification the next three rows are about |
| BenchmarkLaws.HardwareSpeedCancels | planrace/scoring_v2.py:170-334 | Multiplying every trial timing and the setup time by any c > 0 leaves the whole score unchanged, through all gates and horizons |
| BenchmarkLaws.RewardPositiveIff | planrace/scoring_v2.py:294-334 | The reward lies between 0 and 100 times the sum of the horizon weights, and is positive (equivalently: eligible) iff no gate refuses and some horizon of positive weight has a positive lower confidence bound |
| BenchmarkRange.RewardRangeIff | planrace/scoring_v2.py:170-334 | The reward of every candidate is at most 100 iff the policy's horizon weights sum to at most 1 |
| BenchmarkRange.RewardExceeds | planrace/scoring_v2.py:294-334 | For any policy whose weights sum to more than 1, a uniformly fast enough candidate in balanced trials is rewarded with more than 100 |
| BenchmarkRange.HeavyPolicyExceeds | planrace/scoring_v2.py:77-95 | The constructor accepts a single weight of 1.0000000005, and under that policy some candidate is rewarded with more than 100 |
| BenchmarkLaws.LuckyMinorityEarnsNothing | planrace/scoring_v2.py:294-334 | If at every horizon no more than the winsor width of completed trials beat the baseline, the reward is exactly 0 |
| BenchmarkLaws.GatesMean | planrace/scoring_v2.py:183-292 | Whatever the order of the checks: the benchmark is valid iff the validator's side is sound (trials, one worker, balance, no baseline timeout), a candidate failure is a valid zero, and only both sides sound reaches the horizons |
| BenchmarkMeaning.UniformTrialsScore | planrace/scoring_v2.py:297-319 | When completed trials agree on their four times, the reported speedup times setup plus cold plus repeated warm candidate time, marked up for storage, is the baseline time, at every horizon; the lower bound equals it |
| BenchmarkMeaning.HorizonMeans | planrace/scoring_v2.py:297-324 | For any trials: each horizon rests on the base-two logarithms of the speedups of the completed trials, their winsorised mean and standard error; savings are one minus the inverse lower bound |
| BenchmarkMeaning.RewardMeans | planrace/scoring_v2.py:320-334 | The reward is a hundred times the weighted savings times the square of the share of trials that did not time out; timeout rate, storage ratio, worker and code follow |
| BenchmarkMeaning.FailureMeans | planrace/scoring_v2.py:183-292 | An unpaid benchmark names the first check it fails, each check said by counts of positions and by flags |
| SetupCosts.LargerSetupSlows | planrace/scoring_v2.py:297-310 | A larger setup never raises the reported speedup of a horizon, under any policy |
| SetupRewards.SetupNeverHelpsIff | planrace/scoring_v2.py:294-334 | A larger setup never raises the reward of any candidate iff the confidence factor of the policy is zero |
| SetupRewards.ErraticEarnsMore | planrace/scoring_v2.py:294-334 | Under any policy with a positive confidence factor a candidate with slow trials on two levels and a fast one between earns strictly more with setup 1 than with setup 0 |
| WaterFilling.FillConserves | planrace/scoring_v2.py:743-767 | The loop conserves the mass it distributes, or gives every key exactly the cap when the keys cannot absorb it; no share exceeds the cap by more than the tolerance |
| WaterFilling.FillIsWaterFilling | planrace/scoring_v2.py:743-767 | One multiplier L explains every share: the cap where L times the raw mass is above it, exactly L times the raw mass elsewhere |
| WaterFilling.WaterFillingKeepsOrder | planrace/scoring_v2.py:743-767 | A smaller raw mass never gets a larger share, up to the tolerance |
| WaterFilling.LoweredMass | planrace/scoring_v2.py:743-767 | Lowering one raw mass never raises its own share and never lowers another, up to the tolerance per key |
| WaterFilling.EqualMassesEqualShares | planrace/scoring_v2.py:743-767 | Keys of equal raw mass receive exactly the same share, masses of zero included |
| CappedNormalization.FillLoop | planrace/scoring_v2.py:747-767 | The imperative loop over the remaining keys computes the recursive water-filling specification |
| CappedNormalization.PlaceResidue | planrace/scoring_v2.py:768-774 | The residue goes to the lightest key that can take it |
| CappedNormalization.ResiduePlaced | planrace/scoring_v2.py:768-774 | The weights are those of the loop when they sum to one; otherwise every key is at the cap but the one with the first identifier, which has what the caps leave |
| CappedNormalization.CappedNormalize | planrace/scoring_v2.py:743-775 | The function equals its specification at the literal tolerance, refusal for too few recipients included |
| CappedNormalization.NormalizeDistributes | planrace/scoring_v2.py:743-775 | Refused iff n times the cap is short of 1 by more than 1e-12; otherwise the weights sum to exactly 1 and none exceeds the cap by more than the tolerance (1e-12 when the residue step is needed) |
| CappedNormalization.NormalizeWaterFills | planrace/scoring_v2.py:743-775 | If n times the cap is at least 1 the final weights are exactly a water-filling of the raw masses; otherwise, after the residue step, a water-filling up to 1e-12 per weight |
| CappedNormalization.NormalizeKeepsOrder | planrace/scoring_v2.py:743-775 | A smaller raw mass gets no larger final weight, up to the tolerance if n times the cap is at least 1 and up to 1e-12 otherwise |
| CappedNormalization.NormalizeScale | planrace/scoring_v2.py:743-775 | The result does not depend on the unit of the masses |
| CappedNormalization.NormalizeMonotone | planrace/scoring_v2.py:743-775 | Lowering one mass keeps the call accepted, never helps that key and never hurts another: up to n tolerances (so exactly at tolerance 0) if n times the cap is at least 1, up to n times 1e-12 otherwise |
| CappedNormalization.SmallSharesUnchanged | planrace/scoring_v2.py:743-775 | While no proportional share exceeds the cap by more than the tolerance, the weights are exactly the proportional shares |
| CappedNormalization.MasslessSplitEqually | planrace/scoring_v2.py:750-756 | Without any mass every key gets one over their number |
| ConcentrationMetrics.ConcentrationBounds | planrace/scoring_v2.py:721-740 | For any non-negative weights with positive total: 1/n <= HHI <= top share <= 1, 0 <= Gini <= (n-1)/n, 1 <= effective miners <= n |
| ConcentrationMetrics.HhiBelowCap | planrace/scoring_v2.py:721-740 | For weights summing to 1 and capped by a bound, the Herfindahl index is at most the bound |
| ConcentrationMeaning.MetricsMean | planrace/scoring_v2.py:721-740 | With neither sorting nor normalising: Gini is the sum of the gaps between all pairs over total and count, the Herfindahl index the sum of squares over the squared total, effective miners times it is one, the top share the largest value over the total |
| ConcentrationMeaning.MetricsOfNothing | planrace/scoring_v2.py:721-727 | A negative weight, and only that, is refused; weights without a total give four zeros |
| Deduplication.DeduplicateTaskRewards | planrace/scoring_v2.py:513-555 | The loops return exactly the untouched observations and then the groups' shares, stably sorted by miner and epoch, a permutation of the specified observations; or the specified error |
| Deduplication.DeduplicateAccepts | planrace/scoring_v2.py:523-547 | Accepted iff tasks carry one metadata each and every cache group has distinct miners, one evidence digest and rewards within 1e-9, whatever the order of groups |
| Deduplication.DeduplicationConserves | planrace/scoring_v2.py:523-555 | After splitting, the observations of one cached evaluation carry together exactly one evaluation's reward |
| DeduplicationMeaning.AcceptedIff | planrace/scoring_v2.py:523-547 | By positions: accepted iff every task has one epoch, family and commitment, and passing observations of one strategy on one commitment come from different miners with one evidence digest and rewards within 1e-9 |
| DeduplicationMeaning.RefusedFor | planrace/scoring_v2.py:523-547 | A refusal names a fault that is there, inconsistent tasks before anything else |
| DeduplicationMeaning.PartsReturned | planrace/scoring_v2.py:536-555 | Accepted observations come back in their places: of n that share an evaluation each has one n-th of the reward of the first and the group size n; the others are untouched |
| AggregationLaws.ScheduledIffNoFault | planrace/scoring_v2.py:585-599 | The order-dependent schedule checks pass iff every observation matches its scheduled task and no task is observed twice |
| AggregationLaws.AggregateIgnoresOrder | planrace/scoring_v2.py:580-700 | Permuting a miner's observations changes neither acceptance nor the aggregate |
| AggregationLaws.AggregateIgnoresAbsences | planrace/scoring_v2.py:580-700 | Dropping (so also adding) schedule-valid unavailable observations leaves the aggregate unchanged |
| AggregationLaws.BucketSizeFixed | planrace/scoring_v2.py:615-630 | Every family bucket has the scheduled number of entries whatever a miner submits |
| AggregationLaws.PaidIff | planrace/scoring_v2.py:601-700 | Eligible, equivalently paid, iff every gate is met, all family scores are positive and the center exceeds the uncertainty with some availability and compliance; never paid more than that margin |
| AggregationLaws.AvailableWithinSchedule | planrace/scoring_v2.py:587-603 | No miner is available on more tasks than were scheduled, so availability is at most one |
| AggregationMeaning.AggregateMeans | planrace/scoring_v2.py:601-700 | Every field of an accepted aggregate: family scores from what the scheduled tasks earned, the center (next row), uncertainty, rates as shares of positions, digests of the available pairs, and the reward as the margin times availability and compliance |
| AggregationMeaning.GeometricMeanIs | planrace/scoring_v2.py:643-648 | For positive scores, as many copies of the center as there are scores have the product of the scores |
| AggregationMeaning.FailureMeans | planrace/scoring_v2.py:667-684 | An unpaid aggregate names the first gate it does not pass |
| AggregationMeaning.MatchesIff | planrace/scoring_v2.py:585-596 | An observation matches the schedule iff the schedule has a task with its identifier, epoch, family and commitment |
| AggregationMeaning.FaultMeans | planrace/scoring_v2.py:587-599 | A refusal names what is wrong with the first observation that does not belong |
| AggregationScaling.GeometricMeanScale | planrace/scoring_v2.py:643-648 | The geometric mean of family scores is homogeneous |
| AggregationScaling.ThinnedAggregate | planrace/scoring_v2.py:580-700 | Scaling the passing rewards of one miner by c > 0 and renaming it scales center, uncertainty, scores and reward by c and changes nothing else: gates, ratios and digests stay |
| Network.IndexObservations | planrace/scoring_v2.py:585-599 | The first loop reports the first schedule fault or indexes exactly the observations by task |
| Network.FillBuckets | planrace/scoring_v2.py:615-630 | The second loop fills one bucket per family in schedule order, zeros for absent or failing tasks |
| Network.AggregateScheduledMiner | planrace/scoring_v2.py:580-700 | The loops compute the specified aggregate of one miner |
| Network.AggregateNetworkLoop | planrace/scoring_v2.py:558-577 | The production path, deduplicating first, returns the specified aggregates in roster order, or the refusal; a schedule fault is the first one in the deduplicated list's actual order |
| Network.RosterIgnoresOrder | planrace/scoring_v2.py:558-577 | The network aggregates do not depend on the order of the deduplicated list |
| NetworkMeaning.NetworkMeans | planrace/scoring_v2.py:558-577 | Over the observations as they came in: aggregated iff the roster is a non-empty list of different miners that knows everybody, the deduplication accepts, and each miner is on schedule without repeated tasks; then one aggregate per miner from its deduplicated observations |
| Allocation.MinMassIsMinimum | planrace/scoring_v2.py:814-825 | A behaviour group's mass is attained by one of its exact strategies and is at most every one of them |
| AllocationLoop.GroupByBehavior | planrace/scoring_v2.py:789-791 | The grouping loop collects exactly the members of each behaviour digest |
| AllocationLoop.ConservativeMass | planrace/scoring_v2.py:815-825 | Accumulating rewards per exact strategy and taking the minimum gives the specified group mass |
| AllocationLoop.AllocateWeights | planrace/scoring_v2.py:778-850 | The whole allocation, loops and refusals, equals the specification at the literal tolerance |
| AllocationLaws.AllocationEntries | planrace/scoring_v2.py:837-842 | Every eligible miner gets its group's weight in proportion to its reward within the group, and nobody else gets an entry |
| AllocationLaws.GroupConserves | planrace/scoring_v2.py:837-842 | The members of a behaviour group receive together exactly the group's weight |
| AllocationLaws.AllocationConserves | planrace/scoring_v2.py:778-850 | A planned allocation sums to exactly 1, no group exceeds the maximum weight by more than 1e-12, and the Herfindahl index stays within the same bound |
| AllocationMeaning.DuplicatesReported | planrace/scoring_v2.py:786-799 | For every outcome but the one without earners: a digest is listed iff two different earning miners carry it, with exactly the earning miners that do |
| AllocationMeaning.RefusalsMean | planrace/scoring_v2.py:786-836 | Refused iff nobody earned, else too few behaviour digests are carried, else their number times the cap is short of 1 by more than 1e-12 |
| AllocationMeaning.AllocationMeans | planrace/scoring_v2.py:814-842 | The mass of a behaviour is the least that one exact strategy of its earning members earned in all, and each earning miner gets of its group weight what its reward is of the rewards of the group |
| CopiedObservations.MirroredAccepted | planrace/scoring_v2.py:513-555 | Replacing one miner by identities that mirror all its observations keeps the deduplicator's acceptance |
| CopiedObservations.CopiesThinned | planrace/scoring_v2.py:536-555 | Each of k mirroring identities is left with the miner's deduplicated observations at 1/k of their passing rewards |
| CopiedObservations.OthersKeep | planrace/scoring_v2.py:536-555 | All other miners keep exactly their deduplicated observations |
| ClonedAllocation.AllocationCloned | planrace/scoring_v2.py:778-850 | Replacing an aggregate by clones with equal parts of its reward keeps the outcome, every group weight and every other miner's weight |
| CopyNeutrality.NetworkCopied | planrace/scoring_v2.py:558-577 | The aggregates of the copied network are the original ones with the miner's entry replaced by its clones |
| CopyNeutrality.CopiesGainNothing | planrace/scoring_v2.py:513-850 | End to end: k identities mirroring one miner's exclusive strategies get together exactly the weight the single miner would get, equally split; no other identity, weight, group weight or refusal changes |
| CopyNeutrality.SharedPoolIsFixed | planrace/scoring_v2.py:513-850 | When all holders of a portfolio share everything, the pool they hold does not depend on who or how many they are, and nobody outside notices |
| CopyNeutrality.PoolSplits | planrace/scoring_v2.py:513-850 | Within the fixed pool each holder has the pool over the number of holders, so a further copy takes its part from the other holders alone |
| NearCopies.NearCopiesCannotHelp | planrace/scoring_v2.py:810-842 | An eligible newcomer with a represented behaviour digest but a new strategy digest never raises its group's weight and lowers neither another group nor any miner outside, up to n tolerances (so exactly at tolerance 0) if the n groups times the cap are at least 1, up to n times 1e-12 otherwise |
| Json.PrintSplit | planrace/models_v2.py:62-80 | Canonical texts of values are prefix codes: equal concatenations split the same way |
| Json.PrintInjective | planrace/models_v2.py:62-80 | The canonical text determines the value, string escaping included |
| Json.PrintOneLine | planrace/oracle_v2.py:197-204 | A canonical text contains no line feed |
| Hashing.FrameInjective | planrace/models_v2.py:83-93 | The length-delimited frame determines domain and payload |
| Hashing.DomainSeparatedIsIdeal | planrace/models_v2.py:83-93 | Over a collision-free byte hash, equal digests mean equal domains and equal values; this discharges the ideal-hash premise used elsewhere |
| FormatExamples.TwoFields | planrace/models_v2.py:73-80 | The separators and brackets of a canonical object of two fields |
| FormatExamples.FrameExample | planrace/models_v2.py:83-94 | The frame of a two-letter domain and three bytes, byte by byte |
| Merkle.NextLevel | planrace/taskgen_v2.py:184-192 | One round of the loop pads an odd level with its last digest and hashes adjacent pairs |
| Merkle.HiddenFixtureMerkleRoot | planrace/taskgen_v2.py:172-193 | The loop computes the specified root and refuses fewer than two fixtures |
| Merkle.SpineUnique | planrace/taskgen_v2.py:176-192 | Following left children, a digest reaches a leaf after one height only: leaves and nodes never collide |
| Merkle.RootsAgree | planrace/taskgen_v2.py:184-193 | Equal roots at equal height mean the shorter list is a prefix of the longer, whose next digest is a repetition |
| Merkle.MerkleRootBinds | planrace/taskgen_v2.py:172-193 | The root is injective on fixture lists of any lengths from two on, despite odd-level duplication, because leaves carry their index |
| CommitmentMeaning.MerkleRootMeans | planrace/taskgen_v2.py:172-193 | The root is the top of the levels whose bottom holds the literal index-bound leaf digests and whose nodes are the literal digests of adjacent pairs, a lone last one paired with itself |
| Commitment.HexRoundTrip | planrace/taskgen_v2.py:127-133 | Decoding the hexadecimal form of a drawn byte string gives the bytes back |
| Commitment.CreatedTasksPass | planrace/taskgen_v2.py:86-169 | Whatever the draws and the fixture factory, a created task passes its audit, also when the fixtures are regenerated from the revealed seed |
| CommitmentMeaning.CreatedIff | planrace/taskgen_v2.py:86-169 | A task is created iff the draws have their sizes, salt and seed differ and the factory answers the seed with 2 to 64 fixtures of different identifiers; its fields decode to the draws, its commitment is the literal digest of the payload |
| CommitmentMeaning.NotCreatedFor | planrace/taskgen_v2.py:86-169 | Why a task is not created, by its error |
| CommitmentMeaning.AuditPassesIff | planrace/taskgen_v2.py:196-232 | An audit passes iff identifier, fixture count, tree root and commitment agree; with regeneration iff also the factory answers the revealed seed with the revealed fixtures |
| Commitment.PayloadInjective | planrace/taskgen_v2.py:235-272 | The commitment payload determines every public field, the seed, the salt and the root |
| Commitment.CommitmentBinds | planrace/taskgen_v2.py:196-232 | For one commitment at most one public task and one reveal pass the audit |
| Sorting.SortIsNormalForm | planrace/models_v2.py:262-266 | Sorting by a separating key gives equal results iff the inputs are permutations of each other |
| Text.LessEqIff | planrace/models_v2.py:262-266 | The order of sorted texts: equal up to some position, where the first text ends or has the smaller character |
| Indexes.OptimizationStrategyDigest | planrace/models_v2.py:247-273 | The loop that normalises the indexes computes the specified strategy digest |
| Indexes.IndexInjective | planrace/models_v2.py:168-192 | The canonical value of an index specification determines it |
| Indexes.StrategyDigestIff | planrace/models_v2.py:247-273 | Under an ideal hash two bundles share a strategy digest iff engine and ordered indexes agree up to the order of predicate atoms; labels and rationale play no part |
| PartialIndexes.ConjunctionMeans | planrace/models_v2.py:155-159 | The three-valued conjunction is false iff some atom is false and true iff all are true |
| PartialIndexes.SharedDigestSelectsSameRows | planrace/models_v2.py:247-273 | A shared strategy digest means paired indexes agree and their predicates select the same rows under three-valued logic |
| PartialIndexes.ComparisonsMean | planrace/models_v2.py:311-319 | Each operator of the AST has the three-valued meaning of its SQL comparison |
| PartialIndexes.EmittedConditionSelects | planrace/models_v2.py:311-328 | The condition that is read back from the emitted statement selects exactly the rows that the AST predicate selects |
| PartialIndexes.SameRowsOtherDigest | planrace/models_v2.py:247-273 | The converse fails: `flag = true` and `flag = 1` select the same rows but have different digests |
| PartialIndexes.SameStatementsOtherDigestIff | planrace/models_v2.py:247-304 | Bundles whose indexes compile pairwise to equal statements have different strategy digests iff in some predicate a Boolean stands against 0 or 1 and the atoms are no permutation of each other |
| IndexSql.AtomReads | planrace/models_v2.py:311-328 | A compiled atom reads back in front of any continuation, quotes and keywords inside texts included |
| IndexSql.IndexNameIsIdentifier | planrace/models_v2.py:276-282 | The derived index name is a 29-letter identifier |
| IndexSql.CompiledReadsBack | planrace/models_v2.py:285-304 | Parsing the statement under any safe name recovers the whole specification |
| IndexSql.CompileParses | planrace/models_v2.py:285-328 | For every valid specification the parser recovers table, uniqueness, ordered key columns with directions, covering columns and every atom, booleans as 0 and 1 |
| IndexSql.CompileSameIff | planrace/models_v2.py:285-328 | Under one name two valid specifications compile to the same statement iff they agree in everything but Booleans against the integers 0 and 1 |
| Base64.EncodeInjective | planrace/oracle_v2.py:229-232 | Different byte strings have different base64 texts |
| Oracle.ReadRow | planrace/oracle_v2.py:97-114 | The body of the row loop: limits, widths, types and sizes checked in source order |
| Oracle.CanonicalizeResult | planrace/oracle_v2.py:72-147 | The loops compute the specified canonical result or the specified error |
| OracleLaws.AcceptsIff | planrace/oracle_v2.py:72-147 | Accepted iff a column count is known, all rows have it and supported cells, and rows, cells and final bytes are within the policy; the running size check adds nothing |
| OracleLaws.DigestsAgreeIff | planrace/oracle_v2.py:93-147 | Digests of accepted results agree iff column counts agree and the rows agree as sequences (ordered) or multisets (unordered), booleans stored as integers |
| OracleLaws.ExactResultsEqualIff | planrace/oracle_v2.py:150-170 | The comparison answers true iff the two results are equal in that sense |
| OracleMeaning.ResultMeans | planrace/oracle_v2.py:93-147 | Row, column and cell counts of an accepted result, its text with the literal header and one line per row, sorted unless the order counts, and its digest over the literal frame |
| OracleMeaning.OrderedDigestsAgreeIff | planrace/oracle_v2.py:93-147 | Under an ordered policy digests agree iff widths agree and all cells are equal in their places, true being 1 and false 0 |
| OracleMeaning.DigestBindsPolicy | planrace/oracle_v2.py:121-140 | Results under policies of different order or collation have different digests |
| OracleMeaning.CellsExample | planrace/oracle_v2.py:206-233 | The encoding of a cell of every kind |
| OracleMeaning.ColumnsRefusedIff | planrace/oracle_v2.py:85-91 | A column count from outside is refused iff it is negative, above the cell limit, or disagrees with the cursor |
| Replay.MemoryAdmitsOnce | planrace/auth_v2.py:47-58 | Over any sequence of calls the memory store admits a key at most once |
| Replay.StepKeepsLive | planrace/auth_v2.py:94-118 | One call evicts no live entry, refuses a live key, and keeps a store within its limit there |
| Replay.StepAdmitsIff | planrace/auth_v2.py:94-118 | A key is admitted iff fewer than the limit of the entries are live and it is not among them; the table then holds the live entries and what was admitted |
| Replay.WithinLimit | planrace/auth_v2.py:94-118 | Over any sequence of calls the store never exceeds its limit if it started within it |
| Replay.ReadmittedOnlyAfterExpiry | planrace/auth_v2.py:94-118 | A key is admitted again only if an intervening or the current call sampled a clock at or past its stored expiry |
| Replay.SecondAdmissionIff | planrace/auth_v2.py:94-118 | Presented again right after its admission, a key is admitted iff the clock has reached the stored expiry |
| Replay.NonceStepRefines | planrace/nonce.py:45-63 | The nonce store is the expiring table with expiry one past nonce plus ttl |
| Replay.NonceAdmitsIff | planrace/nonce.py:45-63 | A nonce is admitted iff fewer than the limit of the stored ones are at most ttl older than the clock and it is not among them |
| Replay.NonceReadmittedOnlyAfterTtl | planrace/nonce.py:45-63 | A nonce is admitted again only if an intervening or the current call sampled a clock strictly past nonce plus ttl |
| Replay.NonceStoreKeepsFresh | planrace/nonce.py:45-63 | The nonce store stays within its limit and never evicts a fresh nonce |
| Replay.MemoryResponseReplayStore.CheckAndStore | planrace/auth_v2.py:47-58 | The in-memory store object performs exactly the specified step |
| Replay.SqliteResponseReplayStore.CheckAndStore | planrace/auth_v2.py:94-118 | The persistent store object performs exactly purge, count, insert |
| Replay.SqliteNonceStore.CheckAndStore | planrace/nonce.py:45-63 | The nonce store object performs exactly purge, count, insert |
| Responses.VerifySignedResponse | planrace/auth_v2.py:181-239 | The chain of checks, ending in the in-memory replay store, has exactly the specified outcome and store |
| Responses.VerifyAgainstPersistentStore | planrace/auth_v2.py:181-239 | The same chain ending in the persistent store: refused before it leaves the store alone, else outcome and store are those of purge, count, insert |
| Responses.ChecksPassIff | planrace/auth_v2.py:192-228 | The checks pass iff the metagraph names the miner, the response matches the request with intact digests, its times fit, and the signature verifies |
| Responses.RefusalKeepsStore | planrace/auth_v2.py:181-239 | A refused response leaves the in-memory store unchanged; an accepted one passed every check with a fresh key and adds exactly that key |
| Responses.SignedResponsesVerify | planrace/auth_v2.py:138-178 | An honestly signed response passes all checks iff the metagraph names the miner and the clock is within the response's lifetime, skew admitted at its start |
| Responses.SignSucceedsIff | planrace/auth_v2.py:138-178 | A response is signed iff the signer is the miner that was asked, task and engine are those of the request, the non-empty lifetime lies within the request, and the signer returns 64 bytes |
| Responses.ResponseBindsRequest | planrace/auth_v2.py:181-211 | A response verifies for at most one request, the whole public task included |
| Responses.SignatureCoversResponse | planrace/models_v2.py:493-498 | Two responses have the same signing bytes iff they differ in nothing but the signature |
| Responses.ArtifactDigestBinds | planrace/models_v2.py:242-244 | The artifact digest determines the artifact |
| Responses.SecondPresentationIff | planrace/auth_v2.py:94-118 | Verification admits the expiry instant that the purge already removes: a response that passed once and still passes every check is admitted again iff it is presented exactly at that instant |
| Responses.AdmittedAgainAtExpiry | planrace/auth_v2.py:94-118 | Every honestly signed response, admitted inside its lifetime by an empty persistent store, passes every check and is admitted again at its expiry instant |
| Lifecycle.PhaseAdvances | planrace/taskgen_v2.py:294-378 | Over any run the phase only advances, and submissions never change after it left open |
| Lifecycle.StepKeeps | planrace/taskgen_v2.py:312-378 | No step skips a phase |
| Lifecycle.SealsAgree | planrace/taskgen_v2.py:356-378 | After a seal nothing is accepted, and every later seal and bundle list agrees with the first |
| Lifecycle.SecretOnlyAfterSeal | planrace/taskgen_v2.py:365-372 | The secret is returned only at or after the deadline and after a seal at or after the deadline, with no accepted submission from that seal on |
| Lifecycle.StoredWereVerified | planrace/taskgen_v2.py:312-353 | Every stored response was submitted before the deadline for this very task and passed every check at that moment |
| Lifecycle.RunsStayConsistent | planrace/taskgen_v2.py:312-353 | Request identifiers of submissions stay unique and each stored response has its key in the replay store |
| Lifecycle.RefusalChangesNothing | planrace/taskgen_v2.py:312-353 | With the in-memory store a refused event changes neither lifecycle nor replay store |
| LifecycleMeaning.SubmitAcceptedIff | planrace/taskgen_v2.py:312-353 | In any world: accepted iff submissions are open, the clock is before the deadline, the request is for this task and the response names it, no stored submission has its request identifier, the checks pass, its key is new and the store not full; then it is appended and its key stored |
| LifecycleMeaning.SubmitRefusedFor | planrace/taskgen_v2.py:312-353 | Any other submission is refused with the error of the first condition it fails |
| LifecycleMeaning.SealSucceedsIff | planrace/taskgen_v2.py:356-363 | A seal succeeds iff the deadline has come and the secret is not out |
| LifecycleMeaning.RevealSucceedsIff | planrace/taskgen_v2.py:365-372 | A reveal succeeds iff the deadline has come and submissions are closed |
| LifecycleMeaning.AcceptedInRunIff | planrace/taskgen_v2.py:312-353 | The same over any run, in terms of its earlier events alone: no seal, no accepted response to the same request, no use of the key |
| LifecycleMeaning.HonestAllStored | planrace/taskgen_v2.py:312-353 | Any number of proper responses to requests with different identifiers are all accepted and stored in order, while the store has room |
| Lifecycle.TaskLifecycle.SubmitVerified | planrace/taskgen_v2.py:312-353 | The object's submission performs exactly the state machine's step on lifecycle and store |
| Lifecycle.TaskLifecycle.SealSubmissions | planrace/taskgen_v2.py:356-363 | The object's seal performs exactly the state machine's step |
| Lifecycle.TaskLifecycle.RevealSecret | planrace/taskgen_v2.py:365-372 | The object's reveal performs exactly the state machine's step |
| Lifecycle.TaskLifecycle.ListBundles | planrace/taskgen_v2.py:374-378 | The object lists the accepted artifacts, once submissions are closed |
| Clipping.SearchFinds | planrace/testnet_weights.py:244-258 | When the search is reached a non-empty prefix of the sorted shares passes, the cutoff denominator is positive and the cutoff lies below the first share that fails |
| Clipping.Cumulate | planrace/testnet_weights.py:245-249 | The running-sum loop yields the prefix sums |
| Clipping.CountBelowCutoff | planrace/testnet_weights.py:251-255 | The comprehension counts exactly the passing shares |
| Clipping.ClipWeights | planrace/testnet_weights.py:228-262 | The whole clipping step equals its specification, errors and early returns included |
| ClippingLaws.CutoffIdentity | planrace/testnet_weights.py:256-259 | The cutoff is the limit's part of the mass left plus the mass shaved off passing shares, less 1e-7 |
| ClippingMeaning.ClipMeans | planrace/testnet_weights.py:228-262 | With neither sorting nor prefix sums: which inputs are refused, and the three regimes: the shares themselves, equal shares, or the shares capped at a cutoff that solves its literal equation over what they sum to |
| ClippingLaws.LimitMetIff | planrace/testnet_weights.py:228-262 | Over every branch: the result respects the limit iff an early return could meet it, or the cutoff is negative, or the limit's part of the mass shaved off passing shares is at most 1e-7 |
| ClippingLaws.CutoffAbovePassingShares | planrace/testnet_weights.py:256-262 | Whenever the cutoff is at least the last passing share, every clipped share is within the limit |
| ClippingLaws.LimitExceeded | planrace/testnet_weights.py:228-262 | Concrete shares 0.19999996 and 0.80000004 under the limit 52428/65535 exceed it after clipping |
| ClippingLaws.NonPositiveCutoff | planrace/testnet_weights.py:256-262 | A zero cutoff divides by zero; a negative one spreads the weight evenly over all entries |
| ClippingLaws.DivisionByZeroIff | planrace/testnet_weights.py:244-262 | For non-negative weights the call divides by zero iff the search is reached and the limit's part of the passing mass is exactly 1e-7; when it is less, every entry gets the same share |
| ClippingLaws.DustyDividesByZero | planrace/testnet_weights.py:228-262 | Concrete weights at which the call divides by zero: one entry of 65535/65536 of 2e-7, the other the rest, raw limit 32768 |
| ClippingLaws.ConformedSumsToOne | planrace/testnet_weights.py:228-262 | Whatever the signs of the weights, a returned vector has their length and sum 1 |
| ClippingLaws.LoneWeightFlattened | planrace/testnet_weights.py:228-262 | Concrete weights 0, 0, 1 with a limit just above one half come out as three thirds |
| ClippingLaws.ClippingKeepsOrder | planrace/testnet_weights.py:256-262 | Clipping at a positive cutoff keeps the order of the weights |
| ClippingLaws.ClippingDistributes | planrace/testnet_weights.py:228-262 | For every non-negative vector with positive total and legal limit the result is a distribution over the same entries, unless the cutoff is exactly zero |
| Quantization.QuantizationBound | planrace/testnet_weights.py:265-277 | The largest 16-bit value is exactly 65535, quantisation is monotone, and each readback weight is within (n+1)/(2*65535) of its share |
| Quantization.ValuesAreNearest | planrace/testnet_weights.py:271-272 | Every value is the integer nearest to the share over the top share times 65535, the even one of two |
| Quantization.SubmissionFaithful | planrace/testnet_weights.py:265-277 | Whenever clipping succeeds exactly the positive positions are submitted, readback weights sum to 1, and the all-zero error is unreachable |
| Quantization.CapGateIff | planrace/testnet_weights.py:477-482 | The integer cap check holds iff every readback weight is within the limit, with no rounding in between |
| Quantization.QuantizedGateIff | planrace/testnet_weights.py:613-617 | For quantised shares the gate holds iff 65535 squared is at most the raw limit times the rounded sum |
| Quantization.MarginPassesGate | planrace/testnet_weights.py:265-277 | Shares that stay below the limit by (n+1)/(2*65535) pass the gate after quantisation |
| Quantization.LimitMetGateFails | planrace/testnet_weights.py:613-617 | Concrete weights 21846, 21846, 21843 under raw limit 21846 meet the limit, are not clipped, and are refused by the gate after rounding |
| Quantization.SubmitWeights | planrace/testnet_weights.py:265-277 | The function equals its specification |
| Cohort.GroupByStrategy | planrace/evaluation_v2.py:388-395 | The first loop groups submissions by strategy digest or reports the first misdirected bundle |
| Cohort.CreditMembers | planrace/evaluation_v2.py:415-431 | The inner loop gives every member of a strategy group the observation of the one evaluation |
| Cohort.EvaluateTaskCohort | planrace/evaluation_v2.py:360-441 | For any evaluator: the specified refusals, a foreign evaluation label included; else one observation per miner in miner order, credited from the one evaluation of its strategy; evaluations plus cache hits equal submissions |
| CohortMeaning.ObservationsMean | planrace/evaluation_v2.py:397-441 | Field by field: every miner has one observation, in miner order, that credits it from the evaluation of whoever comes first in miner order with its strategy |
| CohortMeaning.CohortOnSchedule | planrace/evaluation_v2.py:415-431 | On a schedule that has the task every observation of the cohort matches |
| CohortMeaning.RefusalMeans | planrace/evaluation_v2.py:379-412 | The call is refused iff something stands against evaluating the cohort, and the error names the first such thing |
| Cohort.CohortPassesDeduplication | planrace/evaluation_v2.py:413-441 | Whatever the evaluations, observations credited from one cache pass the deduplicator's consistency checks |
| Cohort.CohortRewardConserved | planrace/evaluation_v2.py:397-441 | Whatever the evaluations, after deduplication everybody with one passing strategy carries together exactly the reward of its one evaluation |
| CohortEvidence.EvidenceDigestIff | planrace/evaluation_v2.py:444-470 | Evidence digests agree iff the evaluations agree in everything but artifact identifiers; plans and index names are bound |
| CohortEvidence.CohortUpToEvidence | planrace/evaluation_v2.py:397-441 | If the executable strategy determines outcomes up to index names, every cohort observation is what the miner's own evaluation would give in everything but the evidence digest, and in that too iff its used indexes are named like the evaluated bundle's |
| CohortEvidence.CachedEvidenceIff | planrace/evaluation_v2.py:444-470 | The evidence digests of two bundles with one strategy digest agree iff the names of the used indexes do |
| CohortEvidence.PermutedAtomsDiffer | planrace/models_v2.py:276-282 | Two orders of the same atoms share the strategy digest but, when the names differ and a plan uses the index, not the evidence digest |
| CohortEvidence.NameDigestsDiffer | planrace/models_v2.py:276-282 | The two orders have different name digests under any ideal hash |
| CohortEvidence.CacheChangesEvidence | planrace/evaluation_v2.py:444-470 | A concrete setting that meets the premises and in which the two orders get different evidence digests |
| CohortEvidence.CacheMakesChecksPass | planrace/evaluation_v2.py:397-441 | In that setting the deduplicator refuses the two miners evaluated alone and accepts them credited from the cache |

## Left out

- IEEE-754 rounding, infinities and NaN in scores: reals are exact, so the `isfinite` checks have nothing to reject.
- Exact values of log, exp, log2, powers and square roots: function parameters with the laws listed above.
- Real cryptography: SHA-256 and sr25519 are a hash parameter and a signature predicate.
- AllocationLoop.AllocateWeights: does not carry the concentration metrics of a planned result, which are a function of its group weights; `AllocationLaws.AllocationConserves` bounds them. Sorted tuples of pairs are maps.
- NearCopies.NearCopiesCannotHelp: holds exactly only at tolerance 0 and when the groups times the cap are at least 1; otherwise up to the stated slack, because a share may stay above the cap by the tolerance and the residue goes to one group.
- Lifecycle.TaskLifecycle.SubmitVerified: verifies against the in-memory replay store; with the persistent one the verification step is `Responses.VerifyAgainstPersistentStore`, outside the lifecycle.
- Responses.VerifySignedResponse: is the in-memory half of the verification; `Responses.VerifyAgainstPersistentStore` is the other.
- Cohort.EvaluateTaskCohort: takes the evaluation of one bundle as given; the sandbox behind it, and timings that differ between two evaluations of one bundle, are not modelled.
- CohortEvidence.CohortUpToEvidence: compares with evaluations that are determined up to index names, so without measurement noise, and takes plan details uncut, where the source cuts them at 512 characters. The fields of a sandbox result that hold neither plan nor names are one value.
- CopyNeutrality.SharedPoolIsFixed: covers holders that share everything; strategies shared in part are not modelled.
- Oracle.CanonicalizeResult: does not model decimal cells, whose normal form depends on a context precision, and takes floats as their exact text and rows as sequences of cells.
- Commitment.CreatedTasksPass: takes the three entropy draws and the fixture factory as given values and models only the refusals of the function itself and the limit of 64 fixtures.
- Regular expressions and length limits of wire fields, except where a proof needs them (identifiers, index shape, number of fixtures, request and response lifetimes).
- UTF-8 order is taken to be code-point order when texts are sorted.
- Locks and SQLite connections: a method is one atomic call, and its clock value is a parameter.
- The remaining checks of a saved weight plan, the chain clients, HTTP transport, workers, fixture generation, reports and version 1 modules.

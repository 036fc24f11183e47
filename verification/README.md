# OptiPilot decision logic, verified

OptiPilot tunes Kubernetes services: it shares a cluster between tenants, chooses scaling
plans under policy constraints, shifts traffic and hibernates clusters across a fleet, and
gates every actuation behind cooldowns and circuit breakers. This project models that
decision logic in Dafny and proves what it promises, for every input and over every run.

| file | what it models |
|---|---|
| `FairShare.dfy`, `FairShareTheorems.dfy` | the three-phase tenant allocator: guarantee, weighted burst, cap with reclaim and redistribute |
| `Fairness.dfy` | Jain's fairness index |
| `Dominance.dfy`, `Candidates.dfy`, `Scorer.dfy`, `Pareto.dfy`, `PolicyEngine.dfy`, `Solver.dfy` | one optimization cycle: generate, score, constrain, Pareto front, select |
| `PenaltyCycle.dfy` | a whole cycle in which soft penalties hide the best score |
| `TrafficWeights.dfy`, `Traffic.dfy` | integer traffic weights, rate-limited shifting, rollback |
| `LifecycleSolver.dfy`, `Lifecycle.dfy`, `Interleaving.dfy` | which clusters to hibernate or wake, the hibernate/wake state machine over runs, and directives of one cluster that overlap |
| `SafetyGuard.dfy`, `RateLimit.dfy` | cooldown and circuit breaker over runs; merged rate limits down to the Deployment write |
| `Breaker.dfy` | the forecast client's sliding-window breaker |
| `Sums.dfy`, `MapSums.dfy`, `Numbers.dfy`, `Basics.dfy`, `EngineTypes.dfy` | sums, rounding and shared values |

`dafny verify dfyconfig.toml` checks everything.

## How the source is read

- The allocator's theorems hold for any round limit; `ComputeFairShares` uses the source's ten.
- `float64` is `real`: claims are about exact arithmetic. `int32` and `int64` are unbounded
  except where the source converts, which is `ToInt32`, `Round` or `Truncate`.
- Clock readings are integers in nanoseconds and never run backwards. Where one operation
  reads the clock twice it takes two readings.
- API-server calls, SLO readings, tenant checks, drains, scaler calls, `sort.Slice`,
  `rand.Perm` and CEL programs are arbitrary outcomes passed in. A CEL program is a function
  of its expression text and the plan, because it is compiled from that text.
- Go visits maps in no fixed order; loops over maps here pick any remaining key, and results
  that depend on the order (the corrected backend in `clampWeights`) are stated as predicates.
- The hub keeps one directive queue per cluster, so queued directives execute in any order,
  and a lifecycle pass may be solved while directives of earlier passes are still queued.
- What the source updates in place is a class or an array here, and each method is proved
  equal to a function or a ghost history whose properties are then proved as lemmas.

## Findings

Where a natural promise fails, the code is modelled as it is, an input shows the failure, and
the condition under which the promise holds is proved. It is an if-and-only-if unless the
bullet says otherwise.

- `ComputeFairShares` charges a tenant the whole excess over its cap even when its burst is
  already zero, so a cap below the guarantee invents capacity in every round.
  `TrimAccounting` gives the amount exactly and shows a pass conserves capacity if and only if
  every cap covers its guarantee. When only idle tenants are capped, `OvercommitTotal` gives
  the delivered total and `OvercommitExactly` when it fits; `GuaranteeAboveCapOvercommits`
  hands out 200 of 100 cores. When bursting tenants are capped too, one direction is proved:
  an invented amount of at least the tolerance overcommits the cluster (`InventionOvercommits`).
- A capped tenant exceeds its own ceiling exactly when its guarantee does (`TenantBounds`).
- Soft penalties are subtracted after dominance is decided on the four dimensions, so a whole
  cycle can drop the best score (`PenaltyHidesHigherScore`, `RunCycle`), though never by more
  than the largest penalty (`SelectionNearOptimal`). The selection is optimal when penalties
  follow dominance (`SelectionOptimal`). That is a sufficient condition: for one pair of
  candidates it is exact over all aggregates (`PenaltyOrderExactly`), but in a given batch a
  third candidate may make up for the one that was dropped.
- `scoresToWeights` always sums to 100 when the total score is not zero, at the expense of the
  best cluster. At the default shift limit or above, all weights are positive for all scores
  if and only if there are at most fourteen clusters (`AlwaysPositiveExactly`); with n from
  fifteen on some scores leave the best cluster 15 - n (`BestWithoutWeight`), and no scores
  leave it more than 101 - n (`BestPaysForMany`). The same line holds for every limit that is
  at least 8 and an equal share; below that it can fail sooner, at ten clusters and a limit of
  5 (`NarrowLimitBelowZero`). At every limit, for given scores, all weights are positive if and
  only if the other clusters' rounded weights sum to at most 99 (`BestWeightExactly`). The
  all-zero branch sums to 100 exactly when n divides 100.
- `clampWeights` keeps the shift limit for all backends but one. All keep it, whatever the map
  order, if and only if each largest clamped weight has room for the whole correction
  (`LimitKeptExactly`; `ThreeBackendsPastLimit` has none). No weight is negative if and only if
  the clamped weights other than one largest sum to at most 100 (`NonNegativeExactly`;
  `SixBackendsBelowZero` sums to 125).
- A traffic rollback restores the route exactly when every backend has an explicit 32-bit
  weight and equal names carry equal weights (`RollbackRestores`).
- The shifter reads one weight per name, the last one, and compares it with the new weight, so
  a lighter backend of the same name can rise without an SLO reading (`RepeatedBackendRises`).
  At a limit of 1 or more every rise is checked, in every shift `Apply` lets through, if and
  only if no backend is exposed (`NoUncheckedRise`). For read weights in 0..100 that means that
  no repeated backend weighs less than the last one of its name; outside that range fewer are
  exposed, because the correction to 100 keeps some weights out of reach. At a limit of 0 or
  less only one direction is proved (`LeastReadIsChecked`).
- One lifecycle pass can both hibernate and wake, exactly when the idle threshold is above 80
  (`NeverBoth`, `BothAboveEighty`).
- Passes that overlap can take the fleet below the minimum: each spares one cluster, both
  together none (`OverlappingPasses`). A queue keeps the minimum through every execution if and
  only if hibernating all the clusters it names leaves the minimum awake
  (`QueueKeepsMinimumExactly`). A pass solved when no hibernation is queued fits, provided the
  snapshot shows every asleep cluster as hibernating (`PlanFits`); one shown as unreachable
  still counts as active, and the pass can hibernate the last cluster awake
  (`SleepShownUnreachable`).
- A directive accepted while another one of the same cluster is in flight can leave the cluster
  asleep with its nodes running, or awake without nodes, after both have completed. Every
  completion is consistent if and only if there is no such overlap (`OverlapBreaksExactly`,
  `WakeWhileDraining`); a hibernation accepted during a wake-up breaks it as well.
- Service keys join namespace and name with a slash. Two services share a key, and affect each
  other, if and only if one namespace continues the other past a slash into its name
  (`KeysCollideExactly`, `NeverAffectExactly`, `SlashCollides`); slash-free namespaces or
  slash-free names rule it out.
- Rolling back an actuation restores the replica count but not the containers' resource
  requests, so it undoes the change if and only if they already had what the action asked for
  (`ApplyThenRollback`, `RequestsRestoredExactly`).

Where the code and its comments disagree, the code is modelled: plan pruning needs all three
of replicas, cost and spot ratio to be strictly smaller (internal/engine/candidates.go:177-213
says "at least one"), and constraint evaluation goes on after a hard violation
(internal/cel/engine.go:119-176 says it returns on the first).

## Model

| member | source | states |
|---|---|---|
| `FairShare.ComputeFairShares` | internal/tenant/fairshare.go:29-152 | The in-place algorithm over the share array delivers exactly the specified allocation, nothing for an empty input or no cores |
| `FairShare.GuaranteePhase` | internal/tenant/fairshare.go:36-50 | Every share starts at its guarantee and the remainder is what guarantees leave, never negative |
| `FairShare.BurstPhase` | internal/tenant/fairshare.go:52-68 | The remainder is split over burstable tenants by weight |
| `FairShare.TrimToCaps` | internal/tenant/fairshare.go:79-93 | One cap pass trims every share in place and reports the summed excess |
| `FairShare.Redistribute` | internal/tenant/fairshare.go:99-129 | Reclaimed cores go to the tenants still open, by weight, and to nobody else |
| `FairShare.FinalPass` | internal/tenant/fairshare.go:132-149 | The last pass sets burst, ceiling and total of every share |
| `FairShareTheorems.WeightedMaxMinFairness` | internal/tenant/fairshare.go:52-149 | No burstable tenant gets more per weight than one below its cap, and two below their caps get the same per weight |
| `FairShareTheorems.WaterLevel` | internal/tenant/fairshare.go:74-130 | One level explains all bursts: level times weight, or less at a cap |
| `FairShareTheorems.TenantBounds` | internal/tenant/fairshare.go:36-149 | Name, guarantee and ceiling of every share in numbers; at least the guarantee; exactly it when not burstable; at most the ceiling if and only if the ceiling covers the guarantee |
| `FairShareTheorems.Conservation` | internal/tenant/fairshare.go:36-149 | With caps covering guarantees, totals fit the cluster if and only if guarantees sum to at most 100% |
| `FairShareTheorems.CeilingsRespected` | internal/tenant/fairshare.go:132-149 | Under the same conditions every tenant respects its ceiling, uncapped ones the cluster size |
| `FairShareTheorems.TrimAccounting` | internal/tenant/fairshare.go:79-93 | Exact accounting of a cap pass, conserving if and only if caps cover guarantees |
| `FairShareTheorems.RoundSaturatesOneMore` | internal/tenant/fairshare.go:74-130 | A round that reclaims saturates one more tenant and keeps the saturated ones |
| `FairShareTheorems.HandedExactly` | internal/tenant/fairshare.go:99-129 | Reclaimed cores go exactly to the tenants that may burst and are not within 0.001 of a cap, by weight |
| `FairShareTheorems.RoundsUseEverything` | internal/tenant/fairshare.go:74-149 | As many rounds as unsaturated capped tenants lose less than the tolerance |
| `FairShareTheorems.WorkConservation` | internal/tenant/fairshare.go:74-149 | With an uncapped burstable tenant and at most as many capped ones as rounds (ten), totals lie within 0.001 below the cluster size |
| `FairShareTheorems.SpentOrCapped` | internal/tenant/fairshare.go:74-149 | For any tenants, capped or not and however many: totals above the cluster size less 0.001, or every tenant that may burst at its cap, or as many tenants brought to their caps as there are rounds |
| `FairShareTheorems.NothingIdle` | internal/tenant/fairshare.go:74-149 | With at most as many capped burstable tenants as rounds, and no uncapped one needed: less than 0.001 cores unused unless every tenant that may burst is at its cap |
| `FairShareTheorems.RoundsSpendOrSettle` | internal/tenant/fairshare.go:74-130 | The same about the bursts after any number of rounds |
| `FairShareTheorems.OvercommitTotal` | internal/tenant/fairshare.go:83-90 | Exact total when non-burstable caps undercut guarantees: the invented cores once per round |
| `FairShareTheorems.OvercommitExactly` | internal/tenant/fairshare.go:83-90 | In that case the total fits the cluster if and only if guarantees fit and nothing above the tolerance is invented |
| `FairShareTheorems.InventionOvercommits` | internal/tenant/fairshare.go:74-149 | With any tenants capped, fewer capped burstable ones than rounds and an uncapped one, an invented amount of at least the tolerance overcommits the cluster |
| `FairShareTheorems.InventingRound` | internal/tenant/fairshare.go:79-129 | A round hands out the invented cores on top of the bursts and creates less new excess than it hands out |
| `FairShareTheorems.GuaranteeAboveCapOvercommits` | internal/tenant/fairshare.go:83-90 | A concrete pair of tenants receives 200 of 100 cores |
| `Fairness.ComputeFairness` | internal/tenant/fairness.go:63-103 | The result is Jain's index of the counted ratios, nothing when none is counted, and each tenant's last ratio |
| `Fairness.JainBounds` | internal/tenant/fairness.go:81-97 | The index times n times the sum of squares is the square of the sum; it lies between 0 and 1 for any ratios, the clamp changes nothing, and it is 1 exactly when all ratios are equal |
| `Fairness.JainLowerBound` | internal/tenant/fairness.go:48-50 | At least 1/n for non-negative ratios, exactly 1/n when one tenant uses everything |
| `Fairness.JainScaleFree` | internal/tenant/fairness.go:88-94 | Unchanged by a common positive factor |
| `Fairness.TenantFairnessIndex` | internal/tenant/fairness.go:63-103 | The same bounds and scale freedom stated on tenants' usage |
| `Fairness.FairExactlyWhenProportional` | internal/tenant/fairness.go:63-97 | The index is 1 exactly when all counted tenants use the same part of their guarantees |
| `Fairness.GapIsCauchySchwarz` | internal/tenant/fairness.go:81-94 | n times the sum of squares minus the square of the sum is a sum of squared differences |
| `Dominance.KeepUndominated` | internal/engine/pareto.go:12-44 | Marking that skips marked elements returns exactly the undominated inputs, in order |
| `Dominance.MaximalDominator` | internal/engine/pareto.go:20-35 | Every dominated element is dominated by an undominated one |
| `Dominance.UndominatedExactly` | internal/engine/pareto.go:9-44 | Kept if and only if no input dominates it; every dropped one is dominated by a kept one; non-empty stays non-empty |
| `Dominance.UndominatedInOrder` | internal/engine/pareto.go:37-43 | The kept elements are those at the undominated positions, each once and in order |
| `Candidates.CartesianProduct` | internal/engine/candidates.go:57-104 | Exactly one plan per distinct variant, in the order of the loops, at most 80 |
| `Candidates.MoreSpotNeverCostsMore` | internal/engine/candidates.go:136-168 | For the same replicas and resources, a higher spot ratio never costs more |
| `Candidates.PlanFields` | internal/engine/candidates.go:61-91 | A plan has the replicas, resources and spot ratio asked for, and the spot pods nearest to its ratio |
| `Candidates.PlanCost` | internal/engine/candidates.go:136-175 | Cost of the pods on the first instance type, spot at three tenths, and carbon from cost, region and 1.2 |
| `Candidates.ShareIsLarger` | internal/engine/candidates.go:146-168 | A pod is charged the larger of its shares of the instance's cores and memory |
| `Candidates.ReplicasTried` | internal/engine/candidates.go:57-66 | The replica counts tried are the multiples nearest to the current count, at least one |
| `Candidates.ResourcesTried` | internal/engine/candidates.go:41-55 | The resources tried are the current ones and the right-sized ones when both are known |
| `Candidates.VariantsCombine` | internal/engine/candidates.go:57-101 | Every combination of those with a spot ratio is a variant and nothing else is |
| `Candidates.PruneDominated` | internal/engine/candidates.go:180-205 | Pruning keeps exactly the plans no plan dominates |
| `Candidates.PrunedInNumbers` | internal/engine/candidates.go:207-213 | A variant is pruned exactly when another has fewer replicas, a lower cost and a lower spot ratio |
| `Candidates.SampleUniform` | internal/engine/candidates.go:216-230 | A prefix of the permutation, or everything when the cap is not binding |
| `Candidates.GenerateCandidates` | internal/engine/candidates.go:31-115 | All undominated variants in loop order while their number is within the cap, which it is from 80 on; otherwise the cap's first entries of the permutation; never empty, never repeated |
| `Candidates.PrunedIsComplete` | internal/engine/candidates.go:103-115 | The pruned list is exactly the undominated variants, between 1 and 80 of them, so a cap of 80 or more never binds |
| `Candidates.SpotFreeSurvives` | internal/engine/candidates.go:211-213 | Spot-free variants are never pruned |
| `Candidates.CandidateShape` | internal/engine/candidates.go:61-91 | Between one and twice the current replicas; spot and on-demand counts are non-negative and add up |
| `Candidates.PreWarmingCandidates` | internal/engine/candidates.go:259-294 | Exactly one plan per multiplier that raises the count, in order, all with more replicas than now at the current spot ratio |
| `Candidates.SpotReductionCandidates` | internal/engine/candidates.go:299-333 | Exactly one plan per ratio below the current one, in order, all at the current replica count |
| `Candidates.InjectionTriggers` | internal/engine/solver.go:44-51 | More replicas above a forecast change of 15%, less spot above a risk of 0.6 |
| `Candidates.WarmedNearest` | internal/engine/candidates.go:271-275 | A pre-warming count is the nearest to its multiple, used from half a replica of increase on |
| `Candidates.WarmedExactly` | internal/engine/candidates.go:271-292 | A multiplier yields a plan exactly when its count is an increase, and for that count |
| `Candidates.OfferedExactly` | internal/engine/solver.go:37-51 | What reaches scoring is the undominated variants and the injected plans, all of the latter; every plan has between one and twice the current replicas |
| `Scorer.ScoreAll` | internal/engine/scorer.go:23-71 | Every candidate gets its four dimensions, normalised over the batch, and its aggregate |
| `Scorer.ComputeWeighted` | internal/engine/scorer.go:198-219 | The loops compute the normalised weighted sum, or the mean without objectives |
| `Scorer.DimensionsInUnit` | internal/engine/scorer.go:74-191 | All four dimensions lie in [0, 1] |
| `Scorer.WeightedInUnit` | internal/engine/scorer.go:193-219 | With non-negative weights the aggregate lies in [0, 1] |
| `Scorer.WeightedMonotone` | internal/engine/scorer.go:193-219 | Better on every dimension is never worse in aggregate |
| `Scorer.MoreReplicasNoWorseSLO` | internal/engine/scorer.go:74-129 | More replicas never lower the SLO score, compliant or degraded |
| `Scorer.DegradedPrefersMore` | internal/engine/scorer.go:98-129 | While degraded, up beats stay beats down |
| `Scorer.CapacityLevels` | internal/engine/scorer.go:74-96 | Compliant or without a signal: planned cores against demand, exactly in four levels at 120%, 100% and 80% |
| `Scorer.DegradedLevels` | internal/engine/scorer.go:98-129 | Degraded: the score for fewer, as many and more replicas, with the burn-rate bonus |
| `Scorer.DemandExactly` | internal/engine/scorer.go:145-161 | Demand is CPU usage changed by the forecast percentage, or a twentieth of the reserved cores |
| `Scorer.FairnessLevels` | internal/engine/scorer.go:174-191 | Three levels of fairness at the guarantee and at the ceiling of the projected cores |
| `Scorer.MoreCoresNoFairer` | internal/engine/scorer.go:174-191 | More cores are never fairer |
| `Scorer.CostAndCarbonLinear` | internal/engine/scorer.go:23-71 | Cost and carbon fall linearly from 1 at the batch minimum to 0 at its maximum |
| `Scorer.ExtremesAttained` | internal/engine/scorer.go:28-50 | The minimum is one of the values; the maximum too, unless none is positive |
| `Scorer.ObjectiveWeighs` | internal/engine/scorer.go:198-236 | Which dimension each objective name weighs |
| `Scorer.AggregateIsMean` | internal/engine/scorer.go:193-219 | The aggregate is the weighted mean of the objectives' dimensions, or the plain mean |
| `Pareto.FindParetoFront` | internal/engine/pareto.go:12-44 | The front is exactly the undominated candidates in input order; on it is whatever nothing at least as good on slo, cost, carbon and fairness betters |
| `Pareto.SelectBest` | internal/engine/pareto.go:59-80 | The first candidate that no front member is preferred to, by score and then by disruption |
| `Pareto.BeatsIsStrictOrder` | internal/engine/pareto.go:48-54 | Score dominance is irreflexive and transitive |
| `Pareto.DominatesExactly` | internal/engine/pareto.go:48-54 | Dominance in the four scores: at least as good on each and better on some |
| `Pareto.DisruptionAdds` | internal/engine/pareto.go:82-90 | The differences in replicas, CPU and spot ratio count alike, each by its square |
| `PolicyEngine.Evaluate` | internal/cel/engine.go:122-176 | Violations in order, passed exactly when no hard constraint fails, penalties only for soft ones that evaluate |
| `PolicyEngine.ApplyConstraints` | internal/engine/solver.go:115-186 | Every scored candidate is constrained in place; an uncompiled policy changes nothing |
| `PolicyEngine.RecordsAccountForAll` | internal/engine/solver.go:144-172 | The records of a policy are its constraints, each once with its true outcome, shared expressions included |
| `PolicyEngine.AccountExactly` | internal/cel/engine.go:136-173 | The account has one entry per constraint, passed exactly when it evaluates to true |
| `PolicyEngine.ConstrainedExactly` | internal/engine/solver.go:71-80 | After all policies: full account, viable if and only if no hard record failed and the plan is admissible |
| `PolicyEngine.AdmissibleExactly` | internal/cel/engine.go:136-173 | Admissible is: every hard constraint of every compiled policy evaluates to true |
| `PolicyEngine.PenaltyPerFailure` | internal/cel/engine.go:155-173 | A policy costs 0.1 for each soft constraint that evaluates, but not to true |
| `PolicyEngine.NoPenaltyExactly` | internal/cel/engine.go:146-173 | A plan is free of penalties exactly when no soft constraint fails by evaluating |
| `PolicyEngine.PenalizedExactly` | internal/engine/solver.go:178-184 | Clipping at zero after every policy equals subtracting the total penalty and clipping once |
| `PolicyEngine.PenaltyOrderExactly` | internal/engine/solver.go:178-184 | Penalties keep the order of two candidates for all aggregates if and only if the better one is penalised no more or the other one is left with nothing |
| `Solver.Solve` | internal/engine/solver.go:33-112 | A cycle scores exactly the offered plans in order, evaluates every candidate and resolves the action from the front; the action is a dry run exactly when a matched policy is, carries the selected plan field by field or echoes the current state, and keeps its target in range |
| `Solver.ActionFields` | internal/engine/solver.go:80-112 | The dry-run flag and every field of the action, in both branches |
| `Numbers.Int32Wraps` | internal/engine/solver.go:203-225 | A 32-bit conversion keeps a number up to a multiple of 2^32 |
| `Solver.ObjectivesAppend` | internal/engine/solver.go:188-200 | Objectives are collected from all policies in order |
| `Solver.FilterViable` | internal/engine/solver.go:313-322 | Exactly the viable candidates in order |
| `Solver.ViableAppend` | internal/engine/solver.go:313-322 | The viable candidates keep order and repetitions |
| `Solver.RecordsSound` | internal/engine/solver.go:68-80 | Per candidate: complete records, and viable exactly when every hard constraint passes |
| `Solver.ActionSound` | internal/engine/solver.go:80-112 | The action comes from an admissible plan, or is no action echoing the current state when there is none; its type agrees with its target |
| `Solver.TargetInRange` | internal/engine/solver.go:97-104 | With a viable plan the target is between one and twice the current replicas, in 32 bits, and the type agrees with it |
| `Solver.SelectionNearOptimal` | internal/engine/solver.go:98-103 | No viable candidate beats the selection by more than the largest penalty; score in [0, 1]; least disruption among ties |
| `Solver.SelectionOptimal` | internal/engine/solver.go:98-103 | With non-negative weights and penalties that follow dominance, the selection has the highest score among all viable candidates |
| `Solver.NoSoftFailureFollows` | internal/engine/solver.go:178-184 | No failing soft constraint is the plain case of that condition |
| `PenaltyCycle.PenaltyHidesHigherScore` | internal/engine/solver.go:33-112 | Any cycle on a concrete input with one soft constraint selects a plan that some viable candidate outscores |
| `PenaltyCycle.RunCycle` | internal/engine/solver.go:33-112 | `Solve` on that input returns a viable candidate above the selected score |
| `TrafficWeights.ScoresToWeights` | internal/global/solver.go:272-340 | Equal weights for a zero total, else weights that sum to 100 and are each cluster's own except the best one's |
| `TrafficWeights.WeightsMonotone` | internal/global/solver.go:300-323 | At least 1, and monotone in score |
| `TrafficWeights.WeightInNumbers` | internal/global/solver.go:293-323 | A weight is the proportional part of 100, kept within the limit around an equal share, rounded, at least 1 |
| `TrafficWeights.TwoClusters` | internal/global/solver.go:293-337 | Both weights in 1..99, summing to 100, at most the shift limit away from 50 |
| `TrafficWeights.BestWeightExactly` | internal/global/solver.go:310-337 | At every limit the best cluster gets what the others' rounded weights leave of 100, and all weights are positive if and only if those sum to at most 99 |
| `TrafficWeights.BestPaysForMany` | internal/global/solver.go:326-337 | The best cluster gets at most 101 - n, whatever the scores |
| `TrafficWeights.AlwaysPositiveExactly` | internal/global/solver.go:293-337 | At the default limit or above, and at any wide limit, all weights are positive for all scores if and only if there are at most fourteen clusters |
| `TrafficWeights.AllPositiveUpToFourteen` | internal/global/solver.go:293-337 | Up to fourteen clusters at a wide limit, and up to three at any limit, every weight is at least 1 |
| `TrafficWeights.BestWithoutWeight` | internal/global/solver.go:326-337 | For every n from fifteen on, scores that leave the best cluster 15 - n |
| `TrafficWeights.NarrowLimitBelowZero` | internal/global/solver.go:295-337 | Ten clusters at a limit of 5 that leave the best one -1 |
| `TrafficWeights.EqualWeightsSum` | internal/global/solver.go:283-291 | The all-zero branch sums to 100 if and only if n divides 100 |
| `LifecycleSolver.SolveLifecycle` | internal/global/solver.go:346-445 | Hibernations of the chosen clusters, then a wake-up of the first hibernating one exactly when all others are heavy |
| `LifecycleSolver.ExactHibernationChoice` | internal/global/solver.go:352-411 | Size, eligibility and lowest utilization of the hibernated set |
| `LifecycleSolver.HibernatedInNumbers` | internal/global/solver.go:384-411 | Whatever is hibernated is reachable, not excluded, and uses less than the threshold of its own cores |
| `LifecycleSolver.IdleInNumbers` | internal/global/solver.go:384-401 | The idle clusters on the snapshot's own numbers |
| `LifecycleSolver.ChosenCount` | internal/global/solver.go:352-411 | As many as are idle, up to the surplus over the configured minimum |
| `LifecycleSolver.ActiveCountExactly` | internal/global/solver.go:367-373 | Active is anything not shown as hibernating |
| `LifecycleSolver.WakesInNumbers` | internal/global/solver.go:413-442 | A cluster is woken exactly when one hibernates and all others use at least 80% of their cores |
| `LifecycleSolver.UtilizationOrder` | internal/global/solver.go:37-43 | Utilization orders clusters by used over total cores |
| `LifecycleSolver.NeverBoth` | internal/global/solver.go:384-442 | With a threshold up to 80 no pass both hibernates and wakes |
| `LifecycleSolver.BothAboveEighty` | internal/global/solver.go:384-442 | For every threshold above 80 some pass does both |
| `Lifecycle.LifecycleManager.ExecuteDirective` | internal/global/lifecycle.go:150-159 | A directive has exactly its specified effect and result, and an unsupported one no effect |
| `Lifecycle.LifecycleManager.ExecuteHibernate` | internal/global/lifecycle.go:161-208 | Asleep only after every guard and the scaler succeed, active again after any failure; done, refused and failed as specified |
| `Lifecycle.LifecycleManager.ExecuteWakeUp` | internal/global/lifecycle.go:210-234 | Active after a successful scale-up, asleep after a failed one, which is what it reports; idle record cleared on waking |
| `Lifecycle.ResultTells` | internal/global/lifecycle.go:150-234 | A directive reports done exactly when its cluster is then in the state it asked for, and when it refuses |
| `Lifecycle.LifecycleManager.UpdateIdleStatus` | internal/global/lifecycle.go:249-285 | Ready exactly when every heartbeat over at least the idle window was below the threshold, both as the policy gives them or by default |
| `Lifecycle.StepKeepsSettled` | internal/global/lifecycle.go:150-240 | Every step keeps each cluster active or asleep, asleep exactly after a last scale-to-zero, and the management cluster awake |
| `Lifecycle.StepKeepsSpared` | internal/global/lifecycle.go:150-240 | A step that fits the queue cannot take the fleet below the minimum, whichever directive executes next |
| `Lifecycle.PlanFits` | internal/global/solver.go:367-411 | From a snapshot that shows asleep clusters as hibernating, a pass fits when nothing, or only what it asks for again, is queued for hibernation |
| `Lifecycle.HibernationSafety` | internal/global/lifecycle.go:150-240 | Over any run, overlapping passes and any snapshots included: management cluster never asleep, only active or asleep between directives, asleep exactly after a last scale-to-zero; and the minimum kept once reached when every pass fits the queue |
| `Lifecycle.QueueKeepsMinimumExactly` | internal/global/lifecycle.go:150-208 | Every execution of a queue keeps the minimum if and only if hibernating all the clusters it names does |
| `Lifecycle.WorstExecution` | internal/global/lifecycle.go:161-208 | Some execution of a queue leaves exactly the clusters awake that it does not name |
| `Lifecycle.OverlappingPasses` | internal/global/solver.go:367-411 | Two passes over three idle clusters with a minimum of one, solved before either executes, leave none awake |
| `Lifecycle.SleepShownUnreachable` | internal/global/solver.go:367-411 | A pass over a snapshot that shows an asleep cluster as unreachable hibernates the only cluster awake |
| `Interleaving.OverlapBreaksExactly` | internal/global/lifecycle.go:169-225 | A directive may begin without any completion breaking the cluster if and only if it is not accepted while another one is in flight |
| `Interleaving.SerialRun` | internal/global/lifecycle.go:161-240 | Over any run without overlaps the cluster is consistent whenever nothing is in flight |
| `Interleaving.AloneIsWhole` | internal/global/lifecycle.go:161-240 | Run alone, the steps of a directive have the effect of the whole directive |
| `Interleaving.BrokenCompletion` | internal/global/lifecycle.go:169-225 | After any overlap, of either kind and at any stage, both directives can complete and leave the cluster inconsistent |
| `Interleaving.WakeWhileDraining` | internal/global/lifecycle.go:201-225 | A completed run in which a wake-up during a drain leaves the cluster asleep although it was last scaled up |
| `Traffic.ClampWeights` | internal/global/traffic.go:234-269 | Each weight clamped on its own, then one largest entry corrected so that a positive sum becomes 100 |
| `Traffic.ClampedIsNearest` | internal/global/traffic.go:236-247 | Clamping goes as far towards the desired weight as the limit allows |
| `Traffic.ClampGuarantee` | internal/global/traffic.go:234-269 | Sum 100 if any clamped weight is positive; all backends but one within the limit, all when no correction is needed |
| `Traffic.LimitKeptExactly` | internal/global/traffic.go:255-266 | All backends stay within the limit, whatever the map order, if and only if each largest clamped weight has room for the whole correction |
| `Traffic.NonNegativeExactly` | internal/global/traffic.go:255-266 | No weight is negative if and only if the clamped weights other than one largest sum to at most 100 |
| `Traffic.ThreeBackendsPastLimit` | internal/global/traffic.go:255-266 | A concrete shift that breaks the limit |
| `Traffic.SixBackendsBelowZero` | internal/global/traffic.go:255-266 | A concrete shift that makes a weight negative |
| `Traffic.SplitStaysSplit` | internal/global/traffic.go:234-269 | Two backends stay in range, sum to 100 and move within the limit |
| `Traffic.CyclesReachTarget` | internal/global/traffic.go:234-269 | Repeated cycles reach a two-backend target after ceil(distance / limit) cycles and not before |
| `Traffic.TrafficShifter.ReadCurrentWeights` | internal/global/traffic.go:330-362 | The weights by name, or an error exactly when the route or its backends are missing |
| `Traffic.ReadExactly` | internal/global/traffic.go:352-361 | Read for a name is the 32-bit weight of its last backend, 0 without one |
| `Traffic.ReadBack` | internal/global/traffic.go:330-399 | Written weights are read back, and the others are unchanged |
| `Traffic.TrafficShifter.PatchWeights` | internal/global/traffic.go:364-399 | Succeeds exactly when the route has a rule and the calls do; named backends get the new weights, all else stays, a rule without backends gets an empty list |
| `Traffic.TrafficShifter.Apply` | internal/global/traffic.go:125-175 | Refused shifts change nothing; applied ones write clamped weights whose rises were checked at 90% and remember the old ones |
| `Traffic.RisesCheckedExactly` | internal/global/traffic.go:143-157 | Every rise over the weight read needs a reading of at least 90 |
| `Traffic.ShiftKeysDistinct` | internal/global/traffic.go:322-324 | Applied shifts of different routes are remembered apart |
| `Traffic.TrafficShifter.MonitorAndRollback` | internal/global/traffic.go:179-226 | Rolls back exactly when a shift is on record, not cancelled, and some destination is unhealthy; writes the remembered weights or reports that it could not |
| `Traffic.RollbackRestores` | internal/global/traffic.go:217-223 | Writing back what was read restores the route if and only if it was restorable |
| `Traffic.TrafficShifter.ShiftThenRollback` | internal/global/traffic.go:125-226 | A shift and a failing observation window undo each other exactly on restorable routes |
| `Traffic.NoUncheckedRise` | internal/global/traffic.go:125-157 | At a limit of 1 or more, no weight rises without an SLO reading of 90% or more, in every shift Apply lets through, if and only if no backend is exposed; for read weights in 0..100, if and only if no repeated backend weighs less than the last one of its name |
| `Traffic.LeastReadIsChecked` | internal/global/traffic.go:143-157 | At any limit, every rise was checked when no backend weighs less than what is read for its name |
| `Traffic.RepeatedBackendRises` | internal/global/traffic.go:143-157 | A shift that clamping leaves alone raises a repeated backend from 10 to 20 with no reading |
| `SafetyGuard.SafetyGuard.CheckCooldown` | internal/actuator/safety.go:127-146 | Refuses exactly within the cooldown of the service's last logged actuation |
| `SafetyGuard.SafetyGuard.RecordActuation` | internal/actuator/safety.go:150-156 | Logs the actuation and keeps the maps a summary of the log and the log in order |
| `SafetyGuard.SafetyGuard.CheckCircuit` | internal/actuator/safety.go:163-181 | Refuses exactly with three strikes since the last reset and the latest under 15 minutes ago; resets after the pause |
| `SafetyGuard.SafetyGuard.RecordOutcome` | internal/actuator/safety.go:185-208 | Logs the outcome and keeps the maps a summary of the log |
| `SafetyGuard.SafetyGuard.Allow` | internal/actuator/safety.go:232-243 | The first blocking check in order, decided from the log |
| `SafetyGuard.SafetyGuard.Actuate` | internal/controller/optimizer_controller.go:159-208 | One gated step appends exactly its events and keeps every cooldown and the time order |
| `SafetyGuard.StepCounts` | internal/controller/optimizer_controller.go:178-208 | What an applied, a failed and a skipped step leave of strikes and stamps |
| `SafetyGuard.SummaryAfter` | internal/actuator/safety.go:150-208 | The maps stay a summary of the log after every event |
| `SafetyGuard.StrikesExactly` | internal/actuator/safety.go:185-208 | Strikes are the degraded outcomes that no later improvement or reset of the service follows |
| `SafetyGuard.CircuitOpenExactly` | internal/actuator/safety.go:163-181 | Open exactly with three of them standing and the latest under fifteen minutes ago, read off the log |
| `SafetyGuard.CooledDownExactly` | internal/actuator/safety.go:127-146 | Cooled down exactly when all actuations of the service are a cooldown ago, read off the log |
| `SafetyGuard.SafetyGuard.GapBetweenActuations` | internal/actuator/safety.go:125-156 | Over any run, any two actuations of a service are the later one's cooldown apart |
| `SafetyGuard.OrderlyAfter` | internal/actuator/safety.go:125-208 | Every event an admitted call logs keeps the cooldowns and the time order |
| `SafetyGuard.ServicesIndependent` | internal/actuator/safety.go:54-56 | Answers for a service depend on its own events alone |
| `SafetyGuard.KeysCollideExactly` | internal/actuator/safety.go:80-82 | Two services share a key if and only if one namespace continues the other past a slash into its name; slash-free namespaces or names rule it out |
| `SafetyGuard.NeverAffectExactly` | internal/actuator/safety.go:54-56 | What is recorded for one service never changes the answers for another if and only if the two are not confusable |
| `SafetyGuard.SlashCollides` | internal/actuator/safety.go:80-82 | A slash in a namespace can make two services share a key |
| `RateLimit.BuildActuationOptions` | internal/controller/optimizer_controller.go:353-386 | The smallest positive percentage and the longest cooldown among the matched rules |
| `RateLimit.MatchedExactly` | internal/controller/optimizer_controller.go:353-386 | Scale-up rules apply to increases, scale-down rules to decreases, none to anything else |
| `RateLimit.OrderIndependent` | internal/controller/optimizer_controller.go:353-386 | Merged options do not depend on policy order |
| `RateLimit.WrittenWithinRules` | internal/actuator/pod_actuator.go:303-318 | From at least one replica the written count meets every matched rule's percentage, lies between current and floored target, and gets strictly closer |
| `RateLimit.FurthestWithinRules` | internal/actuator/pod_actuator.go:303-318 | No count between the current one and the floored target that all matched rules allow is closer to that target |
| `RateLimit.WrittenIsFurthest` | internal/actuator/pod_actuator.go:303-318 | The write is the furthest within the limit, and the target itself without a limit or from no replicas |
| `RateLimit.RepeatedReaches` | internal/actuator/pod_actuator.go:222-226 | Repeating with a fixed target reaches it and stays |
| `RateLimit.Deployment.ApplyTarget` | internal/actuator/pod_actuator.go:193-256 | Floors, limits and writes the count, sets the containers' requests and remembers the old count; failed reads, dry runs and failed patches change nothing |
| `RateLimit.Deployment.Rollback` | internal/actuator/pod_actuator.go:75-100 | Restores the remembered count; nothing to do without a Deployment or annotation; a failed read, an unreadable annotation or a failed patch is an error that changes nothing |
| `RateLimit.Deployment.ApplyThenRollback` | internal/actuator/pod_actuator.go:75-100 | An applied change followed by a rollback brings the running count back and leaves the new requests |
| `RateLimit.RequestsRestoredExactly` | internal/actuator/pod_actuator.go:234-250 | The requests are as before if and only if the containers already had what the action asked for |
| `Breaker.CircuitBreaker.IsOpen` | internal/forecaster/client.go:94-103 | Open exactly within 30 seconds of a trip not followed by a success |
| `Breaker.CircuitBreaker.RecordError` | internal/forecaster/client.go:105-124 | Trips exactly on the fifth error of the window; otherwise the slice is the window of the full history, ordered and below five long |
| `Breaker.CircuitBreaker.Compact` | internal/forecaster/client.go:110-117 | In-place eviction leaves exactly the recent errors in order |
| `Breaker.CircuitBreaker.RecordSuccess` | internal/forecaster/client.go:126-131 | Clears the window and closes the breaker |
| `Breaker.RecentTwice` | internal/forecaster/client.go:110-118 | Evicting an evicted list is evicting the full one |
| `Breaker.WindowExactly` | internal/forecaster/client.go:110-118 | The window holds exactly the errors since the last reset under a minute old |

## Left out

- 32-bit overflow of summed weights, percentages and replica arithmetic: values this large are outside the CRD ranges.
- Floating-point rounding: two scores or distances that differ in exact arithmetic may tie in float64.
- Solver.Solve: the branch for an empty candidate list is not modelled, because `GenerateCandidates` is proved never to return one.
- Scorer.ScoreAll: the minima start at the first value instead of the largest float64, which no value exceeds.
- PolicyEngine.ApplyConstraints: the branch for a policy that disappears between lookup and evaluation is not modelled; nothing removes compiled policies.
- FairShareTheorems.OvercommitExactly: exact only when the caps below guarantees belong to tenants that do not burst; otherwise `InventionOvercommits` gives one direction, because an invented amount below the tolerance is handed out only in rounds that reclaim something else as well.
- Solver.SelectionOptimal: a sufficient condition; within one batch the selection can also be optimal by luck of a third candidate.
- Traffic.TrafficShifter.Apply: only Gateway API routes; Istio and ExternalDNS have the same read and patch pair. Other backends are unsupported here.
- SafetyGuard.SafetyGuard.Actuate: the gate is present and the actuator's result is arbitrary; the canary controller's watcher goroutines are not modelled.
- RateLimit.Deployment.ApplyTarget: HPA mode is not modelled; the HPA snapshot is written to the HPA while rollback reads the Deployment, so no undo is claimed there.
- Lifecycle.HibernationSafety: the minimum is claimed for runs whose passes fit what is still queued, since it fails otherwise; directives run one at a time.
- Traffic.NoUncheckedRise: at a limit of 0 or less only `LeastReadIsChecked` is claimed; which weights are then in reach depends on which subsets of the read weights sum to 100.
- Interleaving.SerialRun: one cluster at a time, since directives of different clusters share no state.
- CEL parsing and type checking, and the program cache: an expression is an arbitrary function that may fail.
- Reason strings, decision records, UUIDs and the journal: text and I/O.
- Cluster scoring and traffic eligibility (internal/global/solver.go:185-268), allocation status, tuning, storage and forecasting: straight-line arithmetic that would only add easy members.
- HTTP, gRPC, mTLS, metrics, the dashboard and the ML service: plumbing over libraries.

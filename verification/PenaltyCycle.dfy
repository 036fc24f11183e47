/** A whole optimization cycle in which soft penalties hide the best score.

    Penalties are subtracted after scoring but dominance looks at the four dimensions alone
    (internal/engine/solver.go:178-184, internal/engine/pareto.go:48-54). One lightly loaded
    replica, objectives slo and cost, and a soft constraint against spot: the spot plans
    dominate and are penalised; the spot-free plan leaves the front with the higher score. */
module PenaltyCycle {
  import opened Basics
  import opened EngineTypes
  import opened Numbers
  import opened Sums
  import opened Dominance
  import opened Pareto
  import opened PolicyEngine
  import opened Candidates
  import opened Solver
  import Scorer

  const SPOT_RULE := CompiledConstraint("candidate.spot_ratio < 0.3", "spot exposure", false)

  function SpotRuleEngine(): PolicyEngine {
    PolicyEngine(map["policy" := [SPOT_RULE]], (expr, plan: CandidatePlan) => Value(plan.spotRatio < 0.3))
  }

  const POLICY := MatchedPolicy("policy", "policy", false, [PolicyObjective("slo", 0.9), PolicyObjective("cost", 0.1)])

  /** One replica with one core of which a tenth is used; compliant, no tenant, no forecast. */
  function LightLoad(): SolverInput {
    SolverInput(CurrentState(1, 1.0, 1.0, 0.1, 0.0), SLOStatus(true, 0.0, 0.0, 0.0, 0.0, 0.0, 0.0),
                [POLICY], None, None, [], "us-east-1", None, None)
  }

  // ----- the plans on offer -----

  /** Hourly price of the resources of one on-demand pod. */
  const POD_COST := 0.048

  function PodPlan(replicas: int, spot: real): CandidatePlan {
    PlanOf(LightLoad(), Key(replicas, 1.0, 1.0, spot))
  }

  lemma OwnShare()
    ensures ResourceShare(1.0, 1.0, "m5.large") == 0.5
  {
  }

  lemma SpotFreeCost(replicas: int)
    ensures PodPlan(replicas, 0.0).estimatedCost == replicas as real * POD_COST
  {
    OwnShare();
    assert SpotCount(replicas, 0.0) == 0;
  }

  lemma SpotCost()
    ensures PodPlan(1, 0.5).estimatedCost == 0.0144
  {
    OwnShare();
    assert SpotCount(1, 0.5) == 1;
  }

  lemma CarbonFollowsCost(replicas: int, spot: real)
    ensures PodPlan(replicas, spot).estimatedCarbon == PodPlan(replicas, spot).estimatedCost * 380.0 * 1.2
  {
  }

  lemma VariantIsPod(k: Key)
    requires IsVariant(LightLoad(), k)
    ensures k == Key(k.replicas, 1.0, 1.0, k.spot) && k.replicas >= 1 && k.spot in SPOT_RATIOS
  {
    VariantBounds(LightLoad(), k);
    assert ResourceVariants(LightLoad()) == [(1.0, 1.0)];
  }

  lemma PodVariants()
    ensures IsVariant(LightLoad(), Key(1, 1.0, 1.0, 0.0)) && IsVariant(LightLoad(), Key(2, 1.0, 1.0, 0.0))
    ensures IsVariant(LightLoad(), Key(1, 1.0, 1.0, 0.5))
  {
    var input := LightLoad();
    assert ResourceVariants(input) == [(1.0, 1.0)];
    assert ReplicaVariant(input, 3) == 1 && ReplicaVariant(input, 7) == 2;
    assert KeyAt(input, 3, 0, 0) == Key(1, 1.0, 1.0, 0.0);
    assert KeyAt(input, 7, 0, 0) == Key(2, 1.0, 1.0, 0.0);
    assert KeyAt(input, 3, 0, 2) == Key(1, 1.0, 1.0, 0.5);
  }

  /** Nothing has fewer replicas than one, so the spot plan for one is never pruned. */
  lemma SpotPodSurvives()
    ensures IsCandidate(LightLoad(), PodPlan(1, 0.5))
  {
    var input, k := LightLoad(), Key(1, 1.0, 1.0, 0.5);
    PodVariants();
    forall other | IsVariant(input, other)
      ensures !Dominates(PlanOf(input, other), PodPlan(1, 0.5))
    {
      VariantShape(input, other);
    }
    assert IsVariant(input, k) && PodPlan(1, 0.5) == PlanOf(input, k);
  }

  /** The three plans the argument needs are all offered. */
  lemma PodPlansOffered(plans: seq<CandidatePlan>)
    requires Offered(LightLoad(), DEFAULT_MAX_CANDIDATES, plans)
    ensures PodPlan(1, 0.0) in plans && PodPlan(2, 0.0) in plans && PodPlan(1, 0.5) in plans
  {
    PodVariants();
    SpotFreeSurvives(LightLoad(), Key(1, 1.0, 1.0, 0.0));
    SpotFreeSurvives(LightLoad(), Key(2, 1.0, 1.0, 0.0));
    SpotPodSurvives();
    OfferedExactly(LightLoad(), DEFAULT_MAX_CANDIDATES, plans);
  }

  /** And nothing else is: every offered plan is a pod plan. */
  lemma OfferedArePods(plans: seq<CandidatePlan>, i: nat) returns (replicas: int, spot: real)
    requires Offered(LightLoad(), DEFAULT_MAX_CANDIDATES, plans) && i < |plans|
    ensures replicas >= 1 && spot in SPOT_RATIOS && plans[i] == PodPlan(replicas, spot)
  {
    OfferedExactly(LightLoad(), DEFAULT_MAX_CANDIDATES, plans);
    assert plans[i] in plans;
    var k :| IsVariant(LightLoad(), k) && plans[i] == PlanOf(LightLoad(), k);
    VariantIsPod(k);
    replicas, spot := k.replicas, k.spot;
  }

  // ----- their scores -----

  function DimensionsIn(plans: seq<CandidatePlan>, i: nat): CandidateScore
    requires i < |plans|
  {
    Scorer.Dimensions(LightLoad(), plans, plans[i])
  }

  /** Only cost and carbon tell pod plans apart. */
  lemma PodDimensions(plans: seq<CandidatePlan>, replicas: int, spot: real)
    requires plans != [] && replicas >= 1
    ensures var d := Scorer.Dimensions(LightLoad(), plans, PodPlan(replicas, spot)); d.slo == 1.0 && d.fairness == 1.0
  {
    assert Scorer.CurrentDemand(LightLoad()) == 0.1;
    Scorer.CapacityRatioOrder(1, replicas, 1.0, 0.1);
    assert Scorer.CapacityRatio(1, 1.0, 0.1) == 10.0;
  }

  /** A spot pod is cheaper than any number of spot-free ones. */
  lemma SpotIsCheaper(replicas: int)
    requires replicas >= 1
    ensures PodPlan(1, 0.5).estimatedCost < PodPlan(replicas, 0.0).estimatedCost
    ensures PodPlan(1, 0.5).estimatedCarbon < PodPlan(replicas, 0.0).estimatedCarbon
  {
    SpotCost();
    SpotFreeCost(replicas);
    CarbonFollowsCost(1, 0.5);
    CarbonFollowsCost(replicas, 0.0);
  }

  /** A cheaper plan in the batch scores strictly better on cost and carbon. */
  lemma CheaperScoresBetter(plans: seq<CandidatePlan>, i: nat, j: nat)
    requires i < |plans| && j < |plans| && plans[i].estimatedCost < plans[j].estimatedCost
    requires plans[i].estimatedCarbon < plans[j].estimatedCarbon
    ensures var x, y := DimensionsIn(plans, i), DimensionsIn(plans, j);
      x.cost > y.cost && x.carbon > y.carbon && x.cost > 0.0
  {
    var costs, carbons := Scorer.Costs(plans), Scorer.Carbons(plans);
    Scorer.BetweenExtremes(costs, i);
    Scorer.BetweenExtremes(costs, j);
    Scorer.BetweenExtremes(carbons, i);
    Scorer.BetweenExtremes(carbons, j);
    Scorer.NormalizeOrder(costs[i], costs[j], Scorer.MinOf(costs), Scorer.MaxOf(costs));
    Scorer.NormalizeOrder(carbons[i], carbons[j], Scorer.MinOf(carbons), Scorer.MaxOf(carbons));
  }

  /** The spot-free plan for one replica: fully compliant, and not the dearest on offer. */
  lemma PlainPlan(plans: seq<CandidatePlan>) returns (i: nat)
    requires plans != [] && Offered(LightLoad(), DEFAULT_MAX_CANDIDATES, plans)
    ensures i < |plans| && plans[i].spotRatio < 0.3
    ensures var d := Scorer.Dimensions(LightLoad(), plans, plans[i]); d.slo == 1.0 && d.cost > 0.0
  {
    PodPlansOffered(plans);
    i :| 0 <= i < |plans| && plans[i] == PodPlan(1, 0.0);
    var j :| 0 <= j < |plans| && plans[j] == PodPlan(2, 0.0);
    DoubleCostsMore();
    PodDimensions(plans, 1, 0.0);
    CheaperScoresBetter(plans, i, j);
  }

  lemma DoubleCostsMore()
    ensures PodPlan(1, 0.0).estimatedCost < PodPlan(2, 0.0).estimatedCost
    ensures PodPlan(1, 0.0).estimatedCarbon < PodPlan(2, 0.0).estimatedCarbon
  {
    SpotFreeCost(1);
    SpotFreeCost(2);
    CarbonFollowsCost(1, 0.0);
    CarbonFollowsCost(2, 0.0);
  }

  /** A spot plan on offer that dominates a given spot-free one. */
  lemma SpotPlan(plans: seq<CandidatePlan>, k: nat) returns (spot: nat)
    requires Offered(LightLoad(), DEFAULT_MAX_CANDIDATES, plans) && k < |plans| && plans[k].spotRatio < 0.3
    ensures spot < |plans|
    ensures ScoreDominates(DimensionsIn(plans, spot), DimensionsIn(plans, k))
  {
    PodPlansOffered(plans);
    spot :| 0 <= spot < |plans| && plans[spot] == PodPlan(1, 0.5);
    var replicas, ratio := OfferedArePods(plans, k);
    SpotIsCheaper(replicas);
    PodDimensions(plans, 1, 0.5);
    PodDimensions(plans, replicas, 0.0);
    CheaperScoresBetter(plans, spot, k);
  }

  lemma ObjectivesOfCycle()
    ensures CollectObjectives(LightLoad().policies) == POLICY.objectives
    ensures Scorer.NonNegativeWeights(POLICY.objectives)
  {
    assert [POLICY][..0] == [];
    assert CollectObjectives([]) + POLICY.objectives == POLICY.objectives;
  }

  lemma AggregateOfCycle(score: CandidateScore)
    ensures Scorer.Weighted(POLICY.objectives, score) == 0.9 * score.slo + 0.1 * score.cost
  {
    var objectives := POLICY.objectives;
    var ws, terms := Scorer.Weights(objectives), Scorer.WeightedTerms(objectives, score);
    assert ws == [0.9, 0.1];
    SumOfTwo(ws);
    assert Scorer.TotalWeight(objectives) == 1.0;
    assert Scorer.Share(0.9, 1.0) == 0.9 && Scorer.Share(0.1, 1.0) == 0.1;
    assert terms[0] == Product(0.9, score.slo) && terms[1] == Product(0.1, score.cost);
    SumOfTwo(terms);
  }

  lemma PenaltyOfCycle(plan: CandidatePlan)
    ensures TotalPenalty(Some(SpotRuleEngine()), LightLoad().policies, plan) ==
      if plan.spotRatio < 0.3 then 0.0 else 0.1
    ensures Admissible(Some(SpotRuleEngine()), LightLoad().policies, plan)
  {
    var e := SpotRuleEngine();
    assert [POLICY][..0] == [] && [SPOT_RULE][..0] == [];
    assert Penalties(e, [SPOT_RULE], plan) == Penalties(e, [], plan) + Penalty(e, SPOT_RULE, plan);
  }

  // ----- the cycle -----

  /** Any cycle on this input misses the best score: some viable candidate scores more than
      the selected one. */
  lemma PenaltyHidesHigherScore(scored: seq<ScoredCandidate>, front: seq<ScoredCandidate>, action: ScalingAction)
    returns (v: ScoredCandidate)
    requires Decision(Some(SpotRuleEngine()), LightLoad(), scored, front, action)
    requires Offered(LightLoad(), DEFAULT_MAX_CANDIDATES, Plans(scored))
    ensures v in scored && v.viable && v.score.weighted > action.confidence
  {
    var i := PlainScore(scored, front, action);
    v := scored[i];
    SelectedIsSpot(scored, front, action);
  }

  /** The spot-free plan for one replica keeps a score above 0.9. */
  lemma PlainScore(scored: seq<ScoredCandidate>, front: seq<ScoredCandidate>, action: ScalingAction) returns (i: nat)
    requires Decision(Some(SpotRuleEngine()), LightLoad(), scored, front, action)
    requires Offered(LightLoad(), DEFAULT_MAX_CANDIDATES, Plans(scored))
    ensures i < |scored| && scored[i].viable && scored[i].score.weighted > 0.9
  {
    i := PlainPlan(Plans(scored));
    ScoreInCycle(scored, front, action, i);
  }

  /** What the cycle makes of the i-th plan. */
  lemma ScoreInCycle(scored: seq<ScoredCandidate>, front: seq<ScoredCandidate>, action: ScalingAction, i: nat)
    requires Decision(Some(SpotRuleEngine()), LightLoad(), scored, front, action) && i < |scored|
    ensures var d := Scorer.Dimensions(LightLoad(), Plans(scored), scored[i].plan);
      && scored[i].viable && scored[i].score.(weighted := 0.0) == d
      && scored[i].score.weighted == Net(0.9 * d.slo + 0.1 * d.cost,
                                         if scored[i].plan.spotRatio < 0.3 then 0.0 else 0.1)
      && Scorer.UnitScore(d)
  {
    var e, input, plans := Some(SpotRuleEngine()), LightLoad(), Plans(scored);
    ObjectivesOfCycle();
    var unpenalised := Scorer.Scored(input, CollectObjectives(input.policies), plans, plans[i]);
    ConstrainedExactly(e, input.policies, unpenalised);
    Scorer.DimensionsInUnit(input, plans, plans[i]);
    PenaltyOfCycle(plans[i]);
    assert scored[i] in scored;
    NetScore(e, input, scored, front, action, scored[i]);
    AggregateOfCycle(scored[i].score.(weighted := 0.0));
  }

  /** The selected plan uses spot, because a spot plan dominates every spot-free one, and so
      scores at most 0.9. */
  lemma SelectedIsSpot(scored: seq<ScoredCandidate>, front: seq<ScoredCandidate>, action: ScalingAction)
    requires Decision(Some(SpotRuleEngine()), LightLoad(), scored, front, action)
    requires Offered(LightLoad(), DEFAULT_MAX_CANDIDATES, Plans(scored))
    ensures action.confidence <= 0.9
  {
    var k := SelectedUnbeaten(scored, front, action);
    ScoreInCycle(scored, front, action, k);
    if scored[k].plan.spotRatio < 0.3 {
      var spot := SpotFreeBeaten(scored, front, action, k);
    }
  }

  /** The selected candidate is one of the scored ones and no viable one beats it. */
  lemma SelectedUnbeaten(scored: seq<ScoredCandidate>, front: seq<ScoredCandidate>, action: ScalingAction)
    returns (k: nat)
    requires Decision(Some(SpotRuleEngine()), LightLoad(), scored, front, action)
    ensures k < |scored| && action.confidence == scored[k].score.weighted
    ensures forall v :: v in scored && v.viable ==> !Beats(v, scored[k])
  {
    ViableMembers(scored);
    BeatsIsStrictOrder();
    UndominatedExactly(Viable(scored), Beats);
    ScoreInCycle(scored, front, action, 0);
    assert scored[0] in scored && Viable(scored) != [];
    var i :| Selected(LightLoad(), front, action, i);
    assert front[i] in front;
    k :| 0 <= k < |scored| && scored[k] == front[i];
  }

  lemma SpotFreeBeaten(scored: seq<ScoredCandidate>, front: seq<ScoredCandidate>, action: ScalingAction, k: nat)
    returns (spot: nat)
    requires Decision(Some(SpotRuleEngine()), LightLoad(), scored, front, action)
    requires Offered(LightLoad(), DEFAULT_MAX_CANDIDATES, Plans(scored))
    requires k < |scored| && scored[k].plan.spotRatio < 0.3
    ensures spot < |scored| && scored[spot].viable && Beats(scored[spot], scored[k])
  {
    spot := SpotPlan(Plans(scored), k);
    ScoreInCycle(scored, front, action, spot);
    ScoreInCycle(scored, front, action, k);
  }

  /** The cycle itself, at the default candidate cap. */
  method RunCycle() returns (action: ScalingAction, scored: seq<ScoredCandidate>)
    ensures exists v :: v in scored && v.viable && v.score.weighted > action.confidence
  {
    var front;
    action, scored, front := Solve(Some(SpotRuleEngine()), DEFAULT_MAX_CANDIDATES, LightLoad(),
                                   (n: nat) => seq(n, i => i));
    ghost var v := PenaltyHidesHigherScore(scored, front, action);
  }
}

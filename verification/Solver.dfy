/** One optimization cycle, internal/engine/solver.go: generate, score, constrain, filter,
    take the Pareto front and select. */
module Solver {
  import opened Basics
  import opened EngineTypes
  import opened Numbers
  import opened Dominance
  import opened Pareto
  import opened PolicyEngine
  import Candidates
  import Scorer

  function CollectObjectives(ps: seq<MatchedPolicy>): seq<PolicyObjective> {
    if ps == [] then [] else CollectObjectives(ps[..|ps| - 1]) + ps[|ps| - 1].objectives
  }

  predicate AnyDryRun(ps: seq<MatchedPolicy>) {
    exists p :: p in ps && p.dryRun
  }

  function Viable(scored: seq<ScoredCandidate>): seq<ScoredCandidate> {
    if scored == [] then []
    else
      var before := Viable(scored[..|scored| - 1]);
      if scored[|scored| - 1].viable then before + [scored[|scored| - 1]] else before
  }

  method FilterViable(scored: seq<ScoredCandidate>) returns (viable: seq<ScoredCandidate>)
    ensures viable == Viable(scored)
  {
    viable := [];
    for i := 0 to |scored|
      invariant viable == Viable(scored[..i])
    {
      assert scored[..i + 1][..i] == scored[..i];
      if scored[i].viable {
        viable := viable + [scored[i]];
      }
    }
    assert scored[..|scored|] == scored;
  }

  function BuildAction(current: CurrentState, best: ScoredCandidate, dryRun: bool): ScalingAction {
    var plan := best.plan;
    var kind :=
      if plan.replicas > current.replicas then ScaleUp
      else if plan.replicas < current.replicas then ScaleDown
      else if plan.cpuRequest != current.cpuRequest || plan.memoryRequest != current.memoryRequest then Tune
      else NoAction;
    ScalingAction(kind, ToInt32(plan.replicas), plan.cpuRequest, plan.memoryRequest, plan.spotRatio,
                  dryRun, best.score.weighted)
  }

  /** No action, echoing the current state. */
  function Fallback(current: CurrentState, dryRun: bool): ScalingAction {
    ScalingAction(NoAction, ToInt32(current.replicas), current.cpuRequest, current.memoryRequest,
                  current.spotRatio, dryRun, 0.0)
  }

  function Plans(scored: seq<ScoredCandidate>): seq<CandidatePlan> {
    seq(|scored|, i requires 0 <= i < |scored| => scored[i].plan)
  }

  ghost predicate Selected(input: SolverInput, front: seq<ScoredCandidate>, action: ScalingAction, i: int) {
    && Chosen(front, input.current, i)
    && action == BuildAction(input.current, front[i], AnyDryRun(input.policies))
  }

  /** What one cycle leaves behind: every candidate scored and constrained, the front of the
      viable ones, and the action. */
  ghost predicate Decision(e: Option<PolicyEngine>, input: SolverInput, scored: seq<ScoredCandidate>,
                           front: seq<ScoredCandidate>, action: ScalingAction) {
    scored != [] && Evaluated(e, input, scored) && Resolved(input, scored, front, action)
  }

  ghost predicate Evaluated(e: Option<PolicyEngine>, input: SolverInput, scored: seq<ScoredCandidate>) {
    var plans := Plans(scored);
    forall i :: 0 <= i < |scored| ==>
      scored[i] == ConstrainAll(e, input.policies,
                                Scorer.Scored(input, CollectObjectives(input.policies), plans, plans[i]))
  }

  ghost predicate Resolved(input: SolverInput, scored: seq<ScoredCandidate>,
                           front: seq<ScoredCandidate>, action: ScalingAction) {
    var viable := Viable(scored);
    && front == Undominated(viable, Beats)
    && (viable == [] ==> action == Fallback(input.current, AnyDryRun(input.policies)))
    && (viable != [] ==> exists i :: Selected(input, front, action, i))
  }

  /** The candidates of a cycle: generated ones first, then the forecast-driven ones. */
  method AllCandidates(input: SolverInput, maxCandidates: int, perm: nat -> seq<int>)
    returns (candidates: seq<CandidatePlan>)
    requires forall n :: Candidates.IsPermutation(perm(n), n)
    ensures candidates != [] && Candidates.Offered(input, maxCandidates, candidates)
    ensures Candidates.OfferedInOrder(input, maxCandidates, candidates)
  {
    candidates := Candidates.GenerateCandidates(input, maxCandidates, perm);
    ghost var generated := candidates;
    if input.forecast.Some? {
      if input.forecast.value.changePercent > Candidates.PRE_WARMING_CHANGE_THRESHOLD {
        var warm := Candidates.PreWarmingCandidates(input);
        candidates := candidates + warm;
      }
      if input.forecast.value.spotRiskScore > Candidates.SPOT_RISK_THRESHOLD {
        var safer := Candidates.SpotReductionCandidates(input);
        candidates := candidates + safer;
      }
    }
    assert candidates == generated + Candidates.PreWarming(input) + Candidates.SpotReduction(input);
  }

  method Objectives(ps: seq<MatchedPolicy>) returns (all: seq<PolicyObjective>)
    ensures all == CollectObjectives(ps)
  {
    all := [];
    for i := 0 to |ps|
      invariant all == CollectObjectives(ps[..i])
    {
      assert ps[..i + 1][..i] == ps[..i];
      all := all + ps[i].objectives;
    }
    assert ps[..|ps|] == ps;
  }

  method ApplyPolicies(e: Option<PolicyEngine>, scored: array<ScoredCandidate>, ps: seq<MatchedPolicy>)
    returns (dryRun: bool)
    modifies scored
    ensures dryRun == AnyDryRun(ps)
    ensures forall i :: 0 <= i < scored.Length ==> scored[i] == ConstrainAll(e, ps, old(scored[i]))
  {
    dryRun := false;
    for k := 0 to |ps|
      invariant dryRun == AnyDryRun(ps[..k])
      invariant forall i :: 0 <= i < scored.Length ==> scored[i] == ConstrainAll(e, ps[..k], old(scored[i]))
    {
      assert ps[..k + 1] == ps[..k] + [ps[k]] && ps[..k + 1][..k] == ps[..k];
      if ps[k].dryRun {
        dryRun := true;
      }
      ApplyConstraints(e, scored, ps[k]);
    }
    assert ps[..|ps|] == ps;
  }

  /** Steps 3 and 4: score every candidate, then constrain all of them in place. */
  method ScoreAndConstrain(e: Option<PolicyEngine>, input: SolverInput, candidates: seq<CandidatePlan>)
    returns (scored: seq<ScoredCandidate>, dryRun: bool)
    requires candidates != []
    ensures Plans(scored) == candidates && dryRun == AnyDryRun(input.policies)
    ensures Evaluated(e, input, scored)
  {
    var objectives := Objectives(input.policies);
    var buffer := Scorer.ScoreAll(input, objectives, candidates);
    ghost var original := buffer[..];
    dryRun := ApplyPolicies(e, buffer, input.policies);
    scored := buffer[..];
    forall i | 0 <= i < |scored|
      ensures scored[i].plan == candidates[i]
    {
      ConstrainedExactly(e, input.policies, original[i]);
    }
    assert Plans(scored) == candidates;
  }

  /** Steps 5 to 7: filter, take the front, select and build the action. */
  method Select(input: SolverInput, scored: seq<ScoredCandidate>, dryRun: bool)
    returns (action: ScalingAction, front: seq<ScoredCandidate>)
    requires dryRun == AnyDryRun(input.policies)
    ensures Resolved(input, scored, front, action)
  {
    var viable := FilterViable(scored);
    if |viable| == 0 {
      action, front := Fallback(input.current, dryRun), [];
      return;
    }
    front := FindParetoFront(viable);
    BeatsIsStrictOrder();
    UndominatedExactly(viable, Beats);
    var best := SelectBest(front, input.current);
    action := BuildAction(input.current, best, dryRun);
    ghost var i :| Chosen(front, input.current, i) && front[i] == best;
    assert Selected(input, front, action, i);
  }

  method Solve(e: Option<PolicyEngine>, maxCandidates: int, input: SolverInput, perm: nat -> seq<int>)
    returns (action: ScalingAction, scored: seq<ScoredCandidate>, front: seq<ScoredCandidate>)
    requires forall n :: Candidates.IsPermutation(perm(n), n)
    ensures Decision(e, input, scored, front, action)
    ensures Candidates.Offered(input, maxCandidates, Plans(scored))
    ensures Candidates.OfferedInOrder(input, maxCandidates, Plans(scored))
    ensures action.dryRun <==> exists p :: p in input.policies && p.dryRun
    ensures (forall c :: c in scored ==> !c.viable) ==> Echoes(action, input.current)
    ensures (exists c :: c in scored && c.viable) ==> exists c :: c in front && c in scored && AsksFor(action, c)
    ensures Viable(scored) != [] && input.current.replicas <= REPLICA_LIMIT ==>
      1 <= action.targetReplica <= 2 * AtLeastOne(input.current.replicas) && TypeAgrees(input.current, action)
  {
    var candidates := AllCandidates(input, maxCandidates, perm);
    var dryRun;
    scored, dryRun := ScoreAndConstrain(e, input, candidates);
    action, front := Select(input, scored, dryRun);
    ActionFields(input, scored, front, action);
    if Viable(scored) != [] && input.current.replicas <= REPLICA_LIMIT {
      OfferedInRange(input, maxCandidates, scored);
      TargetInRange(input, scored, front, action);
    }
  }

  /** The action asks for the candidate's plan, with its score as confidence. */
  predicate AsksFor(action: ScalingAction, c: ScoredCandidate) {
    && (IsInt32(c.plan.replicas) ==> action.targetReplica == c.plan.replicas)
    && action.cpuRequest == c.plan.cpuRequest && action.memoryRequest == c.plan.memoryRequest
    && action.spotRatio == c.plan.spotRatio && action.confidence == c.score.weighted
  }

  /** No action: everything stays as it is, without confidence. */
  predicate Echoes(action: ScalingAction, current: CurrentState) {
    && action.actionType == NoAction && action.confidence == 0.0
    && (IsInt32(current.replicas) ==> action.targetReplica == current.replicas)
    && action.cpuRequest == current.cpuRequest && action.memoryRequest == current.memoryRequest
    && action.spotRatio == current.spotRatio
  }

  /** Field by field: a dry run exactly when a matched policy asks for one, and the selected
      plan's values, or the current ones when nothing is viable. */
  lemma ActionFields(input: SolverInput, scored: seq<ScoredCandidate>, front: seq<ScoredCandidate>,
                     action: ScalingAction)
    requires Resolved(input, scored, front, action)
    ensures action.dryRun <==> exists p :: p in input.policies && p.dryRun
    ensures (forall c :: c in scored ==> !c.viable) ==> Echoes(action, input.current)
    ensures (exists c :: c in scored && c.viable) ==> exists c :: c in front && c in scored && AsksFor(action, c)
  {
    ViableMembers(scored);
    BeatsIsStrictOrder();
    UndominatedExactly(Viable(scored), Beats);
    if Viable(scored) == [] {
      Int32Fixed(input.current.replicas);
    } else {
      var i :| Selected(input, front, action, i);
      Int32Fixed(front[i].plan.replicas);
      assert front[i] in front && AsksFor(action, front[i]);
      assert Viable(scored)[0] in Viable(scored);
    }
  }

  lemma OfferedInRange(input: SolverInput, maxCandidates: int, scored: seq<ScoredCandidate>)
    requires Candidates.Offered(input, maxCandidates, Plans(scored))
    ensures forall c :: c in scored ==> Candidates.InRange(input, c.plan)
  {
    Candidates.OfferedExactly(input, maxCandidates, Plans(scored));
    forall c | c in scored
      ensures c.plan in Plans(scored)
    {
      var k :| 0 <= k < |scored| && scored[k] == c;
      assert Plans(scored)[k] == c.plan;
    }
  }

  /** The objectives of several policies are those of each, one after the other. */
  lemma {:induction false} ObjectivesAppend(a: seq<MatchedPolicy>, b: seq<MatchedPolicy>)
    ensures CollectObjectives(a + b) == CollectObjectives(a) + CollectObjectives(b)
    ensures |a| == 1 ==> CollectObjectives(a) == a[0].objectives
  {
    if b == [] {
      assert a + b == a;
    } else {
      var n := |b| - 1;
      assert (a + b)[..|a + b| - 1] == a + b[..n];
      ObjectivesAppend(a, b[..n]);
    }
    if |a| == 1 {
      assert a[..0] == [] && CollectObjectives(a[..0]) == [];
    }
  }

  /** The viable candidates keep their order and repetitions. */
  lemma {:induction false} ViableAppend(a: seq<ScoredCandidate>, b: seq<ScoredCandidate>)
    ensures Viable(a + b) == Viable(a) + Viable(b)
    ensures |a| == 1 ==> Viable(a) == if a[0].viable then a else []
  {
    if b == [] {
      assert a + b == a;
    } else {
      var n := |b| - 1;
      assert (a + b)[..|a + b| - 1] == a + b[..n];
      ViableAppend(a, b[..n]);
    }
    if |a| == 1 {
      assert a[..0] == [] && Viable(a[..0]) == [];
    }
  }

  // ----- soundness -----

  lemma {:induction false} ViableMembers(scored: seq<ScoredCandidate>)
    ensures forall c :: c in Viable(scored) <==> c in scored && c.viable
  {
    if scored == [] {
    } else {
      var n := |scored| - 1;
      ViableMembers(scored[..n]);
      assert scored == scored[..n] + [scored[n]];
    }
  }

  /** Every constraint of every compiled policy is recorded exactly once per candidate, and
      a candidate is viable exactly when its plan passes every hard one. */
  lemma RecordsSound(e: Option<PolicyEngine>, input: SolverInput, scored: seq<ScoredCandidate>,
                     front: seq<ScoredCandidate>, action: ScalingAction, i: nat)
    requires Decision(e, input, scored, front, action) && i < |scored|
    ensures multiset(Entries(scored[i].constraints)) == multiset(AccountAll(e, input.policies, scored[i].plan))
    ensures scored[i].viable <==> Admissible(e, input.policies, scored[i].plan)
  {
    var plans := Plans(scored);
    ConstrainedExactly(e, input.policies, Scorer.Scored(input, CollectObjectives(input.policies), plans, plans[i]));
  }

  /** The action's type says how its target differs from the current state. */
  predicate TypeAgrees(current: CurrentState, a: ScalingAction) {
    var resourcesKept := a.cpuRequest == current.cpuRequest && a.memoryRequest == current.memoryRequest;
    match a.actionType
    case ScaleUp => a.targetReplica > current.replicas
    case ScaleDown => a.targetReplica < current.replicas
    case Tune => a.targetReplica == current.replicas && !resourcesKept
    case NoAction => a.targetReplica == current.replicas && resourcesKept
  }

  lemma TypeOfBuilt(current: CurrentState, best: ScoredCandidate, dryRun: bool)
    ensures IsInt32(best.plan.replicas) ==> TypeAgrees(current, BuildAction(current, best, dryRun))
  {
    Int32Fixed(best.plan.replicas);
  }

  /** The action is built from a plan that passes every hard constraint, or, when no
      candidate does, it is no action and echoes the current state. Its type agrees with what
      it changes as long as replica counts fit 32 bits. */
  lemma ActionSound(e: Option<PolicyEngine>, input: SolverInput, scored: seq<ScoredCandidate>,
                    front: seq<ScoredCandidate>, action: ScalingAction)
    requires Decision(e, input, scored, front, action)
    ensures (exists i :: 0 <= i < |scored| && Admissible(e, input.policies, scored[i].plan)) ==>
      exists c :: c in scored && Admissible(e, input.policies, c.plan) &&
                  action == BuildAction(input.current, c, AnyDryRun(input.policies))
    ensures !(exists i :: 0 <= i < |scored| && Admissible(e, input.policies, scored[i].plan)) ==>
      action == Fallback(input.current, AnyDryRun(input.policies))
    ensures IsInt32(input.current.replicas) && (forall c :: c in scored ==> IsInt32(c.plan.replicas)) ==>
      TypeAgrees(input.current, action)
  {
    var viable := Viable(scored);
    ViableMembers(scored);
    forall i | 0 <= i < |scored|
      ensures scored[i].viable <==> Admissible(e, input.policies, scored[i].plan)
    {
      RecordsSound(e, input, scored, front, action, i);
    }
    BeatsIsStrictOrder();
    UndominatedExactly(viable, Beats);
    if viable != [] {
      var i :| Selected(input, front, action, i);
      var c := front[i];
      assert c in viable;
      var k :| 0 <= k < |scored| && scored[k] == c;
      TypeOfBuilt(input.current, c, AnyDryRun(input.policies));
    } else {
      Int32Fixed(input.current.replicas);
      forall i | 0 <= i < |scored|
        ensures !scored[i].viable
      {
        assert scored[i] in scored;
      }
    }
  }

  /** The largest replica count whose double still fits 32 bits. */
  const REPLICA_LIMIT := 0x3FFF_FFFF

  /** A service with a viable plan is asked for at least one replica and at most twice its
      current ones, as all offered plans are in that range, and the action's type agrees with
      what it changes. */
  lemma TargetInRange(input: SolverInput, scored: seq<ScoredCandidate>, front: seq<ScoredCandidate>,
                      action: ScalingAction)
    requires Resolved(input, scored, front, action) && Viable(scored) != []
    requires input.current.replicas <= REPLICA_LIMIT && forall c :: c in scored ==> Candidates.InRange(input, c.plan)
    ensures 1 <= action.targetReplica <= 2 * AtLeastOne(input.current.replicas)
    ensures TypeAgrees(input.current, action)
  {
    ViableMembers(scored);
    BeatsIsStrictOrder();
    UndominatedExactly(Viable(scored), Beats);
    var i :| Selected(input, front, action, i);
    assert front[i] in front && front[i] in scored;
    Int32Fixed(front[i].plan.replicas);
    TypeOfBuilt(input.current, front[i], AnyDryRun(input.policies));
  }

  // ----- optimality -----

  ghost predicate PenaltiesAtMost(e: Option<PolicyEngine>, input: SolverInput, scored: seq<ScoredCandidate>,
                                  bound: real) {
    forall i :: 0 <= i < |scored| ==> TotalPenalty(e, input.policies, scored[i].plan) <= bound
  }

  function PenaltyFor(e: Option<PolicyEngine>, input: SolverInput, c: ScoredCandidate): (p: real)
    ensures p >= 0.0
  {
    TotalPenalty(e, input.policies, c.plan)
  }

  /** The aggregate a scored candidate had before penalties. */
  function Original(input: SolverInput, c: ScoredCandidate): real {
    Scorer.Weighted(CollectObjectives(input.policies), c.score.(weighted := 0.0))
  }

  /** A scored candidate's final score is its aggregate in [0, 1] less its penalties. */
  lemma NetScore(e: Option<PolicyEngine>, input: SolverInput, scored: seq<ScoredCandidate>,
                 front: seq<ScoredCandidate>, action: ScalingAction, c: ScoredCandidate)
    requires Decision(e, input, scored, front, action) && c in scored
    requires Scorer.NonNegativeWeights(CollectObjectives(input.policies))
    ensures Scorer.InUnit(Original(input, c))
    ensures c.score.weighted == Net(Original(input, c), PenaltyFor(e, input, c))
  {
    var objectives, plans := CollectObjectives(input.policies), Plans(scored);
    var k :| 0 <= k < |scored| && scored[k] == c;
    var dims := Scorer.Dimensions(input, plans, plans[k]);
    var unpenalised := Scorer.Scored(input, objectives, plans, plans[k]);
    Scorer.DimensionsInUnit(input, plans, plans[k]);
    Scorer.WeightedInUnit(objectives, dims);
    PenalizedExactly(e, input.policies, unpenalised);
    ConstrainedExactly(e, input.policies, unpenalised);
    assert c.score.(weighted := 0.0) == dims;
  }

  /** No front member tied with the i-th is less disruptive. */
  ghost predicate LeastDisruptive(front: seq<ScoredCandidate>, current: CurrentState, i: int)
    requires 0 <= i < |front|
  {
    forall j :: 0 <= j < |front| && front[j].score.weighted == front[i].score.weighted ==>
      Disruption(front[i].plan, current) <= Disruption(front[j].plan, current)
  }

  /** With non-negative objective weights, no viable candidate, on the front or off it,
      scores more than the selected one by more than the largest soft penalty. With no soft
      penalty the selection is therefore optimal among all viable candidates. Its score lies
      in [0, 1], and no front member tied with it is less disruptive. */
  lemma SelectionNearOptimal(e: Option<PolicyEngine>, input: SolverInput, scored: seq<ScoredCandidate>,
                             front: seq<ScoredCandidate>, action: ScalingAction, bound: real)
    requires Decision(e, input, scored, front, action) && Viable(scored) != []
    requires Scorer.NonNegativeWeights(CollectObjectives(input.policies))
    requires PenaltiesAtMost(e, input, scored, bound)
    ensures Scorer.InUnit(action.confidence)
    ensures forall v :: v in scored && v.viable ==> v.score.weighted <= action.confidence + bound
    ensures exists i :: Selected(input, front, action, i) && LeastDisruptive(front, input.current, i)
  {
    var i :| Selected(input, front, action, i);
    SelectedInUnit(e, input, scored, front, action, i);
    ChosenIsLeastDisruptive(front, input.current, i);
    forall v | v in scored && v.viable
      ensures v.score.weighted <= action.confidence + bound
    {
      var top := KeptAbove(e, input, scored, front, action, v);
      var t :| 0 <= t < |scored| && scored[t] == top;
    }
  }

  lemma ChosenIsLeastDisruptive(front: seq<ScoredCandidate>, current: CurrentState, i: int)
    requires Chosen(front, current, i)
    ensures LeastDisruptive(front, current, i)
  {
    forall j | 0 <= j < |front| && front[j].score.weighted == front[i].score.weighted
      ensures Disruption(front[i].plan, current) <= Disruption(front[j].plan, current)
    {
      assert !Preferred(front[j], front[i], current);
    }
  }

  lemma SelectedInUnit(e: Option<PolicyEngine>, input: SolverInput, scored: seq<ScoredCandidate>,
                       front: seq<ScoredCandidate>, action: ScalingAction, i: int)
    requires Decision(e, input, scored, front, action) && Selected(input, front, action, i)
    requires Scorer.NonNegativeWeights(CollectObjectives(input.policies))
    ensures Scorer.InUnit(action.confidence)
  {
    ViableMembers(scored);
    BeatsIsStrictOrder();
    UndominatedExactly(Viable(scored), Beats);
    assert front[i] in front;
    NetScore(e, input, scored, front, action, front[i]);
  }

  /** Whoever dominates a viable candidate is penalised no more, or the dominated one's
      penalties leave it nothing. */
  ghost predicate PenaltiesFollowDominance(e: Option<PolicyEngine>, input: SolverInput, scored: seq<ScoredCandidate>) {
    forall i, j :: 0 <= i < |scored| && 0 <= j < |scored| && scored[i].viable && scored[j].viable &&
                   Beats(scored[i], scored[j]) ==>
      PenaltyFor(e, input, scored[i]) <= PenaltyFor(e, input, scored[j]) || PenaltyFor(e, input, scored[j]) >= 1.0
  }

  /** Scalarised optimum: when penalties follow dominance, the selected candidate has the
      highest score among all viable ones, on the front or off it. */
  lemma SelectionOptimal(e: Option<PolicyEngine>, input: SolverInput, scored: seq<ScoredCandidate>,
                         front: seq<ScoredCandidate>, action: ScalingAction)
    requires Decision(e, input, scored, front, action)
    requires Scorer.NonNegativeWeights(CollectObjectives(input.policies))
    ensures PenaltiesFollowDominance(e, input, scored) ==>
      forall v :: v in scored && v.viable ==> v.score.weighted <= action.confidence
  {
    forall v | v in scored && v.viable && PenaltiesFollowDominance(e, input, scored)
      ensures v.score.weighted <= action.confidence
    {
      var top := KeptAbove(e, input, scored, front, action, v);
      var i :| 0 <= i < |scored| && scored[i] == top;
      var j :| 0 <= j < |scored| && scored[j] == v;
    }
  }

  /** The plain case: no soft constraint fails on any candidate. */
  lemma NoSoftFailureFollows(e: Option<PolicyEngine>, input: SolverInput, scored: seq<ScoredCandidate>)
    requires forall c :: c in scored ==> NoSoftFailure(e, input.policies, c.plan)
    ensures PenaltiesFollowDominance(e, input, scored)
  {
    forall c | c in scored
      ensures PenaltyFor(e, input, c) == 0.0
    {
      NoPenaltyExactly(e, input.policies, c.plan);
    }
  }

  /** A kept candidate, scoring at most what the selected one does, that is v or dominates it
      and had at least its aggregate before penalties. */
  lemma KeptAbove(e: Option<PolicyEngine>, input: SolverInput, scored: seq<ScoredCandidate>,
                  front: seq<ScoredCandidate>, action: ScalingAction, v: ScoredCandidate) returns (top: ScoredCandidate)
    requires Decision(e, input, scored, front, action) && v in scored && v.viable
    requires Scorer.NonNegativeWeights(CollectObjectives(input.policies))
    ensures top in scored && top.viable && (top == v || Beats(top, v)) && top.score.weighted <= action.confidence
    ensures 0.0 <= Original(input, v) <= Original(input, top) <= 1.0
    ensures v.score.weighted == Net(Original(input, v), PenaltyFor(e, input, v))
    ensures top.score.weighted == Net(Original(input, top), PenaltyFor(e, input, top))
  {
    top := FrontAbove(scored, v);
    NetScore(e, input, scored, front, action, v);
    NetScore(e, input, scored, front, action, top);
    Scorer.WeightedMonotone(CollectObjectives(input.policies),
                            v.score.(weighted := 0.0), top.score.(weighted := 0.0));
    ViableMembers(scored);
    var i :| Selected(input, front, action, i);
    var j :| 0 <= j < |front| && front[j] == top;
    assert !Preferred(front[j], front[i], input.current);
  }

  /** A front member at least as good as v on every dimension. */
  lemma FrontAbove(scored: seq<ScoredCandidate>, v: ScoredCandidate) returns (top: ScoredCandidate)
    requires v in scored && v.viable
    ensures top in Undominated(Viable(scored), Beats) && top in scored
    ensures Scorer.NoBetter(v.score, top.score) && (top == v || Beats(top, v)) && top.viable
  {
    var viable := Viable(scored);
    ViableMembers(scored);
    BeatsIsStrictOrder();
    UndominatedExactly(viable, Beats);
    if v in Undominated(viable, Beats) {
      top := v;
    } else {
      top :| top in Undominated(viable, Beats) && Beats(top, v);
    }
  }
}

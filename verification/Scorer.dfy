/** Candidate scoring, internal/engine/scorer.go: four dimensions in [0, 1] and their
    policy-weighted aggregate. */
module Scorer {
  import opened Basics
  import opened EngineTypes
  import opened Numbers
  import opened Sums

  // ----- dimensions -----

  predicate HasObservedSLOSignal(s: SLOStatus) {
    s.burnRate > 0.0 || s.budgetRemaining > 0.0 || s.latencyP99 > 0.0 ||
    s.errorRate > 0.0 || s.availability > 0.0 || s.throughput > 0.0
  }

  /** Forecast demand when there is one, else CPU usage, else a fraction of reserved CPU. */
  function CurrentDemand(input: SolverInput): (d: real)
    ensures d > 0.0
  {
    var cpu := input.current.cpuUsage;
    var d := if input.forecast.Some? && input.forecast.value.predictedRPS > 0.0
             then cpu * (1.0 + input.forecast.value.changePercent / 100.0) else cpu;
    if d > 0.0 then d
    else (if ReservedCores(input) < 0.000000001 then 0.01 else ReservedCores(input)) * 0.05
  }

  function ReservedCores(input: SolverInput): real {
    input.current.replicas as real * input.current.cpuRequest
  }

  function ScoreDegradedSLO(input: SolverInput, c: CandidatePlan): real {
    var replicas := AtLeastOne(input.current.replicas);
    var bonus := if input.slo.burnRate >= 10.0 then 0.2 else if input.slo.burnRate >= 1.0 then 0.1 else 0.0;
    if c.replicas < replicas then 0.0
    else if c.replicas == replicas then
      var score := 0.2 + bonus;
      if score > 0.4 then 0.4 else score
    else
      var improvement := (c.replicas - replicas) as real / replicas as real;
      var score := 0.6 + (if improvement < 1.0 then improvement else 1.0) * 0.3 + bonus;
      if score > 1.0 then 1.0 else score
  }

  function CapacityRatio(replicas: int, cpu: real, demand: real): real
    requires demand > 0.0
  {
    replicas as real * cpu / demand
  }

  function ScoreSLO(input: SolverInput, c: CandidatePlan): real {
    if !input.slo.compliant && HasObservedSLOSignal(input.slo) then ScoreDegradedSLO(input, c)
    else
      var ratio := CapacityRatio(c.replicas, c.cpuRequest, CurrentDemand(input));
      if ratio >= 1.2 then 1.0 else if ratio >= 1.0 then 0.8 else if ratio >= 0.8 then 0.4 else 0.0
  }

  function ScoreFairness(input: SolverInput, c: CandidatePlan): real {
    if input.tenant.None? || input.tenant.value.guaranteedCores <= 0.0 then 1.0
    else
      var t := input.tenant.value;
      var delta := c.replicas as real * c.cpuRequest - input.current.replicas as real * input.current.cpuRequest;
      var projected := t.currentCores + delta;
      if projected <= t.guaranteedCores then 1.0 else if projected <= t.maxCores then 0.7 else 0.2
  }

  function Normalize(value: real, min: real, max: real): (n: real)
    ensures 0.0 <= n <= 1.0
  {
    if max <= min then 0.0
    else
      var n := (value - min) / (max - min);
      if n < 0.0 then 0.0 else if n > 1.0 then 1.0 else n
  }

  // ----- weighted aggregate -----

  function DimensionScore(score: CandidateScore, name: string): real {
    match name
    case "slo" => score.slo
    case "slo_compliance" => score.slo
    case "cost" => score.cost
    case "carbon" => score.carbon
    case "fairness" => score.fairness
    case _ => 0.0
  }

  function Weights(objectives: seq<PolicyObjective>): seq<real> {
    seq(|objectives|, i requires 0 <= i < |objectives| => objectives[i].weight)
  }

  function TotalWeight(objectives: seq<PolicyObjective>): (t: real)
    ensures t > 0.0
  {
    var t := Sum(Weights(objectives));
    if t <= 0.0 then 1.0 else t
  }

  function Share(weight: real, total: real): real
    requires total > 0.0
  {
    weight / total
  }

  function WeightedTerms(objectives: seq<PolicyObjective>, score: CandidateScore): seq<real> {
    var total := TotalWeight(objectives);
    seq(|objectives|, i requires 0 <= i < |objectives| =>
      Product(Share(objectives[i].weight, total), DimensionScore(score, objectives[i].name)))
  }

  function Weighted(objectives: seq<PolicyObjective>, score: CandidateScore): real {
    if objectives == [] then (score.slo + score.cost + score.carbon + score.fairness) / 4.0
    else Sum(WeightedTerms(objectives, score))
  }

  method ComputeWeighted(objectives: seq<PolicyObjective>, score: CandidateScore) returns (weighted: real)
    ensures weighted == Weighted(objectives, score)
  {
    if |objectives| == 0 {
      return (score.slo + score.cost + score.carbon + score.fairness) / 4.0;
    }
    ghost var ws, terms := Weights(objectives), WeightedTerms(objectives, score);
    var totalWeight := 0.0;
    for i := 0 to |objectives|
      invariant totalWeight == Sum(ws[..i])
    {
      totalWeight := totalWeight + objectives[i].weight;
      SumStep(ws, i);
    }
    assert ws[..|objectives|] == ws;
    if totalWeight <= 0.0 {
      totalWeight := 1.0;
    }
    weighted := 0.0;
    for i := 0 to |objectives|
      invariant weighted == Sum(terms[..i])
    {
      var share := Share(objectives[i].weight, totalWeight);
      weighted := weighted + Product(share, DimensionScore(score, objectives[i].name));
      SumStep(terms, i);
    }
    assert terms[..|objectives|] == terms;
  }

  // ----- scoring a batch -----

  function Costs(cs: seq<CandidatePlan>): seq<real> {
    seq(|cs|, i requires 0 <= i < |cs| => cs[i].estimatedCost)
  }

  function Carbons(cs: seq<CandidatePlan>): seq<real> {
    seq(|cs|, i requires 0 <= i < |cs| => cs[i].estimatedCarbon)
  }

  function MinOf(xs: seq<real>): real
    requires xs != []
  {
    var n := |xs| - 1;
    if n == 0 then xs[0] else if xs[n] < MinOf(xs[..n]) then xs[n] else MinOf(xs[..n])
  }

  /** The running maximum, which the source starts at zero. */
  function MaxOf(xs: seq<real>): real {
    if xs == [] then 0.0
    else
      var n := |xs| - 1;
      if xs[n] > MaxOf(xs[..n]) then xs[n] else MaxOf(xs[..n])
  }

  /** Every value lies between the running minimum and the running maximum. */
  lemma {:induction false} BetweenExtremes(xs: seq<real>, i: nat)
    requires i < |xs|
    ensures MinOf(xs) <= xs[i] <= MaxOf(xs)
  {
    var n := |xs| - 1;
    if n == 0 {
    } else if i < n {
      BetweenExtremes(xs[..n], i);
    } else {
      BetweenExtremes(xs[..n], 0);
    }
  }

  /** Between the extremes normalising keeps strict order, and only the maximum reaches 1. */
  lemma NormalizeOrder(x: real, y: real, min: real, max: real)
    requires min <= x < y <= max
    ensures Normalize(x, min, max) < Normalize(y, min, max)
    ensures Normalize(x, min, max) < 1.0
  {
    var d := max - min;
    assert (y - min) / d - (x - min) / d == (y - x) / d > 0.0;
    QuotientOrder(0.0, x - min, d);
    QuotientOrder(y - min, d, d);
  }

  function Dimensions(input: SolverInput, cs: seq<CandidatePlan>, c: CandidatePlan): CandidateScore
    requires cs != []
  {
    CandidateScore(
      ScoreSLO(input, c),
      1.0 - Normalize(c.estimatedCost, MinOf(Costs(cs)), MaxOf(Costs(cs))),
      1.0 - Normalize(c.estimatedCarbon, MinOf(Carbons(cs)), MaxOf(Carbons(cs))),
      ScoreFairness(input, c),
      0.0)
  }

  function Scored(input: SolverInput, objectives: seq<PolicyObjective>, cs: seq<CandidatePlan>, c: CandidatePlan)
    : ScoredCandidate
    requires cs != []
  {
    var dims := Dimensions(input, cs, c);
    ScoredCandidate(c, dims.(weighted := Weighted(objectives, dims)), [], true)
  }

  /** The running minima and maxima of the batch. */
  method Bounds(cs: seq<CandidatePlan>) returns (minCost: real, maxCost: real, minCarbon: real, maxCarbon: real)
    requires cs != []
    ensures minCost == MinOf(Costs(cs)) && maxCost == MaxOf(Costs(cs))
    ensures minCarbon == MinOf(Carbons(cs)) && maxCarbon == MaxOf(Carbons(cs))
  {
    ghost var costs, carbons := Costs(cs), Carbons(cs);
    minCost, maxCost, minCarbon, maxCarbon := 0.0, 0.0, 0.0, 0.0;
    for i := 0 to |cs|
      invariant i > 0 ==> minCost == MinOf(costs[..i]) && minCarbon == MinOf(carbons[..i])
      invariant maxCost == MaxOf(costs[..i]) && maxCarbon == MaxOf(carbons[..i])
    {
      assert costs[..i + 1][..i] == costs[..i] && carbons[..i + 1][..i] == carbons[..i];
      // The source starts both minima at the largest float64, which no value exceeds.
      if i == 0 || cs[i].estimatedCost < minCost {
        minCost := cs[i].estimatedCost;
      }
      if cs[i].estimatedCost > maxCost {
        maxCost := cs[i].estimatedCost;
      }
      if i == 0 || cs[i].estimatedCarbon < minCarbon {
        minCarbon := cs[i].estimatedCarbon;
      }
      if cs[i].estimatedCarbon > maxCarbon {
        maxCarbon := cs[i].estimatedCarbon;
      }
    }
    assert costs[..|cs|] == costs && carbons[..|cs|] == carbons;
  }

  method ScoreAll(input: SolverInput, objectives: seq<PolicyObjective>, cs: seq<CandidatePlan>)
    returns (scored: array<ScoredCandidate>)
    ensures fresh(scored) && scored.Length == |cs|
    ensures forall i :: 0 <= i < |cs| ==> scored[i] == Scored(input, objectives, cs, cs[i])
  {
    if |cs| == 0 {
      scored := new ScoredCandidate[0];
      return;
    }
    var minCost, maxCost, minCarbon, maxCarbon := Bounds(cs);
    scored := new ScoredCandidate[|cs|](i requires 0 <= i < |cs| =>
      ScoredCandidate(cs[i], CandidateScore(0.0, 0.0, 0.0, 0.0, 0.0), [], false));
    for i := 0 to |cs|
      invariant forall k :: 0 <= k < i ==> scored[k] == Scored(input, objectives, cs, cs[k])
    {
      scored[i] := ScoreOne(input, objectives, cs, cs[i], minCost, maxCost, minCarbon, maxCarbon);
    }
  }

  method ScoreOne(input: SolverInput, objectives: seq<PolicyObjective>, ghost cs: seq<CandidatePlan>, c: CandidatePlan,
                  minCost: real, maxCost: real, minCarbon: real, maxCarbon: real) returns (scored: ScoredCandidate)
    requires cs != []
    requires minCost == MinOf(Costs(cs)) && maxCost == MaxOf(Costs(cs))
    requires minCarbon == MinOf(Carbons(cs)) && maxCarbon == MaxOf(Carbons(cs))
    ensures scored == Scored(input, objectives, cs, c)
  {
    var score := CandidateScore(
      ScoreSLO(input, c),
      1.0 - Normalize(c.estimatedCost, minCost, maxCost),
      1.0 - Normalize(c.estimatedCarbon, minCarbon, maxCarbon),
      ScoreFairness(input, c),
      0.0);
    var weighted := ComputeWeighted(objectives, score);
    scored := ScoredCandidate(c, score.(weighted := weighted), [], true);
  }

  // ----- the aggregate is bounded and monotone -----

  predicate InUnit(x: real) {
    0.0 <= x <= 1.0
  }

  predicate UnitScore(s: CandidateScore) {
    InUnit(s.slo) && InUnit(s.cost) && InUnit(s.carbon) && InUnit(s.fairness)
  }

  ghost predicate NonNegativeWeights(objectives: seq<PolicyObjective>) {
    forall i :: 0 <= i < |objectives| ==> objectives[i].weight >= 0.0
  }

  predicate NoBetter(a: CandidateScore, b: CandidateScore) {
    a.slo <= b.slo && a.cost <= b.cost && a.carbon <= b.carbon && a.fairness <= b.fairness
  }

  // ----- what each dimension measures -----

  function SignalsOf(s: SLOStatus): set<real> {
    {s.burnRate, s.budgetRemaining, s.latencyP99, s.errorRate, s.availability, s.throughput}
  }

  predicate Positive(signals: set<real>) {
    exists x :: x in signals && x > 0.0
  }

  /** Compliant, or with no signal observed: the planned cores against the demand, in four
      levels at 120%, 100% and 80%. */
  lemma CapacityLevels(input: SolverInput, c: CandidatePlan)
    requires input.slo.compliant || !Positive(SignalsOf(input.slo))
    ensures var cores, demand, score := c.replicas as real * c.cpuRequest, CurrentDemand(input), ScoreSLO(input, c);
      && (score == 1.0 <==> cores >= 1.2 * demand)
      && (score == 0.8 <==> demand <= cores < 1.2 * demand)
      && (score == 0.4 <==> 0.8 * demand <= cores < demand)
      && (score == 0.0 <==> cores < 0.8 * demand)
  {
    var demand := CurrentDemand(input);
    assert forall x :: x in SignalsOf(input.slo) ==> (x > 0.0 ==> Positive(SignalsOf(input.slo)));
    RatioAgainst(c.replicas, c.cpuRequest, demand, 1.2);
    RatioAgainst(c.replicas, c.cpuRequest, demand, 1.0);
    RatioAgainst(c.replicas, c.cpuRequest, demand, 0.8);
  }

  lemma RatioAgainst(replicas: int, cpu: real, demand: real, level: real)
    requires demand > 0.0
    ensures CapacityRatio(replicas, cpu, demand) >= level <==> replicas as real * cpu >= level * demand
  {
    var cores := replicas as real * cpu;
    assert cores / demand * demand == cores;
    if cores >= level * demand {
      QuotientOrder(level * demand, cores, demand);
      assert level * demand / demand == level;
    } else {
      assert cores / demand < level by {
        assert (level - cores / demand) * demand > 0.0;
      }
    }
  }

  /** Degraded: nothing for fewer replicas; a low score for as many; for more, 0.6 and up to 0.3
      in proportion to the replicas added, all of it from doubling on. Burn rates from 1 and from
      10 on add 0.1 and 0.2, up to 0.4 for standing still and 1 for scaling up. */
  lemma DegradedLevels(input: SolverInput, c: CandidatePlan)
    requires !input.slo.compliant && Positive(SignalsOf(input.slo))
    ensures var now, score, burn := AtLeastOne(input.current.replicas), ScoreSLO(input, c), input.slo.burnRate;
      var bonus := if burn >= 10.0 then 0.2 else if burn >= 1.0 then 0.1 else 0.0;
      && (c.replicas < now ==> score == 0.0)
      && (c.replicas == now ==> score == 0.2 + bonus)
      && (c.replicas >= 2 * now ==> score == if bonus > 0.1 then 1.0 else 0.9 + bonus)
      && (now < c.replicas < 2 * now ==>
            score == 1.0 || Times(now, score - 0.6 - bonus) == 0.3 * (c.replicas - now) as real)
  {
    var now := AtLeastOne(input.current.replicas);
    var x :| x in SignalsOf(input.slo) && x > 0.0;
    var added := (c.replicas - now) as real;
    if c.replicas >= 2 * now {
      AtLeastOneRatio(added, now as real);
    } else if c.replicas > now {
      var q := added / now as real;
      assert q * now as real == added;
      BelowOne(added, now as real);
      assert Times(now, 0.3 * q) == 0.3 * added;
    }
  }

  lemma AtLeastOneRatio(x: real, d: real)
    requires x >= d > 0.0
    ensures x / d >= 1.0
  {
    QuotientOrder(d, x, d);
    assert d / d == 1.0;
  }

  lemma BelowOne(x: real, d: real)
    requires x < d && d > 0.0
    ensures x / d < 1.0
  {
    assert x / d * d == x;
    assert (1.0 - x / d) * d > 0.0;
  }

  /** Cores a tenant would use once the plan is in place. */
  function ProjectedCores(input: SolverInput, c: CandidatePlan): real
    requires input.tenant.Some?
  {
    input.tenant.value.currentCores - input.current.replicas as real * input.current.cpuRequest +
    c.replicas as real * c.cpuRequest
  }

  /** Fairness has three levels, at the guarantee and at the ceiling; without a tenant or a
      guarantee every plan is fair. */
  lemma FairnessLevels(input: SolverInput, c: CandidatePlan)
    ensures input.tenant.None? ==> ScoreFairness(input, c) == 1.0
    ensures input.tenant.Some? ==>
      var t, cores, score := input.tenant.value, ProjectedCores(input, c), ScoreFairness(input, c);
      && (score == 1.0 <==> t.guaranteedCores <= 0.0 || cores <= t.guaranteedCores)
      && (score == 0.7 <==> 0.0 < t.guaranteedCores < cores <= t.maxCores)
      && (score == 0.2 <==> t.guaranteedCores > 0.0 && cores > t.guaranteedCores && cores > t.maxCores)
  {
  }

  /** More cores are never fairer. */
  lemma MoreCoresNoFairer(input: SolverInput, a: CandidatePlan, b: CandidatePlan)
    requires a.replicas as real * a.cpuRequest <= b.replicas as real * b.cpuRequest
    ensures ScoreFairness(input, a) >= ScoreFairness(input, b)
  {
  }

  /** The CPU usage, changed by the forecast percentage when requests are forecast. */
  ghost predicate IsForecastUsage(input: SolverInput, usage: real) {
    if input.forecast.Some? && input.forecast.value.predictedRPS > 0.0
    then 100.0 * usage == input.current.cpuUsage * (100.0 + input.forecast.value.changePercent)
    else usage == input.current.cpuUsage
  }

  /** Demand is that usage, or when it is not positive a twentieth of the reserved cores. */
  lemma DemandExactly(input: SolverInput, usage: real)
    requires IsForecastUsage(input, usage)
    ensures usage > 0.0 ==> CurrentDemand(input) == usage
    ensures usage <= 0.0 ==>
      20.0 * CurrentDemand(input) == if ReservedCores(input) < 0.000000001 then 0.01 else ReservedCores(input)
  {
    if input.forecast.Some? {
      var cpu, change := input.current.cpuUsage, input.forecast.value.changePercent;
      assert 100.0 * (cpu * (1.0 + change / 100.0)) == cpu * (100.0 + change);
    }
  }

  /** Within a batch cost and carbon fall linearly from 1 at the minimum to 0 at the maximum. */
  lemma CostAndCarbonLinear(input: SolverInput, cs: seq<CandidatePlan>, i: nat)
    requires i < |cs|
    ensures var d := Dimensions(input, cs, cs[i]);
      && LinearBetween(1.0 - d.cost, cs[i].estimatedCost, MinOf(Costs(cs)), MaxOf(Costs(cs)))
      && LinearBetween(1.0 - d.carbon, cs[i].estimatedCarbon, MinOf(Carbons(cs)), MaxOf(Carbons(cs)))
  {
    BetweenExtremes(Costs(cs), i);
    BetweenExtremes(Carbons(cs), i);
    NormalizeLinear(cs[i].estimatedCost, MinOf(Costs(cs)), MaxOf(Costs(cs)));
    NormalizeLinear(cs[i].estimatedCarbon, MinOf(Carbons(cs)), MaxOf(Carbons(cs)));
  }

  predicate LinearBetween(n: real, x: real, min: real, max: real) {
    if min == max then n == 0.0 else Product(n, max - min) == x - min
  }

  lemma NormalizeLinear(x: real, min: real, max: real)
    requires min <= x <= max
    ensures LinearBetween(Normalize(x, min, max), x, min, max)
  {
    if min < max {
      QuotientOrder(0.0, x - min, max - min);
      QuotientOrder(x - min, max - min, max - min);
    }
  }

  /** The minimum is one of the values; the maximum is too, unless none is positive. */
  lemma {:induction false} ExtremesAttained(xs: seq<real>)
    requires xs != []
    ensures MinOf(xs) in xs && (MaxOf(xs) in xs || (MaxOf(xs) == 0.0 && forall x :: x in xs ==> x <= 0.0))
  {
    var n := |xs| - 1;
    if n == 0 {
    } else {
      ExtremesAttained(xs[..n]);
      assert forall x :: x in xs <==> x in xs[..n] || x == xs[n];
    }
  }

  // ----- what each objective weighs -----

  /** A single objective of positive weight is its dimension; other names weigh nothing. */
  lemma ObjectiveWeighs(name: string, weight: real, s: CandidateScore)
    requires weight > 0.0
    ensures var w := Weighted([PolicyObjective(name, weight)], s);
      && (name in {"slo", "slo_compliance"} ==> w == s.slo)
      && (name == "cost" ==> w == s.cost)
      && (name == "carbon" ==> w == s.carbon)
      && (name == "fairness" ==> w == s.fairness)
      && (name !in {"slo", "slo_compliance", "cost", "carbon", "fairness"} ==> w == 0.0)
  {
    var objectives := [PolicyObjective(name, weight)];
    var ws, terms := Weights(objectives), WeightedTerms(objectives, s);
    assert ws == [weight] && ws[..0] == [] && terms[..0] == [];
    assert Sum(ws) == weight && Sum(terms) == terms[0];
    assert TotalWeight(objectives) == weight;
    WholeShare(weight, DimensionScore(s, name));
  }

  lemma WholeShare(weight: real, x: real)
    requires weight > 0.0
    ensures Product(Share(weight, weight), x) == x
  {
    assert weight / weight == 1.0;
  }

  /** The aggregate is the weighted mean of the objectives' dimensions, or the plain mean. */
  lemma AggregateIsMean(objectives: seq<PolicyObjective>, s: CandidateScore, products: seq<real>)
    requires |products| == |objectives| && forall i :: 0 <= i < |objectives| ==>
      products[i] == Product(objectives[i].weight, DimensionScore(s, objectives[i].name))
    ensures objectives != [] && Sum(Weights(objectives)) > 0.0 ==>
      Product(Sum(Weights(objectives)), Weighted(objectives, s)) == Sum(products)
    ensures objectives == [] ==> 4.0 * Weighted(objectives, s) == s.slo + s.cost + s.carbon + s.fairness
  {
    if objectives != [] && Sum(Weights(objectives)) > 0.0 {
      ScaledTerms(Sum(Weights(objectives)), WeightedTerms(objectives, s), products, objectives, s);
    }
  }

  lemma {:induction false} ScaledTerms(total: real, terms: seq<real>, products: seq<real>,
                                       objectives: seq<PolicyObjective>, s: CandidateScore)
    requires total > 0.0 && |terms| == |products| == |objectives|
    requires forall i :: 0 <= i < |terms| ==>
      && terms[i] == Product(Share(objectives[i].weight, total), DimensionScore(s, objectives[i].name))
      && products[i] == Product(objectives[i].weight, DimensionScore(s, objectives[i].name))
    ensures Product(total, Sum(terms)) == Sum(products)
  {
    if terms == [] {
    } else {
      var n := |terms| - 1;
      ScaledTerms(total, terms[..n], products[..n], objectives[..n], s);
      ScaledTerm(total, objectives[n].weight, DimensionScore(s, objectives[n].name));
      ProductAdds(total, Sum(terms[..n]), terms[n]);
    }
  }

  lemma ScaledTerm(total: real, weight: real, x: real)
    requires total > 0.0
    ensures Product(total, Product(Share(weight, total), x)) == Product(weight, x)
  {
    var q := weight / total;
    assert total * q == weight;
    assert total * (q * x) == total * q * x;
  }

  lemma DimensionsInUnit(input: SolverInput, cs: seq<CandidatePlan>, c: CandidatePlan)
    requires cs != []
    ensures UnitScore(Dimensions(input, cs, c))
  {
  }

  /** With the same non-negative CPU request, more replicas never lower the SLO score. */
  lemma MoreReplicasNoWorseSLO(input: SolverInput, a: CandidatePlan, b: CandidatePlan)
    requires a.cpuRequest == b.cpuRequest >= 0.0 && a.replicas <= b.replicas
    ensures ScoreSLO(input, a) <= ScoreSLO(input, b)
  {
    if !input.slo.compliant && HasObservedSLOSignal(input.slo) {
      var replicas := AtLeastOne(input.current.replicas);
      QuotientOrder((a.replicas - replicas) as real, (b.replicas - replicas) as real, replicas as real);
      if b.replicas > replicas {
        QuotientOrder(0.0, (b.replicas - replicas) as real, replicas as real);
      }
    } else {
      CapacityRatioOrder(a.replicas, b.replicas, a.cpuRequest, CurrentDemand(input));
    }
  }

  lemma CapacityRatioOrder(m: int, n: int, cpu: real, demand: real)
    requires m <= n && cpu >= 0.0 && demand > 0.0
    ensures CapacityRatio(m, cpu, demand) <= CapacityRatio(n, cpu, demand)
  {
    var x, y := m as real, n as real;
    ProductOrder(cpu, x, y);
    assert x * cpu == Product(cpu, x) && y * cpu == Product(cpu, y);
    QuotientOrder(x * cpu, y * cpu, demand);
  }

  /** While the SLO is violated, scaling up beats standing still, which beats scaling down. */
  lemma DegradedPrefersMore(input: SolverInput, down: CandidatePlan, stay: CandidatePlan, up: CandidatePlan)
    requires !input.slo.compliant && Positive(SignalsOf(input.slo))
    requires down.replicas < stay.replicas == AtLeastOne(input.current.replicas) < up.replicas
    ensures ScoreSLO(input, down) < ScoreSLO(input, stay) < ScoreSLO(input, up)
  {
    QuotientOrder(0.0, (up.replicas - stay.replicas) as real, stay.replicas as real);
  }

  lemma ShareSign(weight: real, total: real)
    requires weight >= 0.0 && total > 0.0
    ensures Share(weight, total) >= 0.0
  {
  }

  /** Scores at least as good on every dimension have at least as good an aggregate. */
  lemma WeightedMonotone(objectives: seq<PolicyObjective>, a: CandidateScore, b: CandidateScore)
    requires NonNegativeWeights(objectives) && NoBetter(a, b)
    ensures Weighted(objectives, a) <= Weighted(objectives, b)
  {
    var total := TotalWeight(objectives);
    forall i | 0 <= i < |objectives|
      ensures WeightedTerms(objectives, a)[i] <= WeightedTerms(objectives, b)[i]
    {
      ShareSign(objectives[i].weight, total);
      ProductOrder(Share(objectives[i].weight, total),
                   DimensionScore(a, objectives[i].name), DimensionScore(b, objectives[i].name));
    }
    SumMonotone(WeightedTerms(objectives, a), WeightedTerms(objectives, b));
  }

  lemma WeightedInUnit(objectives: seq<PolicyObjective>, s: CandidateScore)
    requires NonNegativeWeights(objectives) && UnitScore(s)
    ensures InUnit(Weighted(objectives, s))
  {
    if objectives != [] {
      var total, terms := TotalWeight(objectives), WeightedTerms(objectives, s);
      var shares := seq(|objectives|, i requires 0 <= i < |objectives| => Share(objectives[i].weight, total));
      forall i | 0 <= i < |objectives|
        ensures 0.0 <= terms[i] <= shares[i]
      {
        ShareSign(objectives[i].weight, total);
        ProductOrder(shares[i], 0.0, DimensionScore(s, objectives[i].name));
        ProductOrder(shares[i], DimensionScore(s, objectives[i].name), 1.0);
      }
      SumNonNegative(terms);
      SumMonotone(terms, shares);
      SharesSum(Weights(objectives), total, shares);
      SumNonNegative(Weights(objectives));
      ShareAtMostOne(Sum(Weights(objectives)), total);
    }
  }

  lemma {:induction false} SharesSum(ws: seq<real>, total: real, shares: seq<real>)
    requires total > 0.0 && |shares| == |ws|
    requires forall i :: 0 <= i < |ws| ==> shares[i] == Share(ws[i], total)
    ensures Sum(shares) == Share(Sum(ws), total)
  {
    if ws == [] {
    } else {
      var n := |ws| - 1;
      SharesSum(ws[..n], total, shares[..n]);
      ShareAdds(Sum(ws[..n]), ws[n], total);
    }
  }

  lemma ShareAdds(a: real, b: real, total: real)
    requires total > 0.0
    ensures Share(a + b, total) == Share(a, total) + Share(b, total)
  {
  }

  lemma ShareAtMostOne(weight: real, total: real)
    requires weight <= total && total > 0.0
    ensures Share(weight, total) <= 1.0
  {
  }
}

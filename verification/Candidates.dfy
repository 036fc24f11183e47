/** Candidate generation, internal/engine/candidates.go: the cartesian product of replica,
    resource and spot variants, deduplicated, pruned and capped. */
module Candidates {
  import opened Basics
  import opened EngineTypes
  import opened Numbers
  import opened Dominance

  const DEFAULT_MAX_CANDIDATES := 100
  const REPLICA_MULTIPLIERS: seq<real> := [0.5, 0.75, 0.9, 1.0, 1.1, 1.25, 1.5, 2.0]
  const SPOT_RATIOS: seq<real> := [0.0, 0.3, 0.5, 0.8, 1.0]

  // ----- cost tables (internal/cel/functions.go, candidates.go) -----

  function CostRate(instanceType: string, spot: bool): real {
    var price := match instanceType
      case "m5.large" => 0.096
      case "m5.xlarge" => 0.192
      case "m5.2xlarge" => 0.384
      case "c5.large" => 0.085
      case "c5.xlarge" => 0.170
      case "r5.large" => 0.126
      case _ => 0.10;
    if spot then price * 0.3 else price
  }

  function CarbonIntensity(region: string): real {
    match region
    case "us-east-1" => 380.0
    case "us-west-2" => 120.0
    case "eu-west-1" => 300.0
    case "eu-north-1" => 50.0
    case "ap-southeast-1" => 500.0
    case "us-central1" => 450.0
    case _ => 400.0
  }

  /** CPU cores and memory GiB of an instance type. */
  function Capacity(instanceType: string): (real, real) {
    match instanceType
    case "m5.xlarge" => (4.0, 16.0)
    case "m5.2xlarge" => (8.0, 32.0)
    case "c5.large" => (2.0, 4.0)
    case "c5.xlarge" => (4.0, 8.0)
    case "r5.large" => (2.0, 16.0)
    case _ => (2.0, 8.0)
  }

  function ResourceShare(cpu: real, memory: real, instanceType: string): real {
    if cpu <= 0.0 && memory <= 0.0 then 1.0
    else
      var (cores, gib) := Capacity(instanceType);
      var cpuShare := if cores > 0.0 && cpu > 0.0 then cpu / cores else 0.0;
      var memoryShare := if gib > 0.0 && memory > 0.0 then memory / gib else 0.0;
      var share := if cpuShare > memoryShare then cpuShare else memoryShare;
      if share <= 0.0 then 1.0 else share
  }

  function InstanceType(input: SolverInput): string {
    if |input.instanceTypes| > 0 then input.instanceTypes[0] else "m5.large"
  }

  function SpotCount(replicas: int, spot: real): int {
    Round(replicas as real * spot)
  }

  /** A plan for `replicas` with the given resources and spot ratio, with its estimates. */
  function PlanFor(input: SolverInput, replicas: int, cpu: real, memory: real, spot: real): CandidatePlan {
    var spotCount := SpotCount(replicas, spot);
    var onDemand := replicas - spotCount;
    var t := InstanceType(input);
    var share := ResourceShare(cpu, memory, t);
    var cost := Cost(onDemand, spotCount, CostRate(t, false), CostRate(t, true), share);
    CandidatePlan(replicas, cpu, memory, spot, spotCount, onDemand, input.instanceTypes,
                  cost, cost * CarbonIntensity(input.region) * 1.2)
  }

  function Cost(onDemand: int, spot: int, rate: real, spotRate: real, share: real): real {
    onDemand as real * rate * share + spot as real * spotRate * share
  }

  lemma CostOrder(replicas: int, fewer: int, more: int, rate: real, spotRate: real, share: real)
    requires fewer <= more && 0.0 <= spotRate <= rate && share >= 0.0
    ensures Cost(replicas - more, more, rate, spotRate, share) <= Cost(replicas - fewer, fewer, rate, spotRate, share)
  {
    var n, x, y := replicas as real, fewer as real, more as real;
    var a, b := rate * share, spotRate * share;
    assert (rate - spotRate) * share >= 0.0;
    assert a >= b;
    assert (y - x) * (a - b) >= 0.0;
    assert (n - y) * rate * share == (n - y) * a && y * spotRate * share == y * b;
    assert (n - x) * rate * share == (n - x) * a && x * spotRate * share == x * b;
  }

  /** For the same replicas and resources, a higher spot ratio never costs more. */
  lemma MoreSpotNeverCostsMore(input: SolverInput, replicas: int, cpu: real, memory: real, low: real, high: real)
    requires replicas >= 0 && low <= high
    ensures PlanFor(input, replicas, cpu, memory, high).estimatedCost <=
            PlanFor(input, replicas, cpu, memory, low).estimatedCost
  {
    var t := InstanceType(input);
    SpotCountOrder(replicas, low, high);
    RatesOrdered(t);
    ShareNonNegative(cpu, memory, t);
    CostOrder(replicas, SpotCount(replicas, low), SpotCount(replicas, high),
              CostRate(t, false), CostRate(t, true), ResourceShare(cpu, memory, t));
  }

  lemma SpotCountOrder(replicas: int, low: real, high: real)
    requires replicas >= 0 && low <= high
    ensures SpotCount(replicas, low) <= SpotCount(replicas, high)
  {
    var n := replicas as real;
    assert n * (high - low) >= 0.0;
    RoundMonotone(n * low, n * high);
  }

  lemma RatesOrdered(instanceType: string)
    ensures 0.0 <= CostRate(instanceType, true) <= CostRate(instanceType, false)
  {
  }

  lemma ShareNonNegative(cpu: real, memory: real, instanceType: string)
    ensures ResourceShare(cpu, memory, instanceType) >= 0.0
  {
  }

  /** What a pod costs: the larger of its shares of the instance's cores and memory, at the
      instance price, or at three tenths of it on spot. */
  lemma ShareIsLarger(cpu: real, memory: real, instanceType: string)
    requires cpu > 0.0 || memory > 0.0
    ensures var share, cores, gib := ResourceShare(cpu, memory, instanceType), Capacity(instanceType).0,
                                     Capacity(instanceType).1;
      && share >= cpu / cores && share >= memory / gib && (share == cpu / cores || share == memory / gib)
  {
  }

  /** A plan is what it is asked to be, with the spot pods nearest to its ratio. */
  lemma PlanFields(input: SolverInput, replicas: int, cpu: real, memory: real, spot: real)
    ensures var p := PlanFor(input, replicas, cpu, memory, spot);
      && p.replicas == replicas && p.cpuRequest == cpu && p.memoryRequest == memory && p.spotRatio == spot
      && p.instanceTypes == input.instanceTypes && p.spotCount + p.onDemandCount == replicas
      && -0.5 <= p.spotCount as real - replicas as real * spot <= 0.5
  {
    RoundIsNearest(replicas as real * spot);
  }

  /** Its cost is that of its pods, spot ones at three tenths, on the first instance type or
      m5.large; its carbon is the cost times the region's intensity times 1.2. */
  lemma PlanCost(input: SolverInput, replicas: int, cpu: real, memory: real, spot: real)
    ensures var p := PlanFor(input, replicas, cpu, memory, spot);
      var t := if input.instanceTypes == [] then "m5.large" else input.instanceTypes[0];
      var price := Product(CostRate(t, false), ResourceShare(cpu, memory, t));
      && p.estimatedCost == Product(price, p.onDemandCount as real) + 0.3 * Product(price, p.spotCount as real)
      && p.estimatedCarbon == p.estimatedCost * CarbonIntensity(input.region) * 1.2
  {
    var t, spotCount := InstanceType(input), SpotCount(replicas, spot);
    SpotRate(t);
    CostInPrice(replicas - spotCount, spotCount, CostRate(t, false), CostRate(t, true), ResourceShare(cpu, memory, t));
  }

  lemma SpotRate(instanceType: string)
    ensures CostRate(instanceType, true) == CostRate(instanceType, false) * 0.3
  {
  }

  lemma CostInPrice(onDemand: int, spot: int, rate: real, spotRate: real, share: real)
    requires spotRate == rate * 0.3
    ensures Cost(onDemand, spot, rate, spotRate, share) ==
            Product(Product(rate, share), onDemand as real) + 0.3 * Product(Product(rate, share), spot as real)
  {
    var price, x, y := rate * share, onDemand as real, spot as real;
    assert x * rate * share == price * x;
    assert y * (rate * 0.3) * share == 0.3 * (price * y);
  }

  // ----- the product -----

  datatype Key = Key(replicas: int, cpu: real, memory: real, spot: real)

  function ReplicaVariant(input: SolverInput, a: int): int
    requires 0 <= a < |REPLICA_MULTIPLIERS|
  {
    AtLeastOne(Round(AtLeastOne(input.current.replicas) as real * REPLICA_MULTIPLIERS[a]))
  }

  function ResourceVariants(input: SolverInput): (r: seq<(real, real)>)
    ensures 1 <= |r| <= 2
  {
    var own := (input.current.cpuRequest, input.current.memoryRequest);
    if input.rightSizedCPU.Some? && input.rightSizedMemory.Some? &&
       (input.rightSizedCPU.value, input.rightSizedMemory.value) != own
    then [own, (input.rightSizedCPU.value, input.rightSizedMemory.value)]
    else [own]
  }

  function KeyAt(input: SolverInput, a: int, b: int, c: int): Key
    requires 0 <= a < |REPLICA_MULTIPLIERS| && 0 <= b < |ResourceVariants(input)| && 0 <= c < |SPOT_RATIOS|
  {
    var (cpu, memory) := ResourceVariants(input)[b];
    Key(ReplicaVariant(input, a), cpu, memory, SPOT_RATIOS[c])
  }

  function PlanOf(input: SolverInput, k: Key): CandidatePlan {
    PlanFor(input, k.replicas, k.cpu, k.memory, k.spot)
  }

  ghost predicate IsVariant(input: SolverInput, k: Key) {
    exists a, b, c :: 0 <= a < |REPLICA_MULTIPLIERS| && 0 <= b < |ResourceVariants(input)| &&
                      0 <= c < |SPOT_RATIOS| && k == KeyAt(input, a, b, c)
  }

  /** The replica counts tried: the current ones, at least one, times a multiplier, rounded and
      again at least one. */
  lemma ReplicasTried(input: SolverInput, a: int)
    requires 0 <= a < |REPLICA_MULTIPLIERS|
    ensures var current := if input.current.replicas < 1 then 1 else input.current.replicas;
      var r := ReplicaVariant(input, a);
      r >= 1 && (r == 1 || -0.5 <= r as real - current as real * REPLICA_MULTIPLIERS[a] <= 0.5)
  {
    RoundIsNearest(AtLeastOne(input.current.replicas) as real * REPLICA_MULTIPLIERS[a]);
  }

  /** The resources tried: the current ones, then the right-sized ones when both are known. */
  lemma ResourcesTried(input: SolverInput, cpu: real, memory: real)
    ensures ResourceVariants(input)[0] == (input.current.cpuRequest, input.current.memoryRequest)
    ensures (cpu, memory) in ResourceVariants(input) <==>
      || (cpu == input.current.cpuRequest && memory == input.current.memoryRequest)
      || (input.rightSizedCPU == Some(cpu) && input.rightSizedMemory == Some(memory))
    ensures Distinct(ResourceVariants(input))
  {
  }

  /** Every variant combines one of each, and every combination is a variant. */
  lemma VariantsCombine(input: SolverInput, k: Key)
    ensures IsVariant(input, k) <==>
      && (exists a :: 0 <= a < |REPLICA_MULTIPLIERS| && k.replicas == ReplicaVariant(input, a))
      && (k.cpu, k.memory) in ResourceVariants(input) && k.spot in SPOT_RATIOS
  {
    if (exists a :: 0 <= a < |REPLICA_MULTIPLIERS| && k.replicas == ReplicaVariant(input, a)) &&
       (k.cpu, k.memory) in ResourceVariants(input) && k.spot in SPOT_RATIOS {
      var a :| 0 <= a < |REPLICA_MULTIPLIERS| && k.replicas == ReplicaVariant(input, a);
      var b :| 0 <= b < |ResourceVariants(input)| && ResourceVariants(input)[b] == (k.cpu, k.memory);
      var c :| 0 <= c < |SPOT_RATIOS| && SPOT_RATIOS[c] == k.spot;
      assert k == KeyAt(input, a, b, c);
    }
  }

  /** A position of the nested loops. */
  predicate Position(input: SolverInput, a: int, b: int, c: int) {
    && 0 <= a <= |REPLICA_MULTIPLIERS| && 0 <= b <= |ResourceVariants(input)| && 0 <= c <= |SPOT_RATIOS|
    && (a == |REPLICA_MULTIPLIERS| ==> b == 0) && (b == |ResourceVariants(input)| ==> c == 0)
    && (a == |REPLICA_MULTIPLIERS| ==> c == 0)
  }

  /** The distinct keys the loops have met before (a, b, c), in the order of meeting. */
  function KeysBefore(input: SolverInput, a: int, b: int, c: int): seq<Key>
    requires Position(input, a, b, c)
    decreases a, b, c
  {
    if c > 0 then AddKey(KeysBefore(input, a, b, c - 1), KeyAt(input, a, b, c - 1))
    else if b > 0 then KeysBefore(input, a, b - 1, |SPOT_RATIOS|)
    else if a > 0 then KeysBefore(input, a - 1, |ResourceVariants(input)|, 0)
    else []
  }

  function AddKey(keys: seq<Key>, key: Key): seq<Key> {
    if key in keys then keys else keys + [key]
  }

  function PlansOf(input: SolverInput, keys: seq<Key>): seq<CandidatePlan> {
    seq(|keys|, i requires 0 <= i < |keys| => PlanOf(input, keys[i]))
  }

  /** All variants once each: by replica multiplier, then resources, then spot ratio. */
  function Variants(input: SolverInput): seq<CandidatePlan> {
    PlansOf(input, KeysBefore(input, |REPLICA_MULTIPLIERS|, 0, 0))
  }

  method CartesianProduct(input: SolverInput) returns (raw: seq<CandidatePlan>)
    ensures raw == Variants(input)
    ensures forall p :: p in raw <==> exists k :: IsVariant(input, k) && p == PlanOf(input, k)
    ensures Distinct(raw) && |raw| <= 80
  {
    var currentReplicas := AtLeastOne(input.current.replicas);
    var variants := ResourceVariants(input);
    var seen: set<Key> := {};
    ghost var keys: seq<Key> := [];
    raw := [];
    for a := 0 to |REPLICA_MULTIPLIERS|
      invariant keys == KeysBefore(input, a, 0, 0) && Collected(input, seen, raw, keys)
    {
      var replicas := AtLeastOne(Round(currentReplicas as real * REPLICA_MULTIPLIERS[a]));
      for b := 0 to |variants|
        invariant keys == KeysBefore(input, a, b, 0) && Collected(input, seen, raw, keys)
      {
        seen, raw, keys := AddSpotVariants(input, a, b, replicas, variants[b], seen, raw, keys);
      }
    }
    VariantsExactly(input);
  }

  ghost predicate Collected(input: SolverInput, seen: set<Key>, raw: seq<CandidatePlan>, keys: seq<Key>) {
    raw == PlansOf(input, keys) && forall k :: k in seen <==> k in keys
  }

  /** The innermost loop: one replica count, one resource variant, every spot ratio. */
  method AddSpotVariants(input: SolverInput, ghost a: int, ghost b: int, replicas: int, variant: (real, real),
                         seen0: set<Key>, raw0: seq<CandidatePlan>, ghost keys0: seq<Key>)
    returns (seen: set<Key>, raw: seq<CandidatePlan>, ghost keys: seq<Key>)
    requires 0 <= a < |REPLICA_MULTIPLIERS| && 0 <= b < |ResourceVariants(input)|
    requires replicas == ReplicaVariant(input, a) && variant == ResourceVariants(input)[b]
    requires keys0 == KeysBefore(input, a, b, 0) && Collected(input, seen0, raw0, keys0)
    ensures keys == KeysBefore(input, a, b + 1, 0) && Collected(input, seen, raw, keys)
  {
    seen, raw, keys := seen0, raw0, keys0;
    for c := 0 to |SPOT_RATIOS|
      invariant keys == KeysBefore(input, a, b, c) && Collected(input, seen, raw, keys)
    {
      var key := Key(replicas, variant.0, variant.1, SPOT_RATIOS[c]);
      assert key == KeyAt(input, a, b, c);
      if key !in seen {
        seen := seen + {key};
        raw := raw + [PlanOf(input, key)];
      }
      keys := AddKey(keys, key);
    }
  }

  /** The triples the loops have finished when they stand at (a, b, c). */
  predicate Passed(i: int, j: int, k: int, a: int, b: int, c: int) {
    i < a || (i == a && (j < b || (j == b && k < c)))
  }

  ghost predicate HasPassed(input: SolverInput, keys: seq<Key>, a: int, b: int, c: int) {
    forall i, j, k | 0 <= i < |REPLICA_MULTIPLIERS| && 0 <= j < |ResourceVariants(input)| && 0 <= k < |SPOT_RATIOS| ::
      Passed(i, j, k, a, b, c) ==> KeyAt(input, i, j, k) in keys
  }

  lemma {:induction false} KeysExactly(input: SolverInput, a: int, b: int, c: int)
    requires Position(input, a, b, c)
    ensures var keys := KeysBefore(input, a, b, c);
      && Distinct(keys)
      && HasPassed(input, keys, a, b, c) && forall k :: k in keys ==> IsVariant(input, k)
    decreases a, b, c
  {
    if c > 0 {
      KeysExactly(input, a, b, c - 1);
      KeyAdded(input, KeysBefore(input, a, b, c - 1), a, b, c - 1);
    } else if b > 0 {
      KeysExactly(input, a, b - 1, |SPOT_RATIOS|);
      InnerLoopDone(input, KeysBefore(input, a, b, 0), a, b);
    } else if a > 0 {
      KeysExactly(input, a - 1, |ResourceVariants(input)|, 0);
      MiddleLoopDone(input, KeysBefore(input, a, 0, 0), a);
    } else {
    }
  }

  lemma InnerLoopDone(input: SolverInput, keys: seq<Key>, a: int, b: int)
    requires HasPassed(input, keys, a, b - 1, |SPOT_RATIOS|)
    ensures HasPassed(input, keys, a, b, 0)
  {
  }

  lemma MiddleLoopDone(input: SolverInput, keys: seq<Key>, a: int)
    requires HasPassed(input, keys, a - 1, |ResourceVariants(input)|, 0)
    ensures HasPassed(input, keys, a, 0, 0)
  {
  }

  lemma {:induction false} KeysAreFew(input: SolverInput, a: int, b: int, c: int)
    requires Position(input, a, b, c)
    ensures |KeysBefore(input, a, b, c)| <= a * 10 + b * 5 + c
    decreases a, b, c
  {
    if c > 0 {
      KeysAreFew(input, a, b, c - 1);
    } else if b > 0 {
      KeysAreFew(input, a, b - 1, |SPOT_RATIOS|);
    } else if a > 0 {
      KeysAreFew(input, a - 1, |ResourceVariants(input)|, 0);
    } else {
    }
  }

  lemma KeyAdded(input: SolverInput, keys: seq<Key>, a: int, b: int, c: int)
    requires 0 <= a < |REPLICA_MULTIPLIERS| && 0 <= b < |ResourceVariants(input)| && 0 <= c < |SPOT_RATIOS|
    requires Distinct(keys) && HasPassed(input, keys, a, b, c) && forall k :: k in keys ==> IsVariant(input, k)
    ensures var more := AddKey(keys, KeyAt(input, a, b, c));
      && Distinct(more)
      && HasPassed(input, more, a, b, c + 1) && forall k :: k in more ==> IsVariant(input, k)
  {
    var key := KeyAt(input, a, b, c);
    assert IsVariant(input, key);
    assert forall k :: k in AddKey(keys, key) <==> k in keys || k == key;
  }

  /** The variants are exactly the plans of the cartesian product, without repetition. */
  lemma VariantsExactly(input: SolverInput)
    ensures forall p :: p in Variants(input) <==> exists k :: IsVariant(input, k) && p == PlanOf(input, k)
    ensures Distinct(Variants(input)) && |Variants(input)| <= 80
  {
    var keys := KeysBefore(input, |REPLICA_MULTIPLIERS|, 0, 0);
    KeysExactly(input, |REPLICA_MULTIPLIERS|, 0, 0);
    KeysAreFew(input, |REPLICA_MULTIPLIERS|, 0, 0);
    forall p
      ensures p in Variants(input) <==> exists k :: IsVariant(input, k) && p == PlanOf(input, k)
    {
      if k :| IsVariant(input, k) && p == PlanOf(input, k) {
        assert k in keys;
        var i :| 0 <= i < |keys| && keys[i] == k;
        assert Variants(input)[i] == p;
      }
    }
  }

  // ----- pruning and capping -----

  /** a makes b pointless: fewer replicas, cheaper and less spot exposure. */
  predicate Dominates(a: CandidatePlan, b: CandidatePlan) {
    a.replicas < b.replicas && a.estimatedCost < b.estimatedCost && a.spotRatio < b.spotRatio
  }

  /** What pruning drops, in numbers: a variant goes exactly when another one has fewer replicas,
      costs less and has a lower spot ratio. */
  lemma PrunedInNumbers(input: SolverInput, k: Key)
    requires IsVariant(input, k)
    ensures !IsCandidate(input, PlanOf(input, k)) <==>
      exists other :: IsVariant(input, other) && other.replicas < k.replicas && other.spot < k.spot &&
                      PlanOf(input, other).estimatedCost < PlanOf(input, k).estimatedCost
  {
    if IsCandidate(input, PlanOf(input, k)) {
      forall other | IsVariant(input, other)
        ensures !Dominates(PlanOf(input, other), PlanOf(input, k))
      {
      }
    } else {
      var other :| IsVariant(input, other) && Dominates(PlanOf(input, other), PlanOf(input, k));
    }
  }

  method PruneDominated(candidates: seq<CandidatePlan>) returns (result: seq<CandidatePlan>)
    ensures result == Undominated(candidates, Dominates)
  {
    result := KeepUndominated(candidates, Dominates);
  }

  ghost predicate IsPermutation(perm: seq<int>, n: nat) {
    && |perm| == n
    && (forall i :: 0 <= i < n ==> 0 <= perm[i] < n)
    && (forall i, j :: 0 <= i < j < n ==> perm[i] != perm[j])
  }

  /** The first n entries of a random permutation; `perm` is what the generator returned. */
  method SampleUniform(candidates: seq<CandidatePlan>, n: nat, perm: seq<int>) returns (result: seq<CandidatePlan>)
    requires IsPermutation(perm, |candidates|)
    ensures n >= |candidates| ==> result == candidates
    ensures n < |candidates| ==> |result| == n && forall i :: 0 <= i < n ==> result[i] == candidates[perm[i]]
  {
    if n >= |candidates| {
      return candidates;
    }
    result := [];
    for i := 0 to n
      invariant |result| == i && forall k :: 0 <= k < i ==> result[k] == candidates[perm[k]]
    {
      result := result + [candidates[perm[i]]];
    }
  }

  /** A plan the generator may offer: a variant that no variant dominates. */
  ghost predicate IsCandidate(input: SolverInput, p: CandidatePlan) {
    exists k :: IsVariant(input, k) && p == PlanOf(input, k) &&
                forall other :: IsVariant(input, other) ==> !Dominates(PlanOf(input, other), p)
  }

  /** The undominated variants, in the order of the variants. */
  ghost function Pruned(input: SolverInput): seq<CandidatePlan> {
    Undominated(Variants(input), Dominates)
  }

  function Cap(maxCandidates: int): (cap: nat)
    ensures cap > 0 && (maxCandidates > 0 ==> cap == maxCandidates) && (maxCandidates <= 0 ==> cap == 100)
  {
    if maxCandidates <= 0 then DEFAULT_MAX_CANDIDATES else maxCandidates
  }

  /** What the generator promises in any case: different undominated variants, some, as many as
      the cap allows at most, and all of them from a cap of 80 on. */
  ghost predicate Generated(input: SolverInput, maxCandidates: int, plans: seq<CandidatePlan>) {
    && Distinct(plans) && plans != [] && |plans| <= Cap(maxCandidates)
    && (forall p :: p in plans ==> IsCandidate(input, p))
    && (Cap(maxCandidates) >= 80 ==> forall p :: IsCandidate(input, p) ==> p in plans)
  }

  ghost predicate Sampled(plans: seq<CandidatePlan>, all: seq<CandidatePlan>, perm: seq<int>) {
    |plans| <= |perm| && forall i :: 0 <= i < |plans| ==> 0 <= perm[i] < |all| && plans[i] == all[perm[i]]
  }

  /** `perm` stands for rand.Perm, which picks the plans when the cap binds. */
  method GenerateCandidates(input: SolverInput, maxCandidates: int, perm: nat -> seq<int>)
    returns (result: seq<CandidatePlan>)
    requires forall n :: IsPermutation(perm(n), n)
    ensures Generated(input, maxCandidates, result)
    ensures |Pruned(input)| <= Cap(maxCandidates) ==> result == Pruned(input)
    ensures |Pruned(input)| > Cap(maxCandidates) ==>
      |result| == Cap(maxCandidates) && Sampled(result, Pruned(input), perm(|Pruned(input)|))
  {
    var limit := if maxCandidates <= 0 then DEFAULT_MAX_CANDIDATES else maxCandidates;
    var raw := CartesianProduct(input);
    var pruned := PruneDominated(raw);
    PrunedExactly(input, raw, pruned);
    PrunedShape(raw, DominatedMarks(raw, Dominates));
    result := pruned;
    if |pruned| > limit {
      result := SampleUniform(pruned, limit, perm(|pruned|));
    }
  }

  /** While the cap does not bind the list is complete, and from 80 on it never binds. */
  lemma PrunedIsComplete(input: SolverInput)
    ensures forall p :: p in Pruned(input) <==> IsCandidate(input, p)
    ensures 1 <= |Pruned(input)| <= 80
  {
    VariantsExactly(input);
    PrunedExactly(input, Variants(input), Pruned(input));
    PrunedShape(Variants(input), DominatedMarks(Variants(input), Dominates));
  }

  lemma PlanDominanceIsStrictOrder()
    ensures StrictOrder(Dominates)
  {
  }

  lemma PrunedExactly(input: SolverInput, raw: seq<CandidatePlan>, pruned: seq<CandidatePlan>)
    requires forall p :: p in raw <==> exists k :: IsVariant(input, k) && p == PlanOf(input, k)
    requires pruned == Undominated(raw, Dominates)
    ensures forall p :: p in pruned <==> IsCandidate(input, p)
    ensures pruned != []
  {
    PlanDominanceIsStrictOrder();
    UndominatedExactly(raw, Dominates);
    assert IsVariant(input, KeyAt(input, 0, 0, 0));
    assert PlanOf(input, KeyAt(input, 0, 0, 0)) in raw;
    forall p
      ensures p in pruned <==> IsCandidate(input, p)
    {
      if p in pruned {
        forall other | IsVariant(input, other)
          ensures !Dominates(PlanOf(input, other), p)
        {
          assert PlanOf(input, other) in raw;
        }
      }
    }
  }

  lemma {:induction false} PrunedShape<T>(xs: seq<T>, marks: seq<bool>)
    requires |marks| == |xs| && Distinct(xs)
    ensures |Unmarked(xs, marks)| <= |xs| && Distinct(Unmarked(xs, marks))
    ensures forall x :: x in Unmarked(xs, marks) ==> x in xs
  {
    if xs == [] {
    } else {
      var n := |xs| - 1;
      PrunedShape(xs[..n], marks[..n]);
      assert forall x :: x in xs[..n] ==> x in xs && x != xs[n];
      var before := Unmarked(xs[..n], marks[..n]);
      assert forall i :: 0 <= i < |before| ==> before[i] in before;
    }
  }

  /** Spot-free variants are never pruned, since nothing has a smaller spot ratio. */
  lemma SpotFreeSurvives(input: SolverInput, k: Key)
    requires IsVariant(input, k) && k.spot == 0.0
    ensures IsCandidate(input, PlanOf(input, k))
  {
  }

  /** Every candidate has a replica and at most twice the current ones, and its spot and
      on-demand pods add up to its replicas. */
  lemma CandidateShape(input: SolverInput, p: CandidatePlan)
    requires IsCandidate(input, p)
    ensures 1 <= p.replicas <= 2 * AtLeastOne(input.current.replicas)
    ensures p.spotCount >= 0 && p.onDemandCount >= 0 && p.spotCount + p.onDemandCount == p.replicas
    ensures p.spotRatio in SPOT_RATIOS
  {
    var k :| IsVariant(input, k) && p == PlanOf(input, k);
    VariantShape(input, k);
  }

  lemma VariantShape(input: SolverInput, k: Key)
    requires IsVariant(input, k)
    ensures var p := PlanOf(input, k);
      && 1 <= p.replicas <= 2 * AtLeastOne(input.current.replicas) && p.spotRatio in SPOT_RATIOS
      && p.spotCount >= 0 && p.onDemandCount >= 0 && p.spotCount + p.onDemandCount == p.replicas
  {
    VariantBounds(input, k);
    SpotCountInRange(k.replicas, k.spot);
  }

  lemma VariantBounds(input: SolverInput, k: Key)
    requires IsVariant(input, k)
    ensures 1 <= k.replicas <= 2 * AtLeastOne(input.current.replicas)
    ensures k.spot in SPOT_RATIOS && 0.0 <= k.spot <= 1.0
  {
    var a, b, c :| 0 <= a < |REPLICA_MULTIPLIERS| && 0 <= b < |ResourceVariants(input)| &&
                   0 <= c < |SPOT_RATIOS| && k == KeyAt(input, a, b, c);
    ReplicasBounded(input, a);
  }

  lemma ReplicasBounded(input: SolverInput, a: int)
    requires 0 <= a < |REPLICA_MULTIPLIERS|
    ensures 1 <= ReplicaVariant(input, a) <= 2 * AtLeastOne(input.current.replicas)
  {
    AtMostDouble(AtLeastOne(input.current.replicas), REPLICA_MULTIPLIERS[a]);
  }

  lemma AtMostDouble(n: int, multiplier: real)
    requires n >= 1 && multiplier <= 2.0
    ensures Round(n as real * multiplier) <= 2 * n
  {
    assert n as real * (2.0 - multiplier) >= 0.0;
    RoundMonotone(n as real * multiplier, (2 * n) as real);
  }

  lemma SpotCountInRange(replicas: int, spot: real)
    requires replicas >= 0 && 0.0 <= spot <= 1.0
    ensures 0 <= SpotCount(replicas, spot) <= replicas
  {
    var n := replicas as real;
    assert 0.0 <= n * spot;
    assert n * (1.0 - spot) >= 0.0;
    RoundMonotone(0.0, n * spot);
    RoundMonotone(n * spot, n);
  }

  // ----- forecast-driven candidates -----

  const PRE_WARMING_MULTIPLIERS: seq<real> := [1.3, 1.5]
  const SPOT_REDUCTION_RATIOS: seq<real> := [0.0, 0.3]
  const PRE_WARMING_CHANGE_THRESHOLD := 15.0
  const SPOT_RISK_THRESHOLD := 0.6

  /** The plan for more replicas, unless rounding does not increase them. */
  function WarmedBy(input: SolverInput, multiplier: real): seq<CandidatePlan> {
    var current := AtLeastOne(input.current.replicas);
    var replicas := WarmReplicas(current, multiplier);
    if replicas > current
    then [PlanFor(input, replicas, input.current.cpuRequest, input.current.memoryRequest, input.current.spotRatio)]
    else []
  }

  function WarmReplicas(current: int, multiplier: real): int {
    Round(current as real * multiplier)
  }

  /** The plan for a lower spot ratio, unless the ratio is not lower. */
  function ReducedTo(input: SolverInput, ratio: real): seq<CandidatePlan> {
    if ratio < input.current.spotRatio
    then [PlanFor(input, AtLeastOne(input.current.replicas), input.current.cpuRequest, input.current.memoryRequest,
                  ratio)]
    else []
  }

  method PreWarmingCandidates(input: SolverInput) returns (result: seq<CandidatePlan>)
    ensures result == WarmedBy(input, 1.3) + WarmedBy(input, 1.5)
    ensures forall p :: p in result ==> WarmShape(input, p)
  {
    var currentReplicas := AtLeastOne(input.current.replicas);
    result := [];
    for i := 0 to |PRE_WARMING_MULTIPLIERS|
      invariant i == 0 ==> result == []
      invariant i == 1 ==> result == WarmedBy(input, 1.3)
      invariant i == 2 ==> result == WarmedBy(input, 1.3) + WarmedBy(input, 1.5)
    {
      var replicas := WarmReplicas(currentReplicas, PRE_WARMING_MULTIPLIERS[i]);
      if replicas > currentReplicas {
        result := result + [PlanFor(input, replicas, input.current.cpuRequest, input.current.memoryRequest,
                                    input.current.spotRatio)];
      }
    }
    WarmedShape(input, 1.3);
    WarmedShape(input, 1.5);
  }

  lemma WarmedShape(input: SolverInput, multiplier: real)
    requires multiplier <= 2.0
    ensures forall p :: p in WarmedBy(input, multiplier) ==> WarmShape(input, p)
  {
    AtMostDouble(AtLeastOne(input.current.replicas), multiplier);
  }

  /** A multiplier gives the nearest replica count; it is an increase from half a replica on. */
  lemma WarmedNearest(current: nat, multiplier: real)
    ensures -0.5 <= WarmReplicas(current, multiplier) as real - current as real * multiplier <= 0.5
    ensures WarmReplicas(current, multiplier) > current <==> current as real * multiplier >= current as real + 0.5
  {
    var multiple := current as real * multiplier;
    RoundIsNearest(multiple);
    RoundAbove(multiple, current);
  }

  /** The plan of a multiplier is for that count, when it is an increase. */
  lemma WarmedExactly(input: SolverInput, multiplier: real)
    ensures var current := if input.current.replicas < 1 then 1 else input.current.replicas;
      && (WarmedBy(input, multiplier) == [] <==> WarmReplicas(current, multiplier) <= current)
      && forall p :: p in WarmedBy(input, multiplier) ==> p.replicas == WarmReplicas(current, multiplier)
  {
  }

  lemma ReducedShapes(input: SolverInput, ratio: real)
    requires 0.0 <= ratio <= 1.0
    ensures forall p :: p in ReducedTo(input, ratio) ==> ReducedShape(input, p) && p.spotRatio == ratio
    ensures ReducedTo(input, ratio) == [] <==> input.current.spotRatio <= ratio
  {
    SpotCountInRange(AtLeastOne(input.current.replicas), ratio);
  }

  /** More replicas than now, up to twice as many, at the current spot ratio. */
  predicate WarmShape(input: SolverInput, p: CandidatePlan) {
    && AtLeastOne(input.current.replicas) < p.replicas <= 2 * AtLeastOne(input.current.replicas)
    && p.spotRatio == input.current.spotRatio && p.spotCount + p.onDemandCount == p.replicas
    && p.cpuRequest == input.current.cpuRequest && p.memoryRequest == input.current.memoryRequest
  }

  method SpotReductionCandidates(input: SolverInput) returns (result: seq<CandidatePlan>)
    ensures result == ReducedTo(input, 0.0) + ReducedTo(input, 0.3)
    ensures forall p :: p in result ==> ReducedShape(input, p)
  {
    var currentReplicas := AtLeastOne(input.current.replicas);
    result := [];
    for i := 0 to |SPOT_REDUCTION_RATIOS|
      invariant i == 0 ==> result == []
      invariant i == 1 ==> result == ReducedTo(input, 0.0)
      invariant i == 2 ==> result == ReducedTo(input, 0.0) + ReducedTo(input, 0.3)
    {
      if SPOT_REDUCTION_RATIOS[i] < input.current.spotRatio {
        result := result + [PlanFor(input, currentReplicas, input.current.cpuRequest, input.current.memoryRequest,
                                    SPOT_REDUCTION_RATIOS[i])];
      }
    }
    ReducedShapes(input, 0.0);
    ReducedShapes(input, 0.3);
  }

  /** The current replicas with less spot exposure, and counts that are not negative. */
  predicate ReducedShape(input: SolverInput, p: CandidatePlan) {
    && p.replicas == AtLeastOne(input.current.replicas) && p.spotRatio < input.current.spotRatio
    && p.spotCount >= 0 && p.onDemandCount >= 0 && p.spotCount + p.onDemandCount == p.replicas
    && p.cpuRequest == input.current.cpuRequest && p.memoryRequest == input.current.memoryRequest
  }

  // ----- everything a cycle offers -----

  function PreWarming(input: SolverInput): seq<CandidatePlan> {
    if input.forecast.Some? && input.forecast.value.changePercent > PRE_WARMING_CHANGE_THRESHOLD
    then WarmedBy(input, 1.3) + WarmedBy(input, 1.5) else []
  }

  function SpotReduction(input: SolverInput): seq<CandidatePlan> {
    if input.forecast.Some? && input.forecast.value.spotRiskScore > SPOT_RISK_THRESHOLD
    then ReducedTo(input, 0.0) + ReducedTo(input, 0.3) else []
  }

  /** The generated candidates followed by exactly the forecast-driven ones. */
  ghost predicate Offered(input: SolverInput, maxCandidates: int, plans: seq<CandidatePlan>) {
    exists generated :: Generated(input, maxCandidates, generated) &&
                        plans == generated + PreWarming(input) + SpotReduction(input)
  }

  /** And in that order, while the cap does not bind. */
  ghost predicate OfferedInOrder(input: SolverInput, maxCandidates: int, plans: seq<CandidatePlan>) {
    |Pruned(input)| <= Cap(maxCandidates) ==> plans == Pruned(input) + PreWarming(input) + SpotReduction(input)
  }

  predicate InRange(input: SolverInput, p: CandidatePlan) {
    1 <= p.replicas <= 2 * AtLeastOne(input.current.replicas)
  }

  /** Every offered plan is a candidate or an injected one, every injected one is offered,
      and all have between one and twice the current replicas. */
  lemma OfferedExactly(input: SolverInput, maxCandidates: int, plans: seq<CandidatePlan>)
    requires Offered(input, maxCandidates, plans)
    ensures forall p :: p in plans ==> IsCandidate(input, p) || p in PreWarming(input) || p in SpotReduction(input)
    ensures forall p :: p in PreWarming(input) || p in SpotReduction(input) ==> p in plans
    ensures Cap(maxCandidates) >= 80 ==> forall p :: IsCandidate(input, p) ==> p in plans
    ensures forall p :: p in PreWarming(input) ==> WarmShape(input, p)
    ensures forall p :: p in SpotReduction(input) ==> ReducedShape(input, p)
    ensures forall p :: p in plans ==> InRange(input, p) && p.spotCount + p.onDemandCount == p.replicas
  {
    InjectedShapes(input);
    forall p | p in plans
      ensures InRange(input, p) && p.spotCount + p.onDemandCount == p.replicas
    {
      if IsCandidate(input, p) {
        CandidateShape(input, p);
      }
    }
  }

  /** What triggers an injection: a forecast change above 15% asks for more replicas, a spot risk
      above 0.6 for less spot. */
  lemma InjectionTriggers(input: SolverInput)
    ensures PreWarming(input) == if input.forecast.Some? && input.forecast.value.changePercent > 15.0
                                 then WarmedBy(input, 1.3) + WarmedBy(input, 1.5) else []
    ensures SpotReduction(input) == if input.forecast.Some? && input.forecast.value.spotRiskScore > 0.6
                                    then ReducedTo(input, 0.0) + ReducedTo(input, 0.3) else []
  {
  }

  lemma InjectedShapes(input: SolverInput)
    ensures forall p :: p in PreWarming(input) ==> WarmShape(input, p)
    ensures forall p :: p in SpotReduction(input) ==> ReducedShape(input, p)
  {
    WarmedShape(input, 1.3);
    WarmedShape(input, 1.5);
    ReducedShapes(input, 0.0);
    ReducedShapes(input, 0.3);
  }
}

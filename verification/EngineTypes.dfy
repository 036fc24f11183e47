/** Values shared by the optimization engine (internal/engine/types.go, internal/cel/types.go). */
module EngineTypes {
  import opened Basics

  datatype CandidatePlan = CandidatePlan(
    replicas: int,
    cpuRequest: real,
    memoryRequest: real,
    spotRatio: real,
    spotCount: int,
    onDemandCount: int,
    instanceTypes: seq<string>,
    estimatedCost: real,
    estimatedCarbon: real)

  datatype CurrentState = CurrentState(
    replicas: int,
    cpuRequest: real,
    memoryRequest: real,
    cpuUsage: real,
    spotRatio: real)

  datatype SLOStatus = SLOStatus(
    compliant: bool,
    burnRate: real,
    budgetRemaining: real,
    latencyP99: real,
    errorRate: real,
    availability: real,
    throughput: real)

  datatype TenantStatus = TenantStatus(currentCores: real, guaranteedCores: real, maxCores: real)

  datatype ForecastResult = ForecastResult(predictedRPS: real, changePercent: real, spotRiskScore: real)

  datatype PolicyObjective = PolicyObjective(name: string, weight: real)

  datatype MatchedPolicy = MatchedPolicy(
    key: string,
    name: string,
    dryRun: bool,
    objectives: seq<PolicyObjective>)

  datatype SolverInput = SolverInput(
    current: CurrentState,
    slo: SLOStatus,
    policies: seq<MatchedPolicy>,
    tenant: Option<TenantStatus>,
    forecast: Option<ForecastResult>,
    instanceTypes: seq<string>,
    region: string,
    rightSizedCPU: Option<real>,
    rightSizedMemory: Option<real>)

  datatype CandidateScore = CandidateScore(slo: real, cost: real, carbon: real, fairness: real, weighted: real)

  datatype ConstraintResult = ConstraintResult(
    expr: string,
    reason: string,
    hard: bool,
    passed: bool,
    policyName: string)

  datatype ScoredCandidate = ScoredCandidate(
    plan: CandidatePlan,
    score: CandidateScore,
    constraints: seq<ConstraintResult>,
    viable: bool)

  datatype ActionType = ScaleUp | ScaleDown | Tune | NoAction

  datatype ScalingAction = ScalingAction(
    actionType: ActionType,
    targetReplica: int,
    cpuRequest: real,
    memoryRequest: real,
    spotRatio: real,
    dryRun: bool,
    confidence: real)
}

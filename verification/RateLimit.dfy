/** Per-step rate limits from policy to Deployment: buildActuationOptions in
    internal/controller/optimizer_controller.go, and applyMaxChange, the replica floor and the
    Deployment write in internal/actuator/pod_actuator.go. */
module RateLimit {
  import opened Basics
  import opened EngineTypes
  import opened Numbers

  datatype ScalingRule = ScalingRule(maxPercent: int, cooldownSeconds: int)

  datatype ScalingBehavior = ScalingBehavior(scaleUp: Option<ScalingRule>, scaleDown: Option<ScalingRule>)

  /** A policy as far as scaling behaviour goes. */
  type Policy = Option<ScalingBehavior>

  datatype ActuationOptions = ActuationOptions(dryRun: bool, maxChange: real, cooldownSeconds: int)

  // ----- merging the policies -----

  function RuleFor(kind: ActionType, p: Policy): Option<ScalingRule> {
    if p.None? then None
    else match kind
      case ScaleUp => p.value.scaleUp
      case ScaleDown => p.value.scaleDown
      case Tune => None
      case NoAction => None
  }

  /** A rule of one of the policies applies to this kind of action. */
  ghost predicate Matched(kind: ActionType, policies: seq<Policy>, rule: ScalingRule) {
    exists p :: p in policies && RuleFor(kind, p) == Some(rule)
  }

  function Fraction(rule: ScalingRule): real {
    rule.maxPercent as real / 100.0
  }

  /** The tightest limit and the longest cooldown among the matched rules. */
  ghost predicate Tightest(kind: ActionType, policies: seq<Policy>, opts: ActuationOptions) {
    && opts.maxChange >= 0.0 && opts.cooldownSeconds >= 0
    && (forall r :: Matched(kind, policies, r) && r.maxPercent > 0 ==> 0.0 < opts.maxChange <= Fraction(r))
    && (opts.maxChange > 0.0 ==>
      exists r :: Matched(kind, policies, r) && r.maxPercent > 0 && opts.maxChange == Fraction(r))
    && (forall r :: Matched(kind, policies, r) ==> r.cooldownSeconds <= opts.cooldownSeconds)
    && (opts.cooldownSeconds > 0 ==>
      exists r :: Matched(kind, policies, r) && opts.cooldownSeconds == r.cooldownSeconds)
  }

  method BuildActuationOptions(kind: ActionType, dryRun: bool, policies: seq<Policy>) returns (opts: ActuationOptions)
    ensures opts.dryRun == dryRun
    ensures Tightest(kind, policies, opts)
  {
    opts := ActuationOptions(dryRun, 0.0, 0);
    for i := 0 to |policies|
      invariant opts.dryRun == dryRun
      invariant Tightest(kind, policies[..i], opts)
    {
      assert policies[..i + 1] == policies[..i] + [policies[i]];
      opts := MergePolicy(kind, policies[..i], policies[i], opts);
    }
    assert policies[..|policies|] == policies;
  }

  method MergePolicy(kind: ActionType, ghost before: seq<Policy>, p: Policy, opts: ActuationOptions)
    returns (merged: ActuationOptions)
    requires Tightest(kind, before, opts)
    ensures merged.dryRun == opts.dryRun && Tightest(kind, before + [p], merged)
  {
    merged := opts;
    var rule := RuleFor(kind, p);
    if rule.None? {
      MergeNone(kind, before, p, opts);
      return;
    }
    if rule.value.maxPercent > 0 {
      var maxChange := Fraction(rule.value);
      if opts.maxChange == 0.0 || maxChange < opts.maxChange {
        merged := merged.(maxChange := maxChange);
      }
    }
    if rule.value.cooldownSeconds > opts.cooldownSeconds {
      merged := merged.(cooldownSeconds := rule.value.cooldownSeconds);
    }
    MergeOne(kind, before, p, rule.value, opts, merged);
  }

  lemma MergeNone(kind: ActionType, policies: seq<Policy>, p: Policy, opts: ActuationOptions)
    requires Tightest(kind, policies, opts) && RuleFor(kind, p).None?
    ensures Tightest(kind, policies + [p], opts)
  {
  }

  lemma MergeOne(kind: ActionType, policies: seq<Policy>, p: Policy, rule: ScalingRule,
                 was: ActuationOptions, opts: ActuationOptions)
    requires Tightest(kind, policies, was) && RuleFor(kind, p) == Some(rule)
    requires opts.maxChange == (if rule.maxPercent > 0 && (was.maxChange == 0.0 || Fraction(rule) < was.maxChange)
                                then Fraction(rule) else was.maxChange)
    requires opts.cooldownSeconds == (if rule.cooldownSeconds > was.cooldownSeconds
                                      then rule.cooldownSeconds else was.cooldownSeconds)
    ensures Tightest(kind, policies + [p], opts)
  {
  }

  /** The merged options do not depend on the order of the policies. */
  lemma OrderIndependent(kind: ActionType, a: seq<Policy>, b: seq<Policy>, x: ActuationOptions, y: ActuationOptions)
    requires multiset(a) == multiset(b) && Tightest(kind, a, x) && Tightest(kind, b, y)
    ensures x.maxChange == y.maxChange && x.cooldownSeconds == y.cooldownSeconds
  {
    forall p
      ensures p in a <==> p in b
    {
      assert p in multiset(a) <==> p in multiset(b);
    }
    forall r
      ensures Matched(kind, a, r) <==> Matched(kind, b, r)
    {
    }
    if x.maxChange > 0.0 {
      var r :| Matched(kind, a, r) && r.maxPercent > 0 && x.maxChange == Fraction(r);
      assert Matched(kind, b, r);
    }
    if y.maxChange > 0.0 {
      var r :| Matched(kind, b, r) && r.maxPercent > 0 && y.maxChange == Fraction(r);
      assert Matched(kind, a, r);
    }
  }

  // ----- one write -----

  function ApplyMaxChange(current: int, target: int, maxChange: real): int {
    if maxChange <= 0.0 || current == 0 then target
    else
      var truncated := Truncate(current as real * maxChange);
      var maxDelta := if truncated < 1 then 1 else truncated;
      if target > current + maxDelta then current + maxDelta
      else if target < current - maxDelta then current - maxDelta
      else target
  }

  /** The target after the replica floor. */
  function Floored(target: int, minReplicas: int): (t: int)
    ensures t >= 1 && t >= minReplicas && t >= target && (t == target || t == 1 || t == minReplicas)
  {
    var min := if minReplicas < 1 then 1 else minReplicas;
    if target < min then min else target
  }

  predicate Between(x: int, a: int, b: int) {
    (a <= x <= b) || (b <= x <= a)
  }

  /** The write is the furthest one allowed: nothing between the current count and the target
      that keeps the limit is closer to the target. Without a limit, or from no replicas, it is
      the target itself. */
  lemma WrittenIsFurthest(n: int, target: int, maxChange: real, m: int)
    requires n >= 0
    ensures maxChange <= 0.0 || n == 0 ==> ApplyMaxChange(n, target, maxChange) == target
    ensures n >= 1 && maxChange > 0.0 && Between(m, n, target) &&
            (Distance(m, n) <= 1 || Distance(m, n) as real <= n as real * maxChange) ==>
      Distance(ApplyMaxChange(n, target, maxChange), target) <= Distance(m, target)
  {
    TruncateTowardsZero(n as real * maxChange);
  }

  /** The rules that apply: those for scaling up to an increase, those for scaling down to a
      decrease, and none to anything else. */
  lemma MatchedExactly(policies: seq<Policy>, rule: ScalingRule)
    ensures Matched(ScaleUp, policies, rule) <==> exists p :: p in policies && p.Some? && p.value.scaleUp == Some(rule)
    ensures Matched(ScaleDown, policies, rule) <==>
      exists p :: p in policies && p.Some? && p.value.scaleDown == Some(rule)
    ensures !Matched(Tune, policies, rule) && !Matched(NoAction, policies, rule)
  {
  }

  /** End-to-end rate limit: from at least one replica, the written count is within every
      matched rule's bound, lies between the current count and the floored target, and is
      strictly closer to that target unless it is there already. */
  lemma WrittenWithinRules(kind: ActionType, policies: seq<Policy>, opts: ActuationOptions, n: int, target: int,
                           minReplicas: int)
    requires Tightest(kind, policies, opts) && n >= 1
    ensures var written := ApplyMaxChange(n, Floored(target, minReplicas), opts.maxChange);
      && written >= 1
      && Between(written, n, Floored(target, minReplicas))
      && (n != Floored(target, minReplicas) ==>
            Distance(written, Floored(target, minReplicas)) < Distance(n, Floored(target, minReplicas)))
      && (forall r :: Matched(kind, policies, r) && r.maxPercent > 0 ==>
            Distance(written, n) <= 1 || Distance(written, n) * 100 <= n * r.maxPercent)
  {
    var t := Floored(target, minReplicas);
    StepCloser(n, t, opts.maxChange);
    forall r | Matched(kind, policies, r) && r.maxPercent > 0
      ensures Distance(ApplyMaxChange(n, t, opts.maxChange), n) <= 1 ||
              Distance(ApplyMaxChange(n, t, opts.maxChange), n) * 100 <= n * r.maxPercent
    {
      RuleKept(n, t, opts.maxChange, r);
    }
  }

  /** A replica count that every matched rule allows: one step, or within its percentage. */
  ghost predicate RulesAllow(kind: ActionType, policies: seq<Policy>, n: int, m: int) {
    forall r :: Matched(kind, policies, r) && r.maxPercent > 0 ==>
      Distance(m, n) <= 1 || Distance(m, n) * 100 <= n * r.maxPercent
  }

  /** And it goes as far as the rules allow: no count between the current one and the floored
      target that they all allow is closer to that target. */
  lemma FurthestWithinRules(kind: ActionType, policies: seq<Policy>, opts: ActuationOptions, n: int, target: int,
                            minReplicas: int, m: int)
    requires Tightest(kind, policies, opts) && n >= 1
    requires Between(m, n, Floored(target, minReplicas)) && RulesAllow(kind, policies, n, m)
    ensures var t := Floored(target, minReplicas);
      Distance(ApplyMaxChange(n, t, opts.maxChange), t) <= Distance(m, t)
  {
    if opts.maxChange > 0.0 {
      AllowedByLimit(kind, policies, opts, n, m);
    }
    WrittenIsFurthest(n, Floored(target, minReplicas), opts.maxChange, m);
  }

  lemma AllowedByLimit(kind: ActionType, policies: seq<Policy>, opts: ActuationOptions, n: int, m: int)
    requires Tightest(kind, policies, opts) && opts.maxChange > 0.0 && RulesAllow(kind, policies, n, m)
    ensures Distance(m, n) <= 1 || Distance(m, n) as real <= n as real * opts.maxChange
  {
    var r :| Matched(kind, policies, r) && r.maxPercent > 0 && opts.maxChange == Fraction(r);
    PercentOf(Distance(m, n), n, r);
  }

  lemma PercentOf(moved: int, n: int, r: ScalingRule)
    ensures moved as real <= n as real * Fraction(r) <==> moved * 100 <= n * r.maxPercent
  {
    assert 100.0 * (n as real * (r.maxPercent as real / 100.0)) == (n * r.maxPercent) as real;
  }

  lemma RuleKept(n: int, target: int, maxChange: real, r: ScalingRule)
    requires n >= 1 && 0.0 < maxChange <= Fraction(r)
    ensures var moved := Distance(ApplyMaxChange(n, target, maxChange), n);
      moved <= 1 || moved * 100 <= n * r.maxPercent
  {
    WithinFraction(n, target, maxChange, Fraction(r));
    PercentOf(Distance(ApplyMaxChange(n, target, maxChange), n), n, r);
  }

  lemma WithinFraction(n: int, target: int, maxChange: real, fraction: real)
    requires n >= 1 && 0.0 < maxChange <= fraction
    ensures var moved := Distance(ApplyMaxChange(n, target, maxChange), n);
      moved <= 1 || moved as real <= n as real * fraction
  {
  }

  lemma StepCloser(n: int, target: int, maxChange: real)
    requires n >= 1 && target >= 1
    ensures ApplyMaxChange(n, target, maxChange) >= 1
    ensures Between(ApplyMaxChange(n, target, maxChange), n, target)
    ensures n != target ==> Distance(ApplyMaxChange(n, target, maxChange), target) < Distance(n, target)
    ensures n == target ==> ApplyMaxChange(n, target, maxChange) == target
  {
  }

  // ----- repeated writes -----

  function Repeated(n: int, target: int, maxChange: real, k: nat): int
    decreases k
  {
    if k == 0 then n else Repeated(ApplyMaxChange(n, target, maxChange), target, maxChange, k - 1)
  }

  /** Repeating with a fixed target reaches it within as many writes as it was away, and
      stays there. */
  lemma {:induction false} RepeatedReaches(n: int, target: int, maxChange: real, k: nat)
    requires n >= 1 && target >= 1 && k >= Distance(n, target)
    ensures Repeated(n, target, maxChange, k) == target
    decreases k
  {
    if k == 0 {
    } else {
      StepCloser(n, target, maxChange);
      RepeatedReaches(ApplyMaxChange(n, target, maxChange), target, maxChange, k - 1);
    }
  }

  // ----- the Deployment -----

  /** The previous-state annotation: missing or empty, not valid JSON, or a replica count. */
  datatype Annotation = Absent | Unreadable | Snapshot(count: int)

  /** Resource requests of a container, in millicores and bytes. */
  datatype Requests = Requests(milliCPU: Option<int>, memoryBytes: Option<int>)

  /** The resources an action asks for, in cores and GiB; zero or less leaves them alone. */
  datatype Resources = Resources(cpu: real, memory: real)

  function WithRequests(c: Requests, r: Resources): Requests {
    Requests(if r.cpu > 0.0 then Some(Truncate(r.cpu * 1000.0)) else c.milliCPU,
             if r.memory > 0.0 then Some(Truncate(r.memory * 1073741824.0)) else c.memoryBytes)
  }

  function AllWithRequests(cs: seq<Requests>, r: Resources): seq<Requests> {
    seq(|cs|, i requires 0 <= i < |cs| => WithRequests(cs[i], r))
  }

  /** What reading the Deployment from the API server comes to. */
  datatype GetOutcome = Found | NotFound | GetFailed

  class Deployment {
    var replicas: Option<int>
    var previous: Annotation
    var containers: seq<Requests>

    constructor (replicas: Option<int>, previous: Annotation, containers: seq<Requests>)
      ensures this.replicas == replicas && this.previous == previous && this.containers == containers
    {
      this.replicas, this.previous, this.containers := replicas, previous, containers;
    }

    /** The count Kubernetes runs: one when the field is absent. */
    function Count(): (n: int)
      reads this
      ensures replicas.None? ==> n == 1
      ensures replicas.Some? ==> Some(n) == replicas
    {
      if replicas.Some? then replicas.value else 1
    }

    /** Scales and sets the containers' requests unless the read fails, it is a dry run or the
        patch fails, remembering the count it replaces. */
    method ApplyTarget(target: int, minReplicas: int, resources: Resources, opts: ActuationOptions,
                       get: GetOutcome, patchFails: bool) returns (applied: bool, failed: bool)
      modifies this
      ensures failed <==> get != Found || (!opts.dryRun && patchFails)
      ensures applied <==> !failed && !opts.dryRun
      ensures applied ==> replicas == Some(ApplyMaxChange(old(Count()), Floored(target, minReplicas), opts.maxChange))
      ensures applied ==> previous == Snapshot(old(Count()))
      ensures applied ==> containers == AllWithRequests(old(containers), resources)
      ensures !applied ==> replicas == old(replicas) && previous == old(previous) && containers == old(containers)
    {
      applied, failed := false, false;
      var floored := target;
      var min := minReplicas;
      if min < 1 {
        min := 1;
      }
      if floored < min {
        floored := min;
      }
      if get != Found {
        failed := true;
        return;
      }
      var prevReplicas := 1;
      if replicas.Some? {
        prevReplicas := replicas.value;
      }
      if opts.dryRun {
        return;
      }
      var limited := ApplyMaxChange(prevReplicas, floored, opts.maxChange);
      var updated := UpdateRequests(containers, resources);
      if patchFails {
        failed := true;
        return;
      }
      replicas, previous, containers := Some(limited), Snapshot(prevReplicas), updated;
      applied := true;
    }

    static method UpdateRequests(cs: seq<Requests>, r: Resources) returns (updated: seq<Requests>)
      ensures updated == AllWithRequests(cs, r)
    {
      updated := cs;
      if r.cpu > 0.0 || r.memory > 0.0 {
        for i := 0 to |cs|
          invariant |updated| == |cs|
          invariant forall k :: 0 <= k < i ==> updated[k] == WithRequests(cs[k], r)
          invariant forall k :: i <= k < |cs| ==> updated[k] == cs[k]
        {
          var c := updated[i];
          if r.cpu > 0.0 {
            c := c.(milliCPU := Some(Truncate(r.cpu * 1000.0)));
          }
          if r.memory > 0.0 {
            c := c.(memoryBytes := Some(Truncate(r.memory * 1073741824.0)));
          }
          updated := updated[i := c];
        }
      }
    }

    /** Restores the remembered count. A missing Deployment or annotation is no error and
        nothing to do; a failed read, an unreadable annotation or a failed patch is an error
        and changes nothing. */
    method Rollback(get: GetOutcome, patchFails: bool) returns (ok: bool)
      modifies this`replicas
      ensures replicas ==
        if get == Found && previous.Snapshot? && !patchFails then Some(previous.count) else old(replicas)
      ensures !ok <==>
        get == GetFailed || (get == Found && (previous.Unreadable? || (previous.Snapshot? && patchFails)))
    {
      if get == NotFound {
        return true;
      }
      if get == GetFailed {
        return false;
      }
      if previous.Absent? {
        return true;
      }
      if previous.Unreadable? || patchFails {
        return false;
      }
      replicas := Some(previous.count);
      ok := true;
    }

    /** An applied change followed by a rollback brings the running count back, but not the
        containers' requests: the snapshot holds the count alone. */
    method ApplyThenRollback(target: int, minReplicas: int, resources: Resources, opts: ActuationOptions)
      returns (applied: bool)
      modifies this
      ensures applied ==> Count() == old(Count()) && containers == AllWithRequests(old(containers), resources)
      ensures !applied ==> replicas == old(replicas) && containers == old(containers)
    {
      var failed;
      applied, failed := ApplyTarget(target, minReplicas, resources, opts, Found, false);
      if applied {
        var ok := Rollback(Found, false);
      }
    }
  }

  /** So rolling back undoes the change of a Deployment if and only if its containers already
      had what the action asked for, as they do when it asks for no resources. */
  lemma RequestsRestoredExactly(cs: seq<Requests>, r: Resources)
    ensures AllWithRequests(cs, r) == cs <==> forall c :: c in cs ==>
      (r.cpu > 0.0 ==> c.milliCPU == Some(Truncate(r.cpu * 1000.0))) &&
      (r.memory > 0.0 ==> c.memoryBytes == Some(Truncate(r.memory * 1073741824.0)))
    ensures r.cpu <= 0.0 && r.memory <= 0.0 ==> AllWithRequests(cs, r) == cs
  {
    forall i | 0 <= i < |cs|
      ensures WithRequests(cs[i], r) == cs[i] <==>
        (r.cpu > 0.0 ==> cs[i].milliCPU == Some(Truncate(r.cpu * 1000.0))) &&
        (r.memory > 0.0 ==> cs[i].memoryBytes == Some(Truncate(r.memory * 1073741824.0)))
    {
    }
    if AllWithRequests(cs, r) == cs {
      forall c | c in cs
        ensures WithRequests(c, r) == c
      {
        var i :| 0 <= i < |cs| && cs[i] == c;
        assert AllWithRequests(cs, r)[i] == cs[i];
      }
    }
  }
}

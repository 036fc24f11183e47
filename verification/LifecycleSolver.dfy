/** Which clusters to hibernate or wake: solveLifecycle in internal/global/solver.go. */
module LifecycleSolver {

  datatype Health = Healthy | Degraded | Unreachable | Hibernating | Unknown

  datatype ClusterSnapshot = ClusterSnapshot(
    name: string,
    health: Health,
    totalCores: real,
    usedCores: real,
    excluded: bool)

  datatype LifecyclePolicy = LifecyclePolicy(
    hibernationEnabled: bool,
    minActiveClusters: int,
    idleThresholdPercent: int,
    excludedClusters: seq<string>)

  datatype Directive = Hibernate(cluster: string) | WakeUp(cluster: string) | Unsupported

  const DEFAULT_IDLE_THRESHOLD := 10
  const HIGH_UTILIZATION := 80.0

  function Utilization(c: ClusterSnapshot): real {
    if c.totalCores == 0.0 then 0.0 else c.usedCores / c.totalCores * 100.0
  }

  function IdleThreshold(p: LifecyclePolicy): int {
    if p.idleThresholdPercent <= 0 then DEFAULT_IDLE_THRESHOLD else p.idleThresholdPercent
  }

  function MinActive(p: LifecyclePolicy): (m: int)
    ensures m >= 1
  {
    if p.minActiveClusters <= 0 then 1 else p.minActiveClusters
  }

  /** Utilization against a percentage, on the snapshot's own numbers. */
  lemma UtilizationAgainst(c: ClusterSnapshot, percent: real)
    requires c.totalCores > 0.0
    ensures Utilization(c) < percent <==> c.usedCores * 100.0 < percent * c.totalCores
    ensures Utilization(c) >= percent <==> c.usedCores * 100.0 >= percent * c.totalCores
  {
    var u := c.usedCores / c.totalCores;
    assert u * c.totalCores == c.usedCores;
    assert c.usedCores * 100.0 - percent * c.totalCores == (u * 100.0 - percent) * c.totalCores;
    if u * 100.0 >= percent {
      assert (u * 100.0 - percent) * c.totalCores >= 0.0;
    } else {
      assert (u * 100.0 - percent) * c.totalCores < 0.0;
    }
  }

  /** One cluster is no more utilized than another, on the snapshots' own numbers. */
  lemma UtilizationOrder(c: ClusterSnapshot, d: ClusterSnapshot)
    requires c.totalCores > 0.0 && d.totalCores > 0.0
    ensures Utilization(c) <= Utilization(d) <==> c.usedCores * d.totalCores <= d.usedCores * c.totalCores
  {
    var x, y := c.usedCores / c.totalCores, d.usedCores / d.totalCores;
    var both := c.totalCores * d.totalCores;
    assert c.usedCores == x * c.totalCores && d.usedCores == y * d.totalCores;
    assert c.usedCores * d.totalCores == x * both && d.usedCores * c.totalCores == y * both;
    assert both > 0.0;
    if x <= y {
      assert (y - x) * both >= 0.0;
    } else {
      assert (y - x) * both < 0.0;
    }
  }

  // ----- the choice -----

  predicate EligibleIdle(c: ClusterSnapshot, p: LifecyclePolicy) {
    && c.name !in p.excludedClusters && !c.excluded
    && c.health != Hibernating && c.health != Unreachable
    && Utilization(c) < IdleThreshold(p) as real
  }

  function IdleOf(cs: seq<ClusterSnapshot>, p: LifecyclePolicy): seq<ClusterSnapshot> {
    if cs == [] then []
    else
      var n := |cs| - 1;
      if EligibleIdle(cs[n], p) then IdleOf(cs[..n], p) + [cs[n]] else IdleOf(cs[..n], p)
  }

  function ActiveCount(cs: seq<ClusterSnapshot>): nat {
    if cs == [] then 0
    else ActiveCount(cs[..|cs| - 1]) + (if cs[|cs| - 1].health != Hibernating then 1 else 0)
  }

  /** How many clusters may hibernate. */
  function Quota(cs: seq<ClusterSnapshot>, p: LifecyclePolicy): nat {
    if ActiveCount(cs) > MinActive(p) then ActiveCount(cs) - MinActive(p) else 0
  }

  function Min(a: nat, b: nat): nat {
    if a < b then a else b
  }

  function Hibernations(chosen: seq<ClusterSnapshot>): seq<Directive> {
    seq(|chosen|, i requires 0 <= i < |chosen| => Hibernate(chosen[i].name))
  }

  predicate AllHeavy(cs: seq<ClusterSnapshot>) {
    forall c :: c in cs && c.health != Hibernating ==> Utilization(c) >= HIGH_UTILIZATION
  }

  predicate IsFirstHibernating(cs: seq<ClusterSnapshot>, i: int) {
    0 <= i < |cs| && cs[i].health == Hibernating && forall j :: 0 <= j < i ==> cs[j].health != Hibernating
  }

  /** The outcome of sort.Slice: a permutation in ascending utilization. */
  ghost predicate SortedByUtilization(sorted: seq<ClusterSnapshot>, cs: seq<ClusterSnapshot>) {
    && multiset(sorted) == multiset(cs)
    && (forall i, j :: 0 <= i < j < |sorted| ==> Utilization(sorted[i]) <= Utilization(sorted[j]))
  }

  /** The lowest-utilization idle clusters, as many as the quota allows. */
  ghost function Chosen(cs: seq<ClusterSnapshot>, sorted: seq<ClusterSnapshot>, p: LifecyclePolicy)
    : seq<ClusterSnapshot>
  {
    var idle := IdleOf(sorted, p);
    idle[..Min(|idle|, Quota(cs, p))]
  }

  /** One pass: hibernations first, then at most one wake-up. `sorted` is what the sort returned. */
  method SolveLifecycle(clusters: seq<ClusterSnapshot>, policy: LifecyclePolicy, sorted: seq<ClusterSnapshot>)
    returns (directives: seq<Directive>)
    requires SortedByUtilization(sorted, clusters)
    ensures !policy.hibernationEnabled ==> directives == []
    ensures policy.hibernationEnabled ==> IsPlan(clusters, sorted, policy, directives)
  {
    if !policy.hibernationEnabled {
      return [];
    }
    var chosen := ChooseIdle(clusters, policy, sorted);
    directives := Hibernations(chosen);
    var heavy := CheckAllHeavy(clusters);
    if heavy {
      for i := 0 to |clusters|
        invariant directives == Hibernations(chosen)
        invariant forall j :: 0 <= j < i ==> clusters[j].health != Hibernating
      {
        if clusters[i].health == Hibernating {
          assert IsFirstHibernating(clusters, i);
          directives := directives + [WakeUp(clusters[i].name)];
          return;
        }
      }
    }
  }

  ghost predicate IsPlan(cs: seq<ClusterSnapshot>, sorted: seq<ClusterSnapshot>, p: LifecyclePolicy,
                         ds: seq<Directive>) {
    var hibernations := Hibernations(Chosen(cs, sorted, p));
    || (ds == hibernations && !(AllHeavy(cs) && exists i :: IsFirstHibernating(cs, i)))
    || (AllHeavy(cs) && exists i :: IsFirstHibernating(cs, i) && ds == hibernations + [WakeUp(cs[i].name)])
  }

  method ChooseIdle(clusters: seq<ClusterSnapshot>, policy: LifecyclePolicy, sorted: seq<ClusterSnapshot>)
    returns (chosen: seq<ClusterSnapshot>)
    requires SortedByUtilization(sorted, clusters)
    ensures chosen == Chosen(clusters, sorted, policy)
  {
    var threshold := IdleThreshold(policy) as real;
    var minActive := MinActive(policy);
    var active := 0;
    for i := 0 to |clusters|
      invariant active == ActiveCount(clusters[..i])
    {
      assert clusters[..i + 1][..i] == clusters[..i];
      if clusters[i].health != Hibernating {
        active := active + 1;
      }
    }
    assert clusters[..|clusters|] == clusters;
    chosen := [];
    ghost var quota := Quota(clusters, policy);
    for i := 0 to |sorted|
      invariant chosen == IdleOf(sorted[..i], policy) && |chosen| <= quota
      invariant active == ActiveCount(clusters) - |chosen|
    {
      if active <= minActive {
        IdlePrefix(sorted, i, policy);
        return;
      }
      assert sorted[..i + 1][..i] == sorted[..i];
      var c := sorted[i];
      if c.name in policy.excludedClusters || c.excluded {
        continue;
      }
      if c.health == Hibernating {
        continue;
      }
      if c.health == Unreachable {
        continue;
      }
      if Utilization(c) < threshold {
        chosen := chosen + [c];
        active := active - 1;
      }
    }
    assert sorted[..|sorted|] == sorted;
  }

  method CheckAllHeavy(clusters: seq<ClusterSnapshot>) returns (heavy: bool)
    ensures heavy == AllHeavy(clusters)
  {
    for i := 0 to |clusters|
      invariant forall j :: 0 <= j < i && clusters[j].health != Hibernating ==>
        Utilization(clusters[j]) >= HIGH_UTILIZATION
    {
      if clusters[i].health == Hibernating {
        continue;
      }
      if Utilization(clusters[i]) < HIGH_UTILIZATION {
        assert clusters[i] in clusters;
        return false;
      }
    }
    return true;
  }

  // ----- lemmas about the idle filter -----

  lemma {:induction false} IdlePrefix(cs: seq<ClusterSnapshot>, i: nat, p: LifecyclePolicy)
    requires i <= |cs|
    ensures IdleOf(cs[..i], p) <= IdleOf(cs, p)
    decreases |cs|
  {
    if i < |cs| {
      var n := |cs| - 1;
      IdlePrefix(cs[..n], i, p);
      assert cs[..n][..i] == cs[..i];
    } else {
      assert cs[..i] == cs;
    }
  }

  lemma {:induction false} IdleMultiplicity(cs: seq<ClusterSnapshot>, p: LifecyclePolicy, c: ClusterSnapshot)
    ensures multiset(IdleOf(cs, p))[c] == if EligibleIdle(c, p) then multiset(cs)[c] else 0
  {
    if cs == [] {
    } else {
      IdleMultiplicity(cs[..|cs| - 1], p, c);
      assert cs == cs[..|cs| - 1] + [cs[|cs| - 1]];
    }
  }

  lemma IdleOfPermutation(a: seq<ClusterSnapshot>, b: seq<ClusterSnapshot>, p: LifecyclePolicy)
    requires multiset(a) == multiset(b)
    ensures multiset(IdleOf(a, p)) == multiset(IdleOf(b, p)) && |IdleOf(a, p)| == |IdleOf(b, p)|
  {
    forall c
      ensures multiset(IdleOf(a, p))[c] == multiset(IdleOf(b, p))[c]
    {
      IdleMultiplicity(a, p, c);
      IdleMultiplicity(b, p, c);
    }
    assert multiset(IdleOf(a, p)) == multiset(IdleOf(b, p));
    assert |IdleOf(a, p)| == |multiset(IdleOf(a, p))|;
  }

  lemma {:induction false} IdleMembers(cs: seq<ClusterSnapshot>, p: LifecyclePolicy)
    ensures forall c :: c in IdleOf(cs, p) <==> c in cs && EligibleIdle(c, p)
  {
    if cs == [] {
    } else {
      IdleMembers(cs[..|cs| - 1], p);
      assert cs == cs[..|cs| - 1] + [cs[|cs| - 1]];
    }
  }

  lemma {:induction false} IdleSorted(cs: seq<ClusterSnapshot>, p: LifecyclePolicy)
    requires forall i, j :: 0 <= i < j < |cs| ==> Utilization(cs[i]) <= Utilization(cs[j])
    ensures forall i, j :: 0 <= i < j < |IdleOf(cs, p)| ==>
      Utilization(IdleOf(cs, p)[i]) <= Utilization(IdleOf(cs, p)[j])
  {
    if cs == [] {
    } else {
      var n := |cs| - 1;
      IdleSorted(cs[..n], p);
      IdleMembers(cs[..n], p);
      forall c | c in IdleOf(cs[..n], p)
        ensures Utilization(c) <= Utilization(cs[n])
      {
        var k :| 0 <= k < n && cs[k] == c;
      }
      assert forall i :: 0 <= i < |IdleOf(cs[..n], p)| ==> IdleOf(cs[..n], p)[i] in IdleOf(cs[..n], p);
    }
  }

  /** Exact choice. The hibernated clusters are as many as there are eligible idle ones, up
      to the surplus over the minimum; all of them are eligible (so none is excluded,
      unreachable or hibernating already); and what is left idle is no less utilized. */
  lemma ExactHibernationChoice(cs: seq<ClusterSnapshot>, sorted: seq<ClusterSnapshot>, p: LifecyclePolicy)
    requires SortedByUtilization(sorted, cs)
    ensures |Chosen(cs, sorted, p)| == Min(|IdleOf(cs, p)|, Quota(cs, p))
    ensures forall c :: c in Chosen(cs, sorted, p) ==> c in cs && EligibleIdle(c, p)
    ensures forall c :: c in Chosen(cs, sorted, p) ==>
      c.health !in {Hibernating, Unreachable} && !c.excluded && c.name !in p.excludedClusters
    ensures multiset(Chosen(cs, sorted, p)) <= multiset(IdleOf(cs, p))
    ensures forall c, d ::
      c in Chosen(cs, sorted, p) && d in multiset(IdleOf(cs, p)) - multiset(Chosen(cs, sorted, p)) ==>
      Utilization(c) <= Utilization(d)
  {
    IdleOfPermutation(sorted, cs, p);
    IdleMembers(sorted, p);
    IdleSorted(sorted, p);
    LowestFirst(IdleOf(sorted, p), |Chosen(cs, sorted, p)|);
    forall c | c in Chosen(cs, sorted, p)
      ensures c in cs && EligibleIdle(c, p)
    {
      assert c in IdleOf(sorted, p) && c in multiset(sorted);
    }
  }

  /** In an ascending list, what is left out of a prefix is no smaller than what is in it. */
  lemma LowestFirst(idle: seq<ClusterSnapshot>, k: nat)
    requires k <= |idle| && forall i, j :: 0 <= i < j < |idle| ==> Utilization(idle[i]) <= Utilization(idle[j])
    ensures multiset(idle[..k]) <= multiset(idle)
    ensures forall c, d :: c in idle[..k] && d in multiset(idle) - multiset(idle[..k]) ==>
      Utilization(c) <= Utilization(d)
  {
    var rest := idle[k..];
    assert idle == idle[..k] + rest;
    assert multiset(idle) - multiset(idle[..k]) == multiset(rest);
    forall c, d | c in idle[..k] && d in multiset(rest)
      ensures Utilization(c) <= Utilization(d)
    {
      var i :| 0 <= i < k && idle[i] == c;
      var j :| 0 <= j < |rest| && rest[j] == d;
      assert idle[k + j] == d;
    }
  }

  predicate HasHibernate(ds: seq<Directive>) {
    exists d :: d in ds && d.Hibernate?
  }

  predicate HasWakeUp(ds: seq<Directive>) {
    exists d :: d in ds && d.WakeUp?
  }

  /** No pass both hibernates and wakes while the idle threshold is at most 80. */
  lemma NeverBoth(cs: seq<ClusterSnapshot>, sorted: seq<ClusterSnapshot>, p: LifecyclePolicy, ds: seq<Directive>)
    requires SortedByUtilization(sorted, cs) && IsPlan(cs, sorted, p, ds)
    requires IdleThreshold(p) <= 80
    ensures !(HasHibernate(ds) && HasWakeUp(ds))
  {
    ExactHibernationChoice(cs, sorted, p);
    var chosen := Chosen(cs, sorted, p);
    if chosen != [] {
      assert chosen[0] in chosen;
      assert !AllHeavy(cs);
    }
  }

  /** The bound is tight: above 80, some fleet is hibernated and woken in the same pass. */
  lemma BothAboveEighty(threshold: int) returns (cs: seq<ClusterSnapshot>, ds: seq<Directive>)
    requires threshold > 80
    ensures SortedByUtilization(cs, cs)
    ensures IsPlan(cs, cs, LifecyclePolicy(true, 1, threshold, []), ds) && HasHibernate(ds) && HasWakeUp(ds)
  {
    var p := LifecyclePolicy(true, 1, threshold, []);
    var asleep := ClusterSnapshot("c", Hibernating, 0.0, 0.0, false);
    var busy := ClusterSnapshot("a", Healthy, 100.0, 80.0, false);
    var busier := ClusterSnapshot("b", Healthy, 100.0, 80.0, false);
    cs := [asleep, busy, busier];
    FullLoad(busy);
    FullLoad(busier);
    ThreeClusters(asleep, busy, busier, p);
    ds := Hibernations([busy]) + [WakeUp("c")];
    assert IsFirstHibernating(cs, 0);
    assert ds[0] == Hibernate("a") && ds[1] == WakeUp("c");
    assert ds[0] in ds && ds[1] in ds;
  }

  lemma FullLoad(c: ClusterSnapshot)
    requires c.totalCores == 100.0 && c.usedCores == 80.0
    ensures Utilization(c) == 80.0
  {
  }

  lemma CountStep(cs: seq<ClusterSnapshot>, c: ClusterSnapshot, p: LifecyclePolicy)
    ensures ActiveCount(cs + [c]) == ActiveCount(cs) + (if c.health != Hibernating then 1 else 0)
    ensures IdleOf(cs + [c], p) == if EligibleIdle(c, p) then IdleOf(cs, p) + [c] else IdleOf(cs, p)
  {
    assert (cs + [c])[..|cs|] == cs;
  }

  lemma CountThree(a: ClusterSnapshot, b: ClusterSnapshot, c: ClusterSnapshot, p: LifecyclePolicy)
    requires EligibleIdle(b, p) && EligibleIdle(c, p)
    ensures ActiveCount([a, b, c]) == 2 + (if a.health != Hibernating then 1 else 0)
    ensures IdleOf([a, b, c], p) == if EligibleIdle(a, p) then [a, b, c] else [b, c]
  {
    CountStep([], a, p);
    CountStep([a], b, p);
    CountStep([a, b], c, p);
    assert [] + [a] == [a] && [a] + [b] == [a, b] && [a, b] + [c] == [a, b, c];
  }

  lemma ThreeClusters(a: ClusterSnapshot, b: ClusterSnapshot, c: ClusterSnapshot, p: LifecyclePolicy)
    requires a.health == Hibernating && EligibleIdle(b, p) && EligibleIdle(c, p) && MinActive(p) == 1
    ensures Chosen([a, b, c], [a, b, c], p) == [b]
  {
    CountThree(a, b, c, p);
  }

  lemma ChooseTwo(a: ClusterSnapshot, b: ClusterSnapshot, c: ClusterSnapshot, p: LifecyclePolicy)
    requires EligibleIdle(a, p) && EligibleIdle(b, p) && EligibleIdle(c, p) && MinActive(p) == 1
    ensures Chosen([a, b, c], [a, b, c], p) == [a, b]
  {
    CountThree(a, b, c, p);
  }

  /** An unreachable cluster counts as active but is not chosen. */
  lemma OnlyReachable(a: ClusterSnapshot, b: ClusterSnapshot, p: LifecyclePolicy)
    requires a.health == Unreachable && EligibleIdle(b, p) && MinActive(p) == 1
    ensures Chosen([a, b], [a, b], p) == [b]
  {
    CountStep([], a, p);
    CountStep([a], b, p);
    assert [] + [a] == [a] && [a] + [b] == [a, b];
  }

  // ----- the pass on the snapshot's own numbers -----

  /** Number of clusters a snapshot shows as anything but hibernating. */
  lemma {:induction false} ActiveCountExactly(cs: seq<ClusterSnapshot>)
    ensures ActiveCount(cs) == |set i: nat | i < |cs| && cs[i].health != Hibernating|
  {
    var active := set i: nat | i < |cs| && cs[i].health != Hibernating;
    if cs == [] {
      assert active == {};
    } else {
      var n := |cs| - 1;
      ActiveCountExactly(cs[..n]);
      var before := set i: nat | i < n && cs[..n][i].health != Hibernating;
      assert active == if cs[n].health != Hibernating then before + {n} else before;
    }
  }

  /** Below the threshold percentage of its cores, which is 10 unless the policy says otherwise;
      a cluster without cores counts as idle. */
  predicate Underused(c: ClusterSnapshot, p: LifecyclePolicy) {
    var threshold := if p.idleThresholdPercent <= 0 then 10.0 else p.idleThresholdPercent as real;
    if c.totalCores > 0.0 then c.usedCores * 100.0 < threshold * c.totalCores else threshold > 0.0
  }

  predicate Overused(c: ClusterSnapshot) {
    c.totalCores > 0.0 && c.usedCores * 100.0 >= 80.0 * c.totalCores
  }

  /** May be hibernated: neither excluded nor hibernating, reachable, and underused. */
  predicate Hibernatable(c: ClusterSnapshot, p: LifecyclePolicy) {
    && c.name !in p.excludedClusters && !c.excluded
    && (c.health == Healthy || c.health == Degraded || c.health == Unknown) && Underused(c, p)
  }

  lemma EligibleInNumbers(c: ClusterSnapshot, p: LifecyclePolicy)
    requires c.totalCores >= 0.0
    ensures EligibleIdle(c, p) <==> Hibernatable(c, p)
  {
    if c.totalCores > 0.0 {
      UtilizationAgainst(c, IdleThreshold(p) as real);
    }
  }

  lemma HeavyInNumbers(c: ClusterSnapshot)
    requires c.totalCores >= 0.0
    ensures Utilization(c) >= HIGH_UTILIZATION <==> Overused(c)
  {
    if c.totalCores > 0.0 {
      UtilizationAgainst(c, 80.0);
    }
  }

  /** The idle clusters, on the snapshot's own numbers. */
  lemma IdleInNumbers(cs: seq<ClusterSnapshot>, p: LifecyclePolicy)
    requires forall c :: c in cs ==> c.totalCores >= 0.0
    ensures forall c :: c in IdleOf(cs, p) <==> c in cs && Hibernatable(c, p)
  {
    IdleMembers(cs, p);
    forall c | c in cs
      ensures EligibleIdle(c, p) <==> Hibernatable(c, p)
    {
      EligibleInNumbers(c, p);
    }
  }

  /** Whatever a pass hibernates may be hibernated. */
  lemma HibernatedInNumbers(cs: seq<ClusterSnapshot>, sorted: seq<ClusterSnapshot>, p: LifecyclePolicy,
                            ds: seq<Directive>, name: string)
    requires SortedByUtilization(sorted, cs) && IsPlan(cs, sorted, p, ds) && Hibernate(name) in ds
    requires forall c :: c in cs ==> c.totalCores >= 0.0
    ensures exists c :: c in cs && c.name == name && Hibernatable(c, p)
  {
    var chosen := Chosen(cs, sorted, p);
    ExactHibernationChoice(cs, sorted, p);
    var i :| 0 <= i < |chosen| && Hibernations(chosen)[i] == Hibernate(name);
    assert chosen[i] in chosen;
    EligibleInNumbers(chosen[i], p);
  }

  /** A pass hibernates as many clusters as may be, up to the surplus of active ones over the
      configured minimum, which is 1 unless the policy says otherwise. */
  lemma ChosenCount(cs: seq<ClusterSnapshot>, sorted: seq<ClusterSnapshot>, p: LifecyclePolicy)
    requires SortedByUtilization(sorted, cs)
    ensures var surplus := ActiveCount(cs) - (if p.minActiveClusters <= 0 then 1 else p.minActiveClusters);
      |Chosen(cs, sorted, p)| == if surplus <= 0 then 0 else Min(|IdleOf(cs, p)|, surplus)
  {
    IdleOfPermutation(sorted, cs, p);
  }

  /** A pass wakes a cluster exactly when some hibernates and all others use at least 80% of
      their cores. */
  lemma WakesInNumbers(cs: seq<ClusterSnapshot>, sorted: seq<ClusterSnapshot>, p: LifecyclePolicy, ds: seq<Directive>)
    requires IsPlan(cs, sorted, p, ds) && forall c :: c in cs ==> c.totalCores >= 0.0
    ensures HasWakeUp(ds) <==>
      (exists c :: c in cs && c.health == Hibernating) && forall c :: c in cs && c.health != Hibernating ==> Overused(c)
  {
    forall c | c in cs
      ensures Utilization(c) >= HIGH_UTILIZATION <==> Overused(c)
    {
      HeavyInNumbers(c);
    }
    FirstHibernatingExists(cs);
    WakeUpExactly(cs, sorted, p, ds);
  }

  lemma WakeUpExactly(cs: seq<ClusterSnapshot>, sorted: seq<ClusterSnapshot>, p: LifecyclePolicy, ds: seq<Directive>)
    requires IsPlan(cs, sorted, p, ds)
    ensures HasWakeUp(ds) <==> AllHeavy(cs) && exists i :: IsFirstHibernating(cs, i)
  {
    var hibernations := Hibernations(Chosen(cs, sorted, p));
    if AllHeavy(cs) && exists i :: IsFirstHibernating(cs, i) {
      var i :| IsFirstHibernating(cs, i) && ds == hibernations + [WakeUp(cs[i].name)];
      assert ds[|hibernations|] in ds;
    }
  }

  lemma {:induction false} FirstHibernatingExists(cs: seq<ClusterSnapshot>)
    ensures (exists i :: IsFirstHibernating(cs, i)) <==> exists c :: c in cs && c.health == Hibernating
  {
    if cs == [] {
    } else {
      var n := |cs| - 1;
      FirstHibernatingExists(cs[..n]);
      assert forall c :: c in cs <==> c in cs[..n] || c == cs[n];
      if i :| IsFirstHibernating(cs[..n], i) {
        assert IsFirstHibernating(cs, i);
      } else if cs[n].health == Hibernating {
        assert forall j :: 0 <= j < n ==> cs[..n][j] in cs[..n];
        assert IsFirstHibernating(cs, n);
      }
    }
  }
}

/** The hibernate/wake state machine of internal/global/lifecycle.go, and its safety over
    whole runs of solving, executing and taking new snapshots.

    Directives execute one at a time here; Interleaving.dfy takes them apart. The tenant check,
    the drain and the scaler calls are arbitrary outcomes. */
module Lifecycle {
  import opened Basics
  import opened LifecycleSolver

  datatype LifecycleState = Active | Draining | Asleep | Waking

  datatype ScalerCall = ScaledToZero | ScaledUp

  datatype TenantCheck = NoLocator | CheckFailed | SoleLocation | ElsewhereToo
  datatype DrainOutcome = NoDrainer | DrainFailed | Drained

  /** Everything outside the manager that one directive depends on. */
  datatype Outcomes = Outcomes(tenants: TenantCheck, drain: DrainOutcome, scaled: bool)

  datatype Outcome = Done | Refused | Failed | UnsupportedDirective

  /** The manager's states (a missing name counts as active), with the last scaler call that
      succeeded for each cluster. */
  datatype Fleet = Fleet(states: map<string, LifecycleState>, lastCall: map<string, ScalerCall>)

  predicate IsAsleep(f: Fleet, name: string) {
    name in f.states && f.states[name] == Asleep
  }

  function MayScaleDown(o: Outcomes): bool {
    (o.tenants == NoLocator || o.tenants == ElsewhereToo) && o.drain != DrainFailed && o.scaled
  }

  /** The effect of a hibernate directive once it has run to completion. */
  function AfterHibernate(f: Fleet, mgmt: string, name: string, o: Outcomes): Fleet {
    if name == mgmt then f
    else if name in f.states && (f.states[name] == Asleep || f.states[name] == Draining) then f
    else if MayScaleDown(o) then Fleet(f.states[name := Asleep], f.lastCall[name := ScaledToZero])
    else f.(states := f.states[name := Active])
  }

  function AfterWakeUp(f: Fleet, name: string, scaled: bool): Fleet {
    if name !in f.states || f.states[name] == Active || f.states[name] == Waking then f
    else if scaled then Fleet(f.states[name := Active], f.lastCall[name := ScaledUp])
    else f.(states := f.states[name := Asleep])
  }

  function AfterDirective(f: Fleet, mgmt: string, d: Directive, o: Outcomes): Fleet {
    match d
    case Hibernate(name) => AfterHibernate(f, mgmt, name, o)
    case WakeUp(name) => AfterWakeUp(f, name, o.scaled)
    case Unsupported => f
  }

  /** What a directive reports. */
  function ResultOf(f: Fleet, mgmt: string, d: Directive, o: Outcomes): Outcome {
    match d
    case Hibernate(name) =>
      if name == mgmt then Refused
      else if name in f.states && (f.states[name] == Asleep || f.states[name] == Draining) then Done
      else if o.tenants == SoleLocation then Refused
      else if MayScaleDown(o) then Done
      else Failed
    case WakeUp(name) =>
      if name in f.states && f.states[name] != Active && f.states[name] != Waking && !o.scaled then Failed else Done
    case Unsupported => UnsupportedDirective
  }

  // ----- the manager -----

  const MINUTE := 60 * SECOND

  datatype IdleRecord = IdleRecord(idleSince: int, idle: bool)

  /** One heartbeat: when it came and whether utilization was below the idle threshold. */
  datatype Heartbeat = Heartbeat(at: int, idle: bool)

  datatype IdlePolicy = IdlePolicy(idleThresholdPercent: int, idleWindowMinutes: int)

  /** Start of the run of idle heartbeats that reaches the end of the history. */
  function IdleRunStart(h: seq<Heartbeat>): (at: int)
    requires h != [] && h[|h| - 1].idle
  {
    var n := |h| - 1;
    if n > 0 && h[n - 1].idle then IdleRunStart(h[..n]) else h[n].at
  }

  ghost predicate InOrder(h: seq<Heartbeat>) {
    forall i, j :: 0 <= i < j < |h| ==> h[i].at <= h[j].at
  }

  /** Every heartbeat was idle over some stretch of at least `window` that ends at `now`. */
  ghost predicate IdleThroughout(h: seq<Heartbeat>, now: int, window: int) {
    exists i :: 0 <= i < |h| && now - h[i].at >= window && AllIdleFrom(h, i)
  }

  ghost predicate AllIdleFrom(h: seq<Heartbeat>, i: int) {
    forall k :: 0 <= i <= k < |h| ==> h[k].idle
  }

  lemma {:induction false} IdleRunExactly(h: seq<Heartbeat>, now: int, window: int)
    requires h != [] && h[|h| - 1].idle && InOrder(h)
    ensures now - IdleRunStart(h) >= window <==> IdleThroughout(h, now, window)
  {
    var i := IdleRunWitness(h);
    if now - IdleRunStart(h) >= window {
      assert now - h[i].at >= window && AllIdleFrom(h, i);
    }
    if IdleThroughout(h, now, window) {
      var k :| 0 <= k < |h| && now - h[k].at >= window && AllIdleFrom(h, k);
      assert i <= k;
    }
  }

  lemma {:induction false} IdleRunWitness(h: seq<Heartbeat>) returns (i: nat)
    requires h != [] && h[|h| - 1].idle
    ensures i < |h| && h[i].at == IdleRunStart(h) && AllIdleFrom(h, i) && (i > 0 ==> !h[i - 1].idle)
  {
    var n := |h| - 1;
    if n > 0 && h[n - 1].idle {
      i := IdleRunWitness(h[..n]);
      assert forall k :: 0 <= k < n ==> h[..n][k] == h[k];
    } else {
      i := n;
    }
  }

  /** An idle record says whether the last heartbeat was idle and since when. */
  predicate Summarises(r: IdleRecord, h: seq<Heartbeat>) {
    h != [] && r.idle == h[|h| - 1].idle && (r.idle ==> r.idleSince == IdleRunStart(h))
  }

  class LifecycleManager {
    var states: map<string, LifecycleState>
    var idleTracker: map<string, IdleRecord>
    const mgmtCluster: string
    const idleWindow: int
    ghost var lastCall: map<string, ScalerCall>
    ghost var beats: map<string, seq<Heartbeat>>  // heartbeats since the cluster last woke

    constructor (mgmtCluster: string, idleWindow: int)
      ensures this.mgmtCluster == mgmtCluster && this.idleWindow == idleWindow
      ensures TheFleet() == Fleet(map[], map[]) && Tracking()
    {
      this.mgmtCluster, this.idleWindow := mgmtCluster, idleWindow;
      states, idleTracker, lastCall, beats := map[], map[], map[], map[];
    }

    ghost function TheFleet(): Fleet
      reads this
    {
      Fleet(states, lastCall)
    }

    /** The idle records summarise the heartbeat histories. */
    ghost predicate Tracking()
      reads this
    {
      && idleTracker.Keys == beats.Keys
      && forall name :: name in beats ==> Summarises(idleTracker[name], beats[name])
    }

    method ExecuteDirective(d: Directive, o: Outcomes) returns (r: Outcome)
      requires Tracking()
      modifies this
      ensures TheFleet() == AfterDirective(old(TheFleet()), mgmtCluster, d, o)
      ensures r == ResultOf(old(TheFleet()), mgmtCluster, d, o)
      ensures Tracking()
    {
      match d
      case Hibernate(name) => r := ExecuteHibernate(name, o);
      case WakeUp(name) => r := ExecuteWakeUp(name, o.scaled);
      case Unsupported => r := UnsupportedDirective;
    }

    method ExecuteHibernate(name: string, o: Outcomes) returns (r: Outcome)
      modifies this`states, this`lastCall
      ensures TheFleet() == AfterHibernate(old(TheFleet()), mgmtCluster, name, o)
      ensures r == ResultOf(old(TheFleet()), mgmtCluster, Hibernate(name), o)
    {
      if name == mgmtCluster {
        return Refused;
      }
      if name in states && (states[name] == Asleep || states[name] == Draining) {
        return Done;
      }
      states := states[name := Draining];
      if o.tenants != NoLocator {
        if o.tenants == CheckFailed {
          states := states[name := Active];
          return Failed;
        }
        if o.tenants == SoleLocation {
          states := states[name := Active];
          return Refused;
        }
      }
      if o.drain == DrainFailed {
        states := states[name := Active];
        return Failed;
      }
      if !o.scaled {
        states := states[name := Active];
        return Failed;
      }
      lastCall := lastCall[name := ScaledToZero];
      states := states[name := Asleep];
      r := Done;
    }

    method ExecuteWakeUp(name: string, scaled: bool) returns (r: Outcome)
      requires Tracking()
      modifies this
      ensures TheFleet() == AfterWakeUp(old(TheFleet()), name, scaled)
      ensures r == Failed || r == Done
      ensures r == Failed <==>
        !scaled && name in old(states) && old(states)[name] != Active && old(states)[name] != Waking
      ensures Tracking()
      ensures idleTracker == old(idleTracker) || idleTracker == old(idleTracker) - {name}
    {
      if name !in states || states[name] == Active || states[name] == Waking {
        return Done;
      }
      states := states[name := Waking];
      if !scaled {
        states := states[name := Asleep];
        return Failed;
      }
      lastCall := lastCall[name := ScaledUp];
      states := states[name := Active];
      idleTracker := idleTracker - {name};
      beats := beats - {name};
      r := Done;
    }

    ghost function History(name: string): seq<Heartbeat>
      reads this
    {
      if name in beats then beats[name] else []
    }

    /** True exactly when every heartbeat over at least the idle window has been idle. */
    method UpdateIdleStatus(name: string, utilization: real, policy: IdlePolicy, now: int) returns (ready: bool)
      requires Tracking()
      requires InOrder(History(name) + [Heartbeat(now, false)])
      modifies this`idleTracker, this`beats
      ensures Tracking()
      ensures var threshold := if policy.idleThresholdPercent <= 0 then 10.0 else policy.idleThresholdPercent as real;
        beats == old(beats)[name := old(History(name)) + [Heartbeat(now, utilization < threshold)]]
      ensures var minutes := policy.idleWindowMinutes;
        ready <==> IdleThroughout(beats[name], now, if minutes > 0 then minutes * 60_000_000_000 else idleWindow)
    {
      var rec := if name in idleTracker then idleTracker[name] else IdleRecord(0, false);
      var idle := BelowThreshold(utilization, policy);
      rec, ready := NextRecord(rec, History(name), idle, Window(policy, idleWindow), now);
      ghost var h := History(name) + [Heartbeat(now, idle)];
      idleTracker := idleTracker[name := rec];
      beats := beats[name := h];
    }

    static method NextRecord(rec: IdleRecord, ghost h: seq<Heartbeat>, idle: bool, window: int, now: int)
      returns (next: IdleRecord, ready: bool)
      requires if h == [] then !rec.idle else Summarises(rec, h)
      requires InOrder(h + [Heartbeat(now, false)])
      ensures Summarises(next, h + [Heartbeat(now, idle)])
      ensures ready <==> IdleThroughout(h + [Heartbeat(now, idle)], now, window)
    {
      next := rec;
      if idle {
        if !next.idle {
          next := IdleRecord(now, true);
        }
        IdleRunGrows(h, Heartbeat(now, idle), window);
        ready := now - next.idleSince >= window;
      } else {
        next := IdleRecord(0, false);
        ready := false;
        BusyBeat(h, Heartbeat(now, idle), window);
      }
    }
  }

  predicate BelowThreshold(utilization: real, policy: IdlePolicy) {
    var threshold := if policy.idleThresholdPercent <= 0 then 10 else policy.idleThresholdPercent;
    utilization < threshold as real
  }

  function Window(policy: IdlePolicy, defaultWindow: int): int {
    if policy.idleWindowMinutes > 0 then policy.idleWindowMinutes * MINUTE else defaultWindow
  }

  lemma IdleRunGrows(h: seq<Heartbeat>, beat: Heartbeat, window: int)
    requires beat.idle && InOrder(h + [Heartbeat(beat.at, false)])
    ensures IdleRunStart(h + [beat]) == if h != [] && h[|h| - 1].idle then IdleRunStart(h) else beat.at
    ensures beat.at - IdleRunStart(h + [beat]) >= window <==> IdleThroughout(h + [beat], beat.at, window)
  {
    var next := h + [beat];
    assert next[..|h|] == h;
    SameTimesInOrder(h + [Heartbeat(beat.at, false)], next);
    IdleRunExactly(next, beat.at, window);
  }

  lemma SameTimesInOrder(a: seq<Heartbeat>, b: seq<Heartbeat>)
    requires InOrder(a) && |a| == |b| && forall i :: 0 <= i < |a| ==> a[i].at == b[i].at
    ensures InOrder(b)
  {
  }

  lemma BusyBeat(h: seq<Heartbeat>, beat: Heartbeat, window: int)
    requires !beat.idle
    ensures !IdleThroughout(h + [beat], beat.at, window)
  {
    assert !(h + [beat])[|h|].idle;
  }

  // ----- one step of the hub -----

  /** The hub between directives: the fleet and the directives not yet executed. */
  datatype Hub = Hub(fleet: Fleet, pending: seq<Directive>)

  /** Each cluster has its own queue, so any of the queued directives may be the next. A pass
      may be solved while directives of earlier passes are still queued. */
  datatype Step =
    | Snapshot(clusters: seq<ClusterSnapshot>, sorted: seq<ClusterSnapshot>, policy: LifecyclePolicy,
               directives: seq<Directive>)
    | Execute(index: nat, outcomes: Outcomes)
    | Lose(index: nat)  // a queued directive that is never delivered
    | Wake(cluster: string, scaled: bool)  // a predictive wake-up

  function Removed(ds: seq<Directive>, k: nat): seq<Directive>
    requires k < |ds|
  {
    ds[..k] + ds[k + 1..]
  }

  /** A snapshot may show anything; what it has to show for the minimum is `Faithful`. */
  ghost predicate Next(mgmt: string, minActive: nat, h: Hub, s: Step, h': Hub) {
    match s
    case Snapshot(cs, sorted, p, ds) =>
      && SortedByUtilization(sorted, cs) && minActive <= (if p.minActiveClusters <= 0 then 1 else p.minActiveClusters)
      && (if p.hibernationEnabled then IsPlan(cs, sorted, p, ds) else ds == [])
      && h' == Hub(h.fleet, h.pending + ds)
    case Execute(k, o) =>
      k < |h.pending| && h' == Hub(AfterDirective(h.fleet, mgmt, h.pending[k], o), Removed(h.pending, k))
    case Lose(k) =>
      k < |h.pending| && h' == Hub(h.fleet, Removed(h.pending, k))
    case Wake(name, scaled) =>
      h' == h.(fleet := AfterWakeUp(h.fleet, name, scaled))
  }

  ghost function Awake(f: Fleet, names: set<string>): set<string> {
    set name | name in names && !IsAsleep(f, name)
  }

  /** Between directives every cluster is active or asleep, the management cluster is never
      asleep, and asleep means the last successful scaler call was to zero. */
  ghost predicate Settled(f: Fleet, mgmt: string) {
    && (forall name :: name in f.states ==> f.states[name] == Active || f.states[name] == Asleep)
    && !IsAsleep(f, mgmt)
    && (forall name :: IsAsleep(f, name) <==> name in f.lastCall && f.lastCall[name] == ScaledToZero)
  }

  /** The clusters that queued hibernations name, without the management cluster, whose
      hibernation is always refused. */
  ghost function Doomed(ds: seq<Directive>, mgmt: string): set<string> {
    set d | d in ds && d.Hibernate? && d.cluster != mgmt :: d.cluster
  }

  /** The clusters that stay awake even if every queued hibernation succeeds. */
  ghost function Secure(mgmt: string, names: set<string>, h: Hub): set<string> {
    Awake(h.fleet, names) - Doomed(h.pending, mgmt)
  }

  /** Executing the whole queue leaves the minimum awake, or hibernates nothing. */
  ghost predicate Spared(mgmt: string, names: set<string>, minActive: nat, h: Hub) {
    Doomed(h.pending, mgmt) == {} || |Secure(mgmt, names, h)| >= minActive
  }

  /** What a new pass adds to the queue still leaves the minimum awake. */
  ghost predicate Fits(mgmt: string, names: set<string>, minActive: nat, h: Hub, s: Step) {
    s.Snapshot? ==> Spared(mgmt, names, minActive, Hub(h.fleet, h.pending + s.directives))
  }

  // ----- lemmas -----

  lemma DirectiveKeepsSettled(f: Fleet, mgmt: string, d: Directive, o: Outcomes)
    requires Settled(f, mgmt)
    ensures Settled(AfterDirective(f, mgmt, d, o), mgmt)
  {
  }

  /** A cluster falls asleep exactly when a hibernate directive names it, it is not the
      management cluster, no tenant lives only there, its drain did not fail and its node
      pools went to zero. */
  lemma FallsAsleepExactly(f: Fleet, mgmt: string, d: Directive, o: Outcomes, name: string)
    requires Settled(f, mgmt) && !IsAsleep(f, name)
    ensures IsAsleep(AfterDirective(f, mgmt, d, o), name) <==>
      d == Hibernate(name) && name != mgmt && o.tenants !in {CheckFailed, SoleLocation} &&
      o.drain != DrainFailed && o.scaled
  {
  }

  /** The report can be trusted: a directive is done exactly when its cluster is then in the state
      it asked for. A hibernation is refused exactly for the management cluster, and for a
      cluster awake that some tenant lives on alone. */
  lemma ResultTells(f: Fleet, mgmt: string, d: Directive, o: Outcomes)
    requires Settled(f, mgmt)
    ensures d.Hibernate? ==> (ResultOf(f, mgmt, d, o) == Done <==> IsAsleep(AfterDirective(f, mgmt, d, o), d.cluster))
    ensures d.WakeUp? ==> (ResultOf(f, mgmt, d, o) == Done <==> !IsAsleep(AfterDirective(f, mgmt, d, o), d.cluster))
    ensures ResultOf(f, mgmt, d, o) == Refused <==>
      d.Hibernate? && (d.cluster == mgmt || (!IsAsleep(f, d.cluster) && o.tenants == SoleLocation))
    ensures ResultOf(f, mgmt, d, o) == UnsupportedDirective <==> d.Unsupported?
  {
  }

  lemma {:induction false} SubsetSize(a: set<string>, b: set<string>)
    requires a <= b
    ensures |a| <= |b|
  {
    assert b == a + (b - a);
  }

  ghost function NameSet(cs: seq<ClusterSnapshot>): set<string> {
    if cs == [] then {} else NameSet(cs[..|cs| - 1]) + {cs[|cs| - 1].name}
  }

  lemma {:induction false} NameSetMembers(cs: seq<ClusterSnapshot>, name: string)
    ensures name in NameSet(cs) <==> exists i :: 0 <= i < |cs| && cs[i].name == name
  {
    if cs == [] {
    } else {
      var n := |cs| - 1;
      NameSetMembers(cs[..n], name);
      assert forall i :: 0 <= i < n ==> cs[..n][i] == cs[i];
    }
  }

  lemma {:induction false} AwakeAtLeastActive(f: Fleet, cs: seq<ClusterSnapshot>)
    requires forall i, j :: 0 <= i < j < |cs| ==> cs[i].name != cs[j].name
    requires forall i :: 0 <= i < |cs| && IsAsleep(f, cs[i].name) ==> cs[i].health == Hibernating
    ensures |Awake(f, NameSet(cs))| >= ActiveCount(cs)
  {
    if cs == [] {
    } else {
      var n := |cs| - 1;
      var before := Awake(f, NameSet(cs[..n]));
      AwakeAtLeastActive(f, cs[..n]);
      NameSetMembers(cs[..n], cs[n].name);
      assert Awake(f, NameSet(cs)) == if IsAsleep(f, cs[n].name) then before else before + {cs[n].name};
    }
  }

  lemma {:induction false} NamesAreFew(chosen: seq<ClusterSnapshot>)
    ensures |NameSet(chosen)| <= |chosen|
  {
    if chosen == [] {
    } else {
      NamesAreFew(chosen[..|chosen| - 1]);
    }
  }

  function NamesOf(cs: seq<ClusterSnapshot>): seq<string> {
    seq(|cs|, i requires 0 <= i < |cs| => cs[i].name)
  }

  /** A snapshot shows each cluster of the fleet once, and every asleep one as hibernating. */
  ghost predicate Faithful(f: Fleet, names: set<string>, cs: seq<ClusterSnapshot>) {
    && (forall i, j :: 0 <= i < j < |cs| ==> cs[i].name != cs[j].name)
    && (forall name :: name in names <==> name in NamesOf(cs))
    && (forall c :: c in cs && IsAsleep(f, c.name) ==> c.health == Hibernating)
  }

  /** From a faithful snapshot a pass names no more clusters than the fleet can spare, so it
      fits when the queue holds no hibernation, or only hibernations that the pass asks for
      again. */
  lemma PlanFits(mgmt: string, names: set<string>, minActive: nat, h: Hub, s: Step, h': Hub)
    requires Next(mgmt, minActive, h, s, h') && s.Snapshot? && Faithful(h.fleet, names, s.clusters)
    requires Doomed(h.pending, mgmt) <= Doomed(s.directives, mgmt)
    ensures Fits(mgmt, names, minActive, h, s)
  {
    var Snapshot(cs, sorted, p, ds) := s;
    var doomed, awake := Doomed(h.pending + ds, mgmt), Awake(h.fleet, names);
    assert doomed == Doomed(ds, mgmt);
    if p.hibernationEnabled {
      var chosen := Chosen(cs, sorted, p);
      PlanNames(mgmt, cs, sorted, p, ds);
      NamesAreFew(chosen);
      SubsetSize(doomed, NameSet(chosen));
      ExactHibernationChoice(cs, sorted, p);
      AwakeCounted(h.fleet, names, cs);
      assert |awake - doomed| >= |awake| - |doomed| by {
        assert awake == (awake - doomed) + (awake * doomed);
        SubsetSize(awake * doomed, doomed);
      }
    }
  }

  lemma PlanNames(mgmt: string, cs: seq<ClusterSnapshot>, sorted: seq<ClusterSnapshot>, p: LifecyclePolicy,
                  ds: seq<Directive>)
    requires IsPlan(cs, sorted, p, ds)
    ensures Doomed(ds, mgmt) <= NameSet(Chosen(cs, sorted, p))
  {
    var chosen := Chosen(cs, sorted, p);
    forall d | d in ds && d.Hibernate?
      ensures d.cluster in NameSet(chosen)
    {
      var i :| 0 <= i < |chosen| && Hibernations(chosen)[i] == d;
      NameSetMembers(chosen, d.cluster);
    }
  }

  lemma AwakeCounted(f: Fleet, names: set<string>, cs: seq<ClusterSnapshot>)
    requires Faithful(f, names, cs)
    ensures |Awake(f, names)| >= ActiveCount(cs)
  {
    AwakeAtLeastActive(f, cs);
    forall name
      ensures name in names <==> name in NameSet(cs)
    {
      NameSetMembers(cs, name);
      assert forall i :: 0 <= i < |cs| ==> NamesOf(cs)[i] == cs[i].name;
    }
    assert names == NameSet(cs);
  }

  /** Steps other than a new pass never endanger a further cluster: only queued hibernations
      put clusters to sleep, and the queue only shrinks. */
  lemma SecureStay(mgmt: string, names: set<string>, minActive: nat, h: Hub, s: Step, h': Hub)
    requires Settled(h.fleet, mgmt) && Next(mgmt, minActive, h, s, h') && !s.Snapshot?
    ensures Secure(mgmt, names, h) <= Secure(mgmt, names, h')
    ensures Doomed(h'.pending, mgmt) <= Doomed(h.pending, mgmt)
  {
    forall name | name in Secure(mgmt, names, h)
      ensures name in Secure(mgmt, names, h')
    {
      match s
      case Execute(k, o) => FallsAsleepExactly(h.fleet, mgmt, h.pending[k], o, name);
      case Lose(k) =>
      case Wake(cluster, scaled) =>
    }
  }

  lemma StepKeepsSettled(mgmt: string, minActive: nat, h: Hub, s: Step, h': Hub)
    requires Settled(h.fleet, mgmt) && Next(mgmt, minActive, h, s, h')
    ensures Settled(h'.fleet, mgmt)
  {
    match s
    case Snapshot(cs, sorted, p, ds) =>
    case Execute(k, o) => DirectiveKeepsSettled(h.fleet, mgmt, h.pending[k], o);
    case Lose(k) =>
    case Wake(name, scaled) =>
      DirectiveKeepsSettled(h.fleet, mgmt, WakeUp(name), Outcomes(NoLocator, NoDrainer, scaled));
  }

  /** A step that fits keeps the queue spared and cannot take the fleet below the minimum. */
  lemma StepKeepsSpared(mgmt: string, names: set<string>, minActive: nat, h: Hub, s: Step, h': Hub)
    requires Settled(h.fleet, mgmt) && Spared(mgmt, names, minActive, h)
    requires Next(mgmt, minActive, h, s, h') && Fits(mgmt, names, minActive, h, s)
    ensures Spared(mgmt, names, minActive, h')
    ensures |Awake(h.fleet, names)| >= minActive ==> |Awake(h'.fleet, names)| >= minActive
  {
    if s.Snapshot? {
    } else {
      SecureStay(mgmt, names, minActive, h, s, h');
      SubsetSize(Secure(mgmt, names, h), Secure(mgmt, names, h'));
      SubsetSize(Secure(mgmt, names, h'), Awake(h'.fleet, names));
      if Doomed(h.pending, mgmt) == {} {
        assert Secure(mgmt, names, h) == Awake(h.fleet, names);
      }
    }
  }

  // ----- whole runs -----

  ghost predicate IsRun(mgmt: string, minActive: nat, hubs: seq<Hub>, steps: seq<Step>) {
    && |hubs| == |steps| + 1
    && (forall i :: 0 <= i < |steps| ==> Next(mgmt, minActive, hubs[i], steps[i], hubs[i + 1]))
  }

  /** Hibernation safety over runs, with passes solved at any time from any snapshot, and
      executions in any order with arbitrary failures, losses and wake-ups. From a settled hub the management cluster
      is never asleep, every cluster is active or asleep between directives, and asleep
      exactly when its last successful scaler call was to zero. When every pass fits what is
      still queued, the clusters awake never fall below the minimum once they reach it. */
  lemma {:induction false} HibernationSafety(
      mgmt: string, names: set<string>, minActive: nat, hubs: seq<Hub>, steps: seq<Step>, i: nat, j: nat)
    requires IsRun(mgmt, minActive, hubs, steps) && i <= j < |hubs|
    requires Settled(hubs[0].fleet, mgmt) && hubs[0].pending == []
    ensures Settled(hubs[j].fleet, mgmt)
    ensures (forall k :: 0 <= k < j ==> Fits(mgmt, names, minActive, hubs[k], steps[k])) ==>
      Spared(mgmt, names, minActive, hubs[j]) &&
      (|Awake(hubs[i].fleet, names)| >= minActive ==> |Awake(hubs[j].fleet, names)| >= minActive)
  {
    if j == 0 {
    } else {
      HibernationSafety(mgmt, names, minActive, hubs, steps, if i < j then i else j - 1, j - 1);
      StepKeepsSettled(mgmt, minActive, hubs[j - 1], steps[j - 1], hubs[j]);
      if forall k :: 0 <= k < j ==> Fits(mgmt, names, minActive, hubs[k], steps[k]) {
        StepKeepsSpared(mgmt, names, minActive, hubs[j - 1], steps[j - 1], hubs[j]);
      }
    }
  }

  /** A run from `h` that solves no new pass. */
  ghost predicate IsExecution(mgmt: string, minActive: nat, h: Hub, hubs: seq<Hub>, steps: seq<Step>) {
    && IsRun(mgmt, minActive, hubs, steps) && hubs[0] == h
    && (forall i :: 0 <= i < |steps| ==> !steps[i].Snapshot?)
  }

  ghost predicate EveryExecutionKeepsMinimum(mgmt: string, names: set<string>, minActive: nat, h: Hub) {
    forall hubs: seq<Hub>, steps: seq<Step> :: IsExecution(mgmt, minActive, h, hubs, steps) ==>
      |Awake(hubs[|steps|].fleet, names)| >= minActive
  }

  /** The condition is exact: with the minimum awake, every execution of the queue keeps it
      if and only if the queue is spared. */
  lemma QueueKeepsMinimumExactly(mgmt: string, names: set<string>, minActive: nat, h: Hub)
    requires Settled(h.fleet, mgmt) && |Awake(h.fleet, names)| >= minActive
    ensures EveryExecutionKeepsMinimum(mgmt, names, minActive, h) <==> Spared(mgmt, names, minActive, h)
  {
    if Spared(mgmt, names, minActive, h) {
      forall hubs: seq<Hub>, steps: seq<Step> | IsExecution(mgmt, minActive, h, hubs, steps)
        ensures |Awake(hubs[|steps|].fleet, names)| >= minActive
      {
        SparedExecution(mgmt, names, minActive, h, hubs, steps, |steps|);
      }
    } else {
      var hubs, steps := WorstExecution(mgmt, names, minActive, h);
      assert IsExecution(mgmt, minActive, h, hubs, steps);
    }
  }

  lemma {:induction false} SparedExecution(
      mgmt: string, names: set<string>, minActive: nat, h: Hub, hubs: seq<Hub>, steps: seq<Step>, j: nat)
    requires Settled(h.fleet, mgmt) && |Awake(h.fleet, names)| >= minActive && Spared(mgmt, names, minActive, h)
    requires IsExecution(mgmt, minActive, h, hubs, steps) && j <= |steps|
    ensures Settled(hubs[j].fleet, mgmt) && Spared(mgmt, names, minActive, hubs[j])
    ensures |Awake(hubs[j].fleet, names)| >= minActive
  {
    if j == 0 {
    } else {
      SparedExecution(mgmt, names, minActive, h, hubs, steps, j - 1);
      StepKeepsSettled(mgmt, minActive, hubs[j - 1], steps[j - 1], hubs[j]);
      StepKeepsSpared(mgmt, names, minActive, hubs[j - 1], steps[j - 1], hubs[j]);
    }
  }

  /** The worst execution: every hibernation succeeds and every wake-up is lost. Exactly the
      secure clusters are awake at its end. */
  lemma {:induction false} WorstExecution(mgmt: string, names: set<string>, minActive: nat, h: Hub)
    returns (hubs: seq<Hub>, steps: seq<Step>)
    requires Settled(h.fleet, mgmt)
    ensures IsExecution(mgmt, minActive, h, hubs, steps)
    ensures Awake(hubs[|steps|].fleet, names) == Secure(mgmt, names, h)
    decreases |h.pending|
  {
    if h.pending == [] {
      hubs, steps := [h], [];
    } else {
      var s, h' := WorstStep(mgmt, names, minActive, h);
      StepKeepsSettled(mgmt, minActive, h, s, h');
      var later, rest := WorstExecution(mgmt, names, minActive, h');
      hubs, steps := [h] + later, [s] + rest;
      RunFrom(mgmt, minActive, h, s, later, rest);
    }
  }

  lemma WorstStep(mgmt: string, names: set<string>, minActive: nat, h: Hub) returns (s: Step, h': Hub)
    requires Settled(h.fleet, mgmt) && h.pending != []
    ensures Next(mgmt, minActive, h, s, h') && !s.Snapshot? && |h'.pending| < |h.pending|
    ensures Secure(mgmt, names, h') == Secure(mgmt, names, h)
  {
    var d, rest := h.pending[0], h.pending[1..];
    assert h.pending == [d] + rest && Removed(h.pending, 0) == rest;
    assert forall x :: x in h.pending <==> x == d || x in rest;
    var succeeded := Outcomes(NoLocator, NoDrainer, true);
    if d.Hibernate? {
      s, h' := Execute(0, succeeded), Hub(AfterDirective(h.fleet, mgmt, d, succeeded), rest);
      forall name
        ensures name in Awake(h'.fleet, names) <==>
          name in Awake(h.fleet, names) && (name == d.cluster ==> name == mgmt)
      {
      }
      assert Doomed(h.pending, mgmt) == Doomed(rest, mgmt) + (if d.cluster == mgmt then {} else {d.cluster});
    } else {
      s, h' := Lose(0), Hub(h.fleet, rest);
      assert Doomed(h.pending, mgmt) == Doomed(rest, mgmt);
    }
  }

  /** A step in front of a run is a run. */
  lemma RunFrom(mgmt: string, minActive: nat, h: Hub, s: Step, hubs: seq<Hub>, steps: seq<Step>)
    requires IsRun(mgmt, minActive, hubs, steps) && Next(mgmt, minActive, h, s, hubs[0])
    ensures IsRun(mgmt, minActive, [h] + hubs, [s] + steps)
    ensures ([h] + hubs)[|[s] + steps|] == hubs[|steps|]
  {
    var hs, ss := [h] + hubs, [s] + steps;
    forall i | 0 <= i < |ss|
      ensures Next(mgmt, minActive, hs[i], ss[i], hs[i + 1])
    {
      if i > 0 {
        assert hs[i] == hubs[i - 1] && ss[i] == steps[i - 1];
      }
    }
  }

  // ----- passes that overlap -----

  function Lightly(name: string, usedCores: real): ClusterSnapshot {
    ClusterSnapshot(name, Healthy, 100.0, usedCores, false)
  }

  const KEEP_ONE := LifecyclePolicy(true, 1, 10, [])

  function ThreeClusters(a: string, b: string, c: string): seq<ClusterSnapshot> {
    [Lightly(a, 1.0), Lightly(b, 2.0), Lightly(c, 3.0)]
  }

  lemma TwoLeastUsed(a: string, b: string, c: string)
    ensures var cs := ThreeClusters(a, b, c);
      SortedByUtilization(cs, cs) && IsPlan(cs, cs, KEEP_ONE, [Hibernate(a), Hibernate(b)])
  {
    var cs := ThreeClusters(a, b, c);
    assert Utilization(cs[0]) == 1.0 && Utilization(cs[1]) == 2.0 && Utilization(cs[2]) == 3.0;
    ChooseTwo(cs[0], cs[1], cs[2], KEEP_ONE);
    assert Hibernations([cs[0], cs[1]]) == [Hibernate(a), Hibernate(b)];
  }

  /** A pass over three idle clusters with a minimum of one asks for the two least used. */
  lemma ThreeIdle(mgmt: string, h: Hub, a: string, b: string, c: string) returns (s: Step)
    requires a != b && b != c && a != c && h.fleet == Fleet(map[], map[])
    ensures s.Snapshot? && Faithful(h.fleet, {a, b, c}, s.clusters)
    ensures Next(mgmt, 1, h, s, Hub(h.fleet, h.pending + [Hibernate(a), Hibernate(b)]))
  {
    var cs := ThreeClusters(a, b, c);
    s := Snapshot(cs, cs, KEEP_ONE, [Hibernate(a), Hibernate(b)]);
    TwoLeastUsed(a, b, c);
    assert NamesOf(cs) == [a, b, c];
  }

  /** Why a pass must fit the queue: three idle clusters with a minimum of one. A pass asks for
      a and b; before they are drained their load has shifted and the next pass asks for c and
      b. Each pass spares one cluster, and executing both leaves none awake. */
  lemma OverlappingPasses(mgmt: string, a: string, b: string, c: string) returns (hubs: seq<Hub>, steps: seq<Step>)
    requires a != b && b != c && a != c && mgmt !in {a, b, c}
    ensures IsRun(mgmt, 1, hubs, steps) && |steps| >= 2
    ensures steps[0].Snapshot? && Faithful(hubs[0].fleet, {a, b, c}, steps[0].clusters)
    ensures steps[1].Snapshot? && Faithful(hubs[1].fleet, {a, b, c}, steps[1].clusters)
    ensures hubs[0] == Hub(Fleet(map[], map[]), []) && Settled(hubs[0].fleet, mgmt)
    ensures |Awake(hubs[0].fleet, {a, b, c})| == 3 && Awake(hubs[|steps|].fleet, {a, b, c}) == {}
  {
    var names, empty := {a, b, c}, Fleet(map[], map[]);
    var h0 := Hub(empty, []);
    var h1 := Hub(empty, h0.pending + [Hibernate(a), Hibernate(b)]);
    var h2 := Hub(empty, h1.pending + [Hibernate(c), Hibernate(b)]);
    var one := ThreeIdle(mgmt, h0, a, b, c);
    var two := ThreeIdle(mgmt, h1, c, b, a);
    assert {c, b, a} == names;
    assert Awake(empty, names) == names;
    hubs, steps := WorstExecution(mgmt, names, 1, h2);
    AllDoomed(mgmt, h2.pending, a, b, c);
    RunFrom(mgmt, 1, h1, two, hubs, steps);
    hubs, steps := [h1] + hubs, [two] + steps;
    RunFrom(mgmt, 1, h0, one, hubs, steps);
    hubs, steps := [h0] + hubs, [one] + steps;
  }

  lemma AllDoomed(mgmt: string, ds: seq<Directive>, a: string, b: string, c: string)
    requires mgmt !in {a, b, c} && ds == [] + [Hibernate(a), Hibernate(b)] + [Hibernate(c), Hibernate(b)]
    ensures {a, b, c} <= Doomed(ds, mgmt)
  {
    assert ds[0] == Hibernate(a) && ds[1] == Hibernate(b) && ds[2] == Hibernate(c);
    assert ds[0] in ds && ds[1] in ds && ds[2] in ds;
  }

  // ----- an asleep cluster shown as unreachable -----

  /** Why a snapshot must be faithful: a is asleep but shown as unreachable, so the pass counts
      it as active and asks for b, the only cluster awake. */
  lemma SleepShownUnreachable(mgmt: string, a: string, b: string) returns (hubs: seq<Hub>, steps: seq<Step>)
    requires a != b && mgmt !in {a, b}
    ensures IsRun(mgmt, 1, hubs, steps) && hubs[0].pending == [] && Settled(hubs[0].fleet, mgmt)
    ensures Awake(hubs[0].fleet, {a, b}) == {b} && Awake(hubs[|steps|].fleet, {a, b}) == {}
  {
    var h0 := Hub(Fleet(map[a := Asleep], map[a := ScaledToZero]), []);
    var cs := [ClusterSnapshot(a, Unreachable, 0.0, 0.0, false), Lightly(b, 1.0)];
    var one, h1 := Snapshot(cs, cs, KEEP_ONE, [Hibernate(b)]), Hub(h0.fleet, [Hibernate(b)]);
    OnlyReachable(cs[0], cs[1], KEEP_ONE);
    assert Hibernations([cs[1]]) == [Hibernate(b)] && h0.pending + [Hibernate(b)] == [Hibernate(b)];
    assert Next(mgmt, 1, h0, one, h1);
    hubs, steps := WorstExecution(mgmt, {a, b}, 1, h1);
    assert h1.pending[0] in h1.pending;
    assert Doomed(h1.pending, mgmt) == {b};
    RunFrom(mgmt, 1, h0, one, hubs, steps);
    hubs, steps := [h0] + hubs, [one] + steps;
  }
}

/** Hibernate and wake-up directives of one cluster taken apart where the manager releases its
    lock (internal/global/lifecycle.go:161-240), so that several can be in flight at once.

    A directive begins when the locked state check accepts it, then makes its collaborator
    calls, and finishes by setting the state. The finish of one directive overwrites what
    another has set meanwhile. */
module Interleaving {
  import opened Lifecycle

  datatype Kind = ToHibernate | ToWake

  /** A directive in flight: accepted, or with its calls made and its state still to be set.
      A hibernation is `ok` when no tenant lives only here, the drain and the scaler succeed. */
  datatype Flight = Begun(kind: Kind) | Called(kind: Kind, ok: bool)

  /** One cluster: its state, whether its last successful scaler call was to zero, and the
      directives in flight. */
  datatype Cluster = Cluster(state: LifecycleState, zeroed: bool, flights: seq<Flight>)

  datatype Move = Begin(kind: Kind) | Call(index: nat, ok: bool) | Finish(index: nat)

  /** The state check under the lock; any other directive returns at once. */
  predicate Accepts(state: LifecycleState, kind: Kind) {
    match kind
    case ToHibernate => state != Asleep && state != Draining
    case ToWake => state == Asleep || state == Draining
  }

  predicate Enabled(c: Cluster, m: Move) {
    match m
    case Begin(_) => true
    case Call(k, _) => k < |c.flights| && c.flights[k].Begun?
    case Finish(k) => k < |c.flights| && c.flights[k].Called?
  }

  function After(c: Cluster, m: Move): Cluster
    requires Enabled(c, m)
  {
    match m
    case Begin(kind) =>
      if Accepts(c.state, kind)
      then Cluster(if kind == ToHibernate then Draining else Waking, c.zeroed, c.flights + [Begun(kind)])
      else c
    case Call(k, ok) =>
      var kind := c.flights[k].kind;
      Cluster(c.state, if ok then kind == ToHibernate else c.zeroed, c.flights[k := Called(kind, ok)])
    case Finish(k) =>
      var f := c.flights[k];
      Cluster(if (f.kind == ToHibernate) == f.ok then Asleep else Active, c.zeroed, c.flights[..k] + c.flights[k + 1..])
  }

  /** What must hold between directives: active or asleep, and asleep exactly when the last
      successful scaler call was to zero. */
  predicate Consistent(c: Cluster) {
    c.state == if c.zeroed then Asleep else Active
  }

  // ----- one directive at a time -----

  /** A cluster as directives leave it when none begins while another is in flight. */
  predicate Tidy(c: Cluster) {
    if c.flights == [] then Consistent(c)
    else
      var f := c.flights[0];
      && |c.flights| == 1 && c.state == (if f.kind == ToHibernate then Draining else Waking)
      && c.zeroed == if f.Called? && f.ok then f.kind == ToHibernate else f.kind == ToWake
  }

  /** The directive is accepted while another one is in flight. */
  predicate Overlaps(c: Cluster, m: Move) {
    m.Begin? && Accepts(c.state, m.kind) && c.flights != []
  }

  lemma SerialMove(c: Cluster, m: Move)
    requires Tidy(c) && Enabled(c, m) && !Overlaps(c, m)
    ensures Tidy(After(c, m))
  {
  }

  ghost predicate IsRun(cs: seq<Cluster>, ms: seq<Move>) {
    && |cs| == |ms| + 1
    && (forall i :: 0 <= i < |ms| ==> Enabled(cs[i], ms[i]) && cs[i + 1] == After(cs[i], ms[i]))
  }

  /** Over any run without overlaps the cluster is consistent whenever nothing is in flight. */
  lemma {:induction false} SerialRun(cs: seq<Cluster>, ms: seq<Move>, j: nat)
    requires IsRun(cs, ms) && j < |cs| && Tidy(cs[0])
    requires forall i :: 0 <= i < j ==> !Overlaps(cs[i], ms[i])
    ensures Tidy(cs[j])
    ensures cs[j].flights == [] ==> Consistent(cs[j])
  {
    if j == 0 {
    } else {
      SerialRun(cs, ms, j - 1);
      SerialMove(cs[j - 1], ms[j - 1]);
    }
  }

  /** A directive run by itself. */
  function Alone(c: Cluster, kind: Kind, ok: bool): Cluster
    requires c.flights == []
  {
    var begun := After(c, Begin(kind));
    if Accepts(c.state, kind) then After(After(begun, Call(0, ok)), Finish(0)) else begun
  }

  /** One cluster of a fleet between directives. */
  function View(f: Fleet, name: string): Cluster {
    Cluster(if name in f.states then f.states[name] else Active,
            name in f.lastCall && f.lastCall[name] == ScaledToZero, [])
  }

  /** Run alone, the steps of a directive have exactly the effect of the whole directive. */
  lemma AloneIsWhole(f: Fleet, mgmt: string, name: string, o: Outcomes)
    ensures name != mgmt ==>
      View(AfterHibernate(f, mgmt, name, o), name) == Alone(View(f, name), ToHibernate, MayScaleDown(o))
    ensures View(AfterWakeUp(f, name, o.scaled), name) == Alone(View(f, name), ToWake, o.scaled)
  {
  }

  // ----- overlapping directives -----

  /** A run from c in which the directives in flight complete and no other begins. */
  ghost predicate Completes(c: Cluster, cs: seq<Cluster>, ms: seq<Move>) {
    && IsRun(cs, ms) && cs[0] == c && cs[|ms|].flights == []
    && (forall i :: 0 <= i < |ms| ==> !ms[i].Begin?)
  }

  /** However the directives in flight complete, the cluster ends consistent. */
  ghost predicate AlwaysSettles(c: Cluster) {
    forall cs, ms :: Completes(c, cs, ms) ==> Consistent(cs[|ms|])
  }

  /** The exact condition: a directive can begin without any completion breaking the cluster
      if and only if it is not accepted while another one is in flight. */
  lemma OverlapBreaksExactly(c: Cluster, kind: Kind)
    requires Tidy(c)
    ensures AlwaysSettles(After(c, Begin(kind))) <==> !Overlaps(c, Begin(kind))
  {
    var begun := After(c, Begin(kind));
    if Overlaps(c, Begin(kind)) {
      var cs, ms := BrokenCompletion(c, kind);
    } else {
      SerialMove(c, Begin(kind));
      forall cs, ms | Completes(begun, cs, ms)
        ensures Consistent(cs[|ms|])
      {
        SerialRun(cs, ms, |ms|);
      }
    }
  }

  /** After an overlap both directives can run to completion and leave the cluster broken:
      asleep although it was last scaled up, or awake although it was last scaled to zero. */
  lemma BrokenCompletion(c: Cluster, kind: Kind) returns (cs: seq<Cluster>, ms: seq<Move>)
    requires Tidy(c) && Overlaps(c, Begin(kind))
    ensures Completes(After(c, Begin(kind)), cs, ms) && !Consistent(cs[|ms|])
  {
    var both := After(c, Begin(kind));
    if c.flights[0].Begun? {
      cs, ms := LateFinish(After(both, Call(0, true)));
      CompleteAfter(both, Call(0, true), cs, ms);
      cs, ms := [both] + cs, [Call(0, true)] + ms;
    } else if c.flights[0].ok {
      cs, ms := LateFinish(both);
    } else {
      cs, ms := BothFail(both);
    }
  }

  lemma CompleteAfter(c: Cluster, m: Move, cs: seq<Cluster>, ms: seq<Move>)
    requires Enabled(c, m) && !m.Begin? && Completes(After(c, m), cs, ms)
    ensures Completes(c, [c] + cs, [m] + ms) && ([c] + cs)[|[m] + ms|] == cs[|ms|]
  {
    var cs', ms' := [c] + cs, [m] + ms;
    forall i | 0 <= i < |ms'|
      ensures Enabled(cs'[i], ms'[i]) && cs'[i + 1] == After(cs'[i], ms'[i])
    {
      if i > 0 {
        assert cs'[i] == cs[i - 1] && ms'[i] == ms[i - 1] && cs'[i + 1] == cs[i];
      }
    }
  }

  /** The first directive has made its call; the second one's call comes after it, but the
      first one sets the state last. */
  lemma LateFinish(c: Cluster) returns (cs: seq<Cluster>, ms: seq<Move>)
    requires |c.flights| == 2 && c.flights[0].Called? && c.flights[0].ok && c.flights[1].Begun?
    requires c.flights[0].kind != c.flights[1].kind
    ensures Completes(c, cs, ms) && !Consistent(cs[|ms|])
  {
    var called := After(c, Call(1, true));
    var one := After(called, Finish(1));
    var done := After(one, Finish(0));
    cs, ms := [c, called, one, done], [Call(1, true), Finish(1), Finish(0)];
  }

  /** Both directives fail; the second one reverts to the state the first one had left. */
  lemma BothFail(c: Cluster) returns (cs: seq<Cluster>, ms: seq<Move>)
    requires |c.flights| == 2 && c.flights[0].Called? && !c.flights[0].ok && c.flights[1].Begun?
    requires c.flights[0].kind != c.flights[1].kind && c.zeroed == (c.flights[0].kind == ToWake)
    ensures Completes(c, cs, ms) && !Consistent(cs[|ms|])
  {
    var called := After(c, Call(1, false));
    var one := After(called, Finish(0));
    var done := After(one, Finish(0));
    cs, ms := [c, called, one, done], [Call(1, false), Finish(0), Finish(0)];
  }

  /** The wake-up that breaks a drain: a hibernation scales to zero, a wake-up accepted
      meanwhile scales up and sets the cluster active, and the hibernation then sets it
      asleep. Both are complete, and the cluster is asleep with its nodes running. */
  lemma WakeWhileDraining() returns (cs: seq<Cluster>, ms: seq<Move>)
    ensures var draining := After(Cluster(Active, false, []), Begin(ToHibernate));
      Overlaps(draining, Begin(ToWake)) && Completes(After(draining, Begin(ToWake)), cs, ms)
    ensures cs[|ms|] == Cluster(Asleep, false, [])
  {
    var both := After(After(Cluster(Active, false, []), Begin(ToHibernate)), Begin(ToWake));
    var zeroed := After(both, Call(0, true));
    var raised := After(zeroed, Call(1, true));
    var active := After(raised, Finish(1));
    var asleep := After(active, Finish(0));
    cs, ms := [both, zeroed, raised, active, asleep], [Call(0, true), Call(1, true), Finish(1), Finish(0)];
  }
}

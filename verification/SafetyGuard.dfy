/** The actuation safety gate, internal/actuator/safety.go, and the controller step that
    drives it, actuate in internal/controller/optimizer_controller.go. Times are nanoseconds
    of a monotone clock. A ghost log of what happened is the specification. */
module SafetyGuard {
  import opened Basics

  const MAX_STRIKES := 3
  const PAUSE := 900 * SECOND

  datatype ServiceRef = ServiceRef(namespace: string, name: string)

  function ServiceKey(ref: ServiceRef): string {
    ref.namespace + "/" + ref.name
  }

  // ----- the log -----

  datatype Event =
    | Degraded(key: string, at: int)
    | Improved(key: string)
    | Expired(key: string)  // a check found the pause over and reset the breaker
    | Actuated(key: string, at: int, cooldownSeconds: int)

  /** Degraded outcomes of a service since its last improvement or reset. */
  function Strikes(log: seq<Event>, key: string): nat {
    if log == [] then 0
    else
      var e, before := log[|log| - 1], log[..|log| - 1];
      if e.key != key then Strikes(before, key)
      else match e
        case Degraded(_, _) => Strikes(before, key) + 1
        case Improved(_) => 0
        case Expired(_) => 0
        case Actuated(_, _, _) => Strikes(before, key)
  }

  /** Time of the service's latest degraded outcome. */
  function LastDegraded(log: seq<Event>, key: string): Option<int> {
    if log == [] then None
    else
      var e := log[|log| - 1];
      if e.Degraded? && e.key == key then Some(e.at) else LastDegraded(log[..|log| - 1], key)
  }

  function LastActuated(log: seq<Event>, key: string): Option<int> {
    if log == [] then None
    else
      var e := log[|log| - 1];
      if e.Actuated? && e.key == key then Some(e.at) else LastActuated(log[..|log| - 1], key)
  }

  // ----- what the checks must answer -----

  /** At least three strikes, the latest less than fifteen minutes ago. */
  predicate CircuitOpen(log: seq<Event>, key: string, now: int) {
    Strikes(log, key) >= MAX_STRIKES && LastDegraded(log, key).Some? && now < LastDegraded(log, key).value + PAUSE
  }

  predicate CooledDown(log: seq<Event>, key: string, cooldownSeconds: int, now: int) {
    cooldownSeconds <= 0 || LastActuated(log, key).None? ||
    now - LastActuated(log, key).value >= cooldownSeconds * SECOND
  }

  /** Every actuation came at least its own cooldown after the service's previous one. */
  ghost predicate CooldownsKept(log: seq<Event>) {
    forall j :: 0 <= j < |log| && log[j].Actuated? ==>
      CooledDown(log[..j], log[j].key, log[j].cooldownSeconds, log[j].at)
  }

  /** What every run keeps: cooldowns, and actuations in time order up to the clock. */
  ghost predicate Orderly(log: seq<Event>, clock: int) {
    && CooldownsKept(log)
    && (forall i :: 0 <= i < |log| && log[i].Actuated? ==> log[i].at <= clock)
    && (forall i, j :: 0 <= i < j < |log| && log[i].Actuated? && log[j].Actuated? ==> log[i].at <= log[j].at)
  }

  datatype Verdict = Allowed | EmergencyStop | CooldownActive | BreakerOpen

  datatype CircuitEntry = CircuitEntry(consecutiveStrikes: nat, pausedUntil: int)

  // ----- the same, read off the log directly -----

  /** The degraded outcomes of a service that no later improvement or reset of it follows. */
  ghost function Standing(log: seq<Event>, key: string): set<nat> {
    set i: nat | i < |log| && log[i].Degraded? && log[i].key == key && NoResetAfter(log, key, i)
  }

  ghost predicate NoResetAfter(log: seq<Event>, key: string, i: nat) {
    forall j :: i < j < |log| && log[j].key == key ==> !log[j].Improved? && !log[j].Expired?
  }

  lemma {:induction false} StrikesExactly(log: seq<Event>, key: string)
    ensures Strikes(log, key) == |Standing(log, key)|
  {
    if log == [] {
      assert Standing(log, key) == {};
    } else {
      var n := |log| - 1;
      StrikesExactly(log[..n], key);
      StandingStep(log, key);
    }
  }

  lemma StandingStep(log: seq<Event>, key: string)
    requires log != []
    ensures var n, e := |log| - 1, log[|log| - 1];
      Standing(log, key) ==
        if e.key != key || e.Actuated? then Standing(log[..n], key)
        else if e.Degraded? then Standing(log[..n], key) + {n}
        else {}
  {
    var n := |log| - 1;
    forall i: nat | i < n
      ensures NoResetAfter(log, key, i) <==>
        NoResetAfter(log[..n], key, i) && (log[n].key == key ==> !log[n].Improved? && !log[n].Expired?)
    {
    }
    assert NoResetAfter(log, key, n);
    assert forall i :: 0 <= i < n ==> log[..n][i] == log[i];
  }

  /** The latest event of a kind: nothing of that kind and service comes after it. */
  ghost predicate IsLatest(log: seq<Event>, key: string, i: int, degraded: bool) {
    && 0 <= i < |log| && log[i].key == key && (if degraded then log[i].Degraded? else log[i].Actuated?)
    && forall j :: i < j < |log| && log[j].key == key ==> if degraded then !log[j].Degraded? else !log[j].Actuated?
  }

  lemma {:induction false} LatestExactly(log: seq<Event>, key: string, i: int)
    ensures IsLatest(log, key, i, true) ==> LastDegraded(log, key) == Some(log[i].at)
    ensures IsLatest(log, key, i, false) ==> LastActuated(log, key) == Some(log[i].at)
    ensures LastDegraded(log, key).None? <==> forall j :: 0 <= j < |log| && log[j].key == key ==> !log[j].Degraded?
    ensures LastActuated(log, key).None? <==> forall j :: 0 <= j < |log| && log[j].key == key ==> !log[j].Actuated?
  {
    if log == [] {
    } else {
      var n := |log| - 1;
      LatestExactly(log[..n], key, i);
      assert forall j :: 0 <= j < n ==> log[..n][j] == log[j];
    }
  }

  /** The circuit is open exactly with three degraded outcomes standing and the service's latest
      degraded outcome less than fifteen minutes ago. */
  lemma CircuitOpenExactly(log: seq<Event>, key: string, now: int)
    ensures CircuitOpen(log, key, now) <==>
      |Standing(log, key)| >= 3 && exists i :: IsLatest(log, key, i, true) && now - log[i].at < 900_000_000_000
  {
    StrikesExactly(log, key);
    var i := FindLatest(log, key, true);
    LatestExactly(log, key, i);
    forall j | IsLatest(log, key, j, true)
      ensures LastDegraded(log, key) == Some(log[j].at)
    {
      LatestExactly(log, key, j);
    }
  }

  /** A service has cooled down exactly when all its actuations are a cooldown ago. */
  lemma CooledDownExactly(log: seq<Event>, clock: int, key: string, cooldownSeconds: int, now: int)
    requires Orderly(log, clock)
    ensures CooledDown(log, key, cooldownSeconds, now) <==>
      cooldownSeconds <= 0 || forall i :: 0 <= i < |log| && log[i].Actuated? && log[i].key == key ==>
                                now - log[i].at >= cooldownSeconds * 1_000_000_000
  {
    var k := FindLatest(log, key, false);
    LatestExactly(log, key, k);
  }

  lemma {:induction false} FindLatest(log: seq<Event>, key: string, degraded: bool) returns (i: int)
    ensures IsLatest(log, key, i, degraded) ||
      forall j :: 0 <= j < |log| && log[j].key == key ==> if degraded then !log[j].Degraded? else !log[j].Actuated?
  {
    i := -1;
    if log == [] {
    } else {
      var n := |log| - 1;
      if log[n].key == key && (if degraded then log[n].Degraded? else log[n].Actuated?) {
        i := n;
      } else {
        i := FindLatest(log[..n], key, degraded);
        assert forall j :: 0 <= j < n ==> log[..n][j] == log[j];
      }
    }
  }

  // ----- the guard's maps as a summary of the log -----

  ghost predicate Matches(circuits: map<string, CircuitEntry>, cooldowns: map<string, int>, log: seq<Event>,
                          key: string) {
    && (key in circuits <==> Strikes(log, key) > 0)
    && (key in circuits ==> circuits[key].consecutiveStrikes == Strikes(log, key) && LastDegraded(log, key).Some?)
    && (Strikes(log, key) >= MAX_STRIKES ==> circuits[key].pausedUntil == LastDegraded(log, key).value + PAUSE)
    && (key in cooldowns <==> LastActuated(log, key).Some?)
    && (key in cooldowns ==> cooldowns[key] == LastActuated(log, key).value)
  }

  ghost predicate Summarises(circuits: map<string, CircuitEntry>, cooldowns: map<string, int>, log: seq<Event>) {
    forall key :: Matches(circuits, cooldowns, log, key)
  }

  /** An entry with one more strike. */
  function Struck(circuits: map<string, CircuitEntry>, key: string, now: int): CircuitEntry {
    var entry := if key in circuits then circuits[key] else CircuitEntry(0, 0);
    var strikes := entry.consecutiveStrikes + 1;
    CircuitEntry(strikes, if strikes >= MAX_STRIKES then now + PAUSE else entry.pausedUntil)
  }

  lemma SummaryAfter(circuits: map<string, CircuitEntry>, cooldowns: map<string, int>, log: seq<Event>, e: Event)
    requires Summarises(circuits, cooldowns, log)
    ensures e.Actuated? ==> Summarises(circuits, cooldowns[e.key := e.at], log + [e])
    ensures e.Improved? || e.Expired? ==> Summarises(circuits - {e.key}, cooldowns, log + [e])
    ensures e.Degraded? ==> Summarises(circuits[e.key := Struck(circuits, e.key, e.at)], cooldowns, log + [e])
  {
    assert (log + [e])[..|log + [e]| - 1] == log;
    assert Matches(circuits, cooldowns, log, e.key);
    var circuits' := if e.Actuated? then circuits
                     else if e.Degraded? then circuits[e.key := Struck(circuits, e.key, e.at)]
                     else circuits - {e.key};
    var cooldowns' := if e.Actuated? then cooldowns[e.key := e.at] else cooldowns;
    forall key
      ensures Matches(circuits', cooldowns', log + [e], key)
    {
      assert Matches(circuits, cooldowns, log, key);
    }
  }

  class SafetyGuard {
    var circuits: map<string, CircuitEntry>
    var cooldowns: map<string, int>
    ghost var log: seq<Event>
    ghost var clock: int  // latest clock reading

    constructor (ghost start: int)
      ensures Valid() && log == [] && clock == start
    {
      circuits, cooldowns, log, clock := map[], map[], [], start;
    }

    ghost predicate Valid()
      reads this
    {
      Summarises(circuits, cooldowns, log) && Orderly(log, clock)
    }

    method CheckCooldown(ref: ServiceRef, cooldownSeconds: int, now: int) returns (ok: bool)
      requires Valid() && now >= clock
      modifies this`clock
      ensures Valid() && clock == now
      ensures ok == CooledDown(log, ServiceKey(ref), cooldownSeconds, now)
    {
      clock := now;
      if cooldownSeconds <= 0 {
        return true;
      }
      var key := ServiceKey(ref);
      assert Matches(circuits, cooldowns, log, key);
      if key !in cooldowns {
        return true;
      }
      ok := !(now - cooldowns[key] < cooldownSeconds * SECOND);
    }

    /** `cooldownSeconds` is the cooldown the actuation was admitted with; one that passed no
        gate has cooldown 0, which the requirement always allows. */
    method RecordActuation(ref: ServiceRef, now: int, ghost cooldownSeconds: int)
      requires Valid() && now >= clock && CooledDown(log, ServiceKey(ref), cooldownSeconds, now)
      modifies this`cooldowns, this`log, this`clock
      ensures Valid() && clock == now
      ensures log == old(log) + [Actuated(ServiceKey(ref), now, cooldownSeconds)]
    {
      var key := ServiceKey(ref);
      SummaryAfter(circuits, cooldowns, log, Actuated(key, now, cooldownSeconds));
      OrderlyAfter(log, clock, Actuated(key, now, cooldownSeconds), now);
      cooldowns := cooldowns[key := now];
      log, clock := log + [Actuated(key, now, cooldownSeconds)], now;
    }

    /** Refuses exactly while the circuit is open; a check after the pause resets it. */
    method CheckCircuit(ref: ServiceRef, now: int) returns (ok: bool)
      requires Valid() && now >= clock
      modifies this`circuits, this`log, this`clock
      ensures Valid() && clock == now
      ensures !ok <==> CircuitOpen(old(log), ServiceKey(ref), now)
      ensures log == if ok then Gated(old(log), ServiceKey(ref)) else old(log)
    {
      clock := now;
      var key := ServiceKey(ref);
      assert Matches(circuits, cooldowns, log, key);
      if key !in circuits {
        return true;
      }
      if circuits[key].consecutiveStrikes >= MAX_STRIKES {
        if now < circuits[key].pausedUntil {
          return false;
        }
        SummaryAfter(circuits, cooldowns, log, Expired(key));
        OrderlyAfter(log, clock, Expired(key), now);
        circuits := circuits - {key};
        log := log + [Expired(key)];
      }
      return true;
    }

    method RecordOutcome(ref: ServiceRef, improved: bool, now: int)
      requires Valid() && now >= clock
      modifies this`circuits, this`log, this`clock
      ensures Valid() && clock == now
      ensures log == old(log) + [if improved then Improved(ServiceKey(ref)) else Degraded(ServiceKey(ref), now)]
    {
      var key := ServiceKey(ref);
      if improved {
        SummaryAfter(circuits, cooldowns, log, Improved(key));
        OrderlyAfter(log, clock, Improved(key), now);
        circuits := circuits - {key};
        log, clock := log + [Improved(key)], now;
        return;
      }
      var entry := if key in circuits then circuits[key] else CircuitEntry(0, 0);
      entry := entry.(consecutiveStrikes := entry.consecutiveStrikes + 1);
      if entry.consecutiveStrikes >= MAX_STRIKES {
        entry := entry.(pausedUntil := now + PAUSE);
      }
      SummaryAfter(circuits, cooldowns, log, Degraded(key, now));
      OrderlyAfter(log, clock, Degraded(key, now), now);
      circuits := circuits[key := entry];
      log, clock := log + [Degraded(key, now)], now;
    }

    /** The three checks in order; `stopped` is the emergency-stop signal. */
    method Allow(ref: ServiceRef, cooldownSeconds: int, stopped: bool, now: int, later: int) returns (v: Verdict)
      requires Valid() && clock <= now <= later
      modifies this`circuits, this`log, this`clock
      ensures Valid() && clock <= later
      ensures v == (if stopped then EmergencyStop
                    else if !CooledDown(old(log), ServiceKey(ref), cooldownSeconds, now) then CooldownActive
                    else if CircuitOpen(old(log), ServiceKey(ref), later) then BreakerOpen
                    else Allowed)
      ensures log == if v == Allowed then Gated(old(log), ServiceKey(ref)) else old(log)
    {
      if stopped {
        return EmergencyStop;
      }
      var cool := CheckCooldown(ref, cooldownSeconds, now);
      if !cool {
        return CooldownActive;
      }
      var closed := CheckCircuit(ref, later);
      if !closed {
        return BreakerOpen;
      }
      v := Allowed;
    }

    /** One controller step: gate, apply, record. It appends exactly its own events. */
    method Actuate(ref: ServiceRef, cooldownSeconds: int, stopped: bool, result: ActuationResult,
                   gateAt: int, circuitAt: int, doneAt: int) returns (v: Verdict)
      requires Valid() && clock <= gateAt <= circuitAt <= doneAt
      modifies this
      ensures Valid() && clock <= doneAt
      ensures v != Allowed ==> log == old(log)
      ensures v == Allowed ==> log == AfterStep(old(log), ServiceKey(ref), cooldownSeconds, result, doneAt)
      ensures v == Allowed <==> !stopped && CooledDown(old(log), ServiceKey(ref), cooldownSeconds, gateAt) &&
                                !CircuitOpen(old(log), ServiceKey(ref), circuitAt)
    {
      v := Allow(ref, cooldownSeconds, stopped, gateAt, circuitAt);
      if v != Allowed {
        return;
      }
      if result == ApplyError {
        RecordOutcome(ref, false, doneAt);
        return;
      }
      if result == Applied {
        GatedKeepsActuations(old(log), ServiceKey(ref));
        RecordActuation(ref, doneAt, cooldownSeconds);
        RecordOutcome(ref, true, doneAt);
      }
    }

    /** Over every run, any two actuations of a service are at least the later one's cooldown
        apart. */
    lemma GapBetweenActuations(i: nat, j: nat)
      requires Valid() && i < j < |log|
      requires log[i].Actuated? && log[j].Actuated? && log[i].key == log[j].key && log[j].cooldownSeconds > 0
      ensures log[j].at - log[i].at >= log[j].cooldownSeconds * SECOND
    {
      LatestIsLater(log[..j], i, log[i].key);
    }
  }

  // ----- runs -----

  datatype ActuationResult = ApplyError | Applied | NotApplied

  /** The log after the circuit check let a service through. */
  function Gated(log: seq<Event>, key: string): seq<Event> {
    if Strikes(log, key) >= MAX_STRIKES then log + [Expired(key)] else log
  }

  /** The log after an admitted step. */
  function AfterStep(log: seq<Event>, key: string, cooldownSeconds: int, result: ActuationResult, now: int)
    : seq<Event>
  {
    match result
    case ApplyError => Gated(log, key) + [Degraded(key, now)]
    case Applied => Gated(log, key) + [Actuated(key, now, cooldownSeconds)] + [Improved(key)]
    case NotApplied => Gated(log, key)
  }

  /** What an admitted step leaves behind: an applied change stamps the actuation and clears the
      strikes, a failed one adds a strike to what the gate left, and one not applied does neither. */
  lemma StepCounts(log: seq<Event>, key: string, cooldownSeconds: int, result: ActuationResult, now: int)
    ensures var after, standing := AfterStep(log, key, cooldownSeconds, result, now), Strikes(Gated(log, key), key);
      && standing == (if Strikes(log, key) >= 3 then 0 else Strikes(log, key))
      && (result == Applied ==> Strikes(after, key) == 0 && LastActuated(after, key) == Some(now))
      && (result == ApplyError ==> Strikes(after, key) == standing + 1 && LastDegraded(after, key) == Some(now))
      && (result != Applied ==> LastActuated(after, key) == LastActuated(log, key))
      && (result == NotApplied ==>
        Strikes(after, key) == standing && LastDegraded(after, key) == LastDegraded(log, key))
  {
    var gated := Gated(log, key);
    assert (log + [Expired(key)])[..|log|] == log;
    assert (gated + [Degraded(key, now)])[..|gated|] == gated;
    var stamped := gated + [Actuated(key, now, cooldownSeconds)];
    assert stamped[..|gated|] == gated && (stamped + [Improved(key)])[..|stamped|] == stamped;
  }

  lemma GatedKeepsActuations(log: seq<Event>, key: string)
    ensures LastActuated(Gated(log, key), key) == LastActuated(log, key)
  {
    assert (log + [Expired(key)])[..|log|] == log;
  }

  lemma OrderlyAfter(log: seq<Event>, clock: int, e: Event, now: int)
    requires Orderly(log, clock) && clock <= now
    requires e.Actuated? ==> e.at == now && CooledDown(log, e.key, e.cooldownSeconds, now)
    ensures Orderly(log + [e], now)
  {
    assert (log + [e])[..|log|] == log;
    forall j | 0 <= j < |log + [e]| && (log + [e])[j].Actuated?
      ensures CooledDown((log + [e])[..j], (log + [e])[j].key, (log + [e])[j].cooldownSeconds, (log + [e])[j].at)
    {
      if j < |log| {
        assert (log + [e])[..j] == log[..j];
      }
    }
  }

  lemma {:induction false} LatestIsLater(log: seq<Event>, i: nat, key: string)
    requires i < |log| && log[i].Actuated? && log[i].key == key
    requires forall a, b :: 0 <= a < b < |log| && log[a].Actuated? && log[b].Actuated? ==> log[a].at <= log[b].at
    ensures LastActuated(log, key).Some? && LastActuated(log, key).value >= log[i].at
  {
    var n := |log| - 1;
    if log[n].Actuated? && log[n].key == key {
    } else {
      LatestIsLater(log[..n], i, key);
    }
  }

  // ----- independence of services -----

  /** The events of one service. */
  function Only(log: seq<Event>, key: string): seq<Event> {
    if log == [] then []
    else
      var before := Only(log[..|log| - 1], key);
      if log[|log| - 1].key == key then before + [log[|log| - 1]] else before
  }

  /** What the gate answers for a service depends on that service's events alone. */
  lemma {:induction false} ServicesIndependent(log: seq<Event>, key: string)
    ensures Strikes(log, key) == Strikes(Only(log, key), key)
    ensures LastDegraded(log, key) == LastDegraded(Only(log, key), key)
    ensures LastActuated(log, key) == LastActuated(Only(log, key), key)
  {
    if log == [] {
    } else {
      var n := |log| - 1;
      ServicesIndependent(log[..n], key);
      var before := Only(log[..n], key);
      if log[n].key == key {
        assert (before + [log[n]])[..|before|] == before;
      }
    }
  }

  /** The two can be confused: b's namespace continues a's past a slash, into a's name. */
  ghost predicate Overlap(a: ServiceRef, b: ServiceRef) {
    exists mid: string :: b.namespace == a.namespace + "/" + mid && a.name == mid + "/" + b.name
  }

  ghost predicate Confusable(a: ServiceRef, b: ServiceRef) {
    Overlap(a, b) || Overlap(b, a)
  }

  lemma OverlapExactly(a: ServiceRef, b: ServiceRef)
    requires |a.namespace| < |b.namespace|
    ensures ServiceKey(a) == ServiceKey(b) <==> Overlap(a, b)
  {
    if Overlap(a, b) {
      var mid: string :| b.namespace == a.namespace + "/" + mid && a.name == mid + "/" + b.name;
      assert a.namespace + "/" + (mid + "/" + b.name) == a.namespace + "/" + mid + "/" + b.name;
    }
    if ServiceKey(a) == ServiceKey(b) {
      var k, m, n := ServiceKey(a), |a.namespace|, |b.namespace|;
      var mid := b.namespace[m + 1..];
      assert k[..m] == a.namespace && k[m] == '/' && k[m + 1..] == a.name;
      assert k[..n] == b.namespace && k[n] == '/' && k[n + 1..] == b.name;
      assert b.namespace == k[..m] + [k[m]] + mid;
      assert k[m + 1..] == mid + "/" + k[n + 1..];
    }
  }

  /** Two different services share a key if and only if they are confusable. So keys are
      distinct when namespaces have no slash, and also when names have none. */
  lemma KeysCollideExactly(a: ServiceRef, b: ServiceRef)
    requires a != b
    ensures ServiceKey(a) == ServiceKey(b) <==> Confusable(a, b)
    ensures ServiceKey(a) == ServiceKey(b) ==>
      ('/' in a.namespace || '/' in b.namespace) && ('/' in a.name || '/' in b.name)
  {
    if |a.namespace| < |b.namespace| {
      OverlapExactly(a, b);
    } else if |a.namespace| > |b.namespace| {
      OverlapExactly(b, a);
    } else {
      SplitAtNamespace(a);
      SplitAtNamespace(b);
    }
  }

  lemma SplitAtNamespace(a: ServiceRef)
    ensures var k, m := ServiceKey(a), |a.namespace|; m < |k| && k[..m] == a.namespace && k[m + 1..] == a.name
  {
  }

  /** The log without the events recorded under a key. */
  function Without(log: seq<Event>, key: string): seq<Event> {
    if log == [] then []
    else
      var before := Without(log[..|log| - 1], key);
      if log[|log| - 1].key == key then before else before + [log[|log| - 1]]
  }

  /** Both checks answer alike for the service on the two logs, at any time. */
  ghost predicate SameAnswers(a: seq<Event>, b: seq<Event>, key: string) {
    && (forall seconds, now :: CooledDown(a, key, seconds, now) == CooledDown(b, key, seconds, now))
    && (forall now :: CircuitOpen(a, key, now) == CircuitOpen(b, key, now))
  }

  lemma {:induction false} OthersRemoved(log: seq<Event>, key: string, other: string)
    requires key != other
    ensures Only(Without(log, other), key) == Only(log, key)
  {
    if log == [] {
    } else {
      var n := |log| - 1;
      OthersRemoved(log[..n], key, other);
      var before := Without(log[..n], other);
      assert (before + [log[n]])[..|before|] == before;
    }
  }

  /** What is recorded for a never changes the answers for b. */
  ghost predicate NeverAffects(a: ServiceRef, b: ServiceRef) {
    forall log :: SameAnswers(log, Without(log, ServiceKey(a)), ServiceKey(b))
  }

  /** Two different services never affect each other, whatever was recorded for either, if
      and only if they are not confusable. */
  lemma NeverAffectExactly(a: ServiceRef, b: ServiceRef)
    requires a != b
    ensures NeverAffects(a, b) <==> !Confusable(a, b)
  {
    KeysCollideExactly(a, b);
    var key, other := ServiceKey(b), ServiceKey(a);
    if Confusable(a, b) {
      var log := [Actuated(other, 0, 1)];
      assert log[..0] == [] && Without(log, other) == [];
      assert LastActuated(log, key) == Some(0) && !CooledDown(log, key, 1, 0);
      assert CooledDown([], key, 1, 0);
      assert !SameAnswers(log, [], key);
    } else {
      forall log
        ensures SameAnswers(log, Without(log, other), key)
      {
        OthersRemoved(log, key, other);
        ServicesIndependent(log, key);
        ServicesIndependent(Without(log, other), key);
      }
    }
  }

  /** Two services that share a key. */
  lemma SlashCollides()
    ensures Confusable(ServiceRef("a/b", "c"), ServiceRef("a", "b/c"))
    ensures ServiceKey(ServiceRef("a/b", "c")) == ServiceKey(ServiceRef("a", "b/c"))
  {
    assert "a/b" == "a" + "/" + "b" && "b/c" == "b" + "/" + "c";
    KeysCollideExactly(ServiceRef("a/b", "c"), ServiceRef("a", "b/c"));
  }
}

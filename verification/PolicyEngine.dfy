/** Constraint evaluation, internal/cel/engine.go, and how the solver records it,
    applyConstraints in internal/engine/solver.go.

    A compiled program is the meaning of its expression text: `eval` is an arbitrary
    function of the expression and the plan, and it may fail. */
module PolicyEngine {
  import opened Basics
  import opened EngineTypes
  import opened Numbers

  datatype EvalOutcome =
    | EvalError(message: string)
    | Value(holds: bool)
    | NotBool

  datatype CompiledConstraint = CompiledConstraint(expr: string, reason: string, hard: bool)

  datatype PolicyEngine = PolicyEngine(
    programs: map<string, seq<CompiledConstraint>>,
    eval: (string, CandidatePlan) -> EvalOutcome)

  datatype ConstraintViolation = ConstraintViolation(expr: string, reason: string, hard: bool)

  datatype EvalResult = EvalResult(passed: bool, violations: seq<ConstraintViolation>, penalties: real)

  const SOFT_PENALTY := 0.1

  // ----- one constraint -----

  predicate Fails(e: PolicyEngine, c: CompiledConstraint, plan: CandidatePlan) {
    e.eval(c.expr, plan) != Value(true)
  }

  /** Soft constraints that evaluate, but not to true, cost a penalty; errors do not. */
  function Penalty(e: PolicyEngine, c: CompiledConstraint, plan: CandidatePlan): real {
    if !c.hard && Fails(e, c, plan) && !e.eval(c.expr, plan).EvalError? then SOFT_PENALTY else 0.0
  }

  function ViolationOf(e: PolicyEngine, c: CompiledConstraint, plan: CandidatePlan): ConstraintViolation {
    var out := e.eval(c.expr, plan);
    ConstraintViolation(c.expr, if out.EvalError? then "evaluation error: " + out.message else c.reason, c.hard)
  }

  // ----- all constraints of a policy -----

  function Violations(e: PolicyEngine, cs: seq<CompiledConstraint>, plan: CandidatePlan): seq<ConstraintViolation> {
    if cs == [] then []
    else
      var n := |cs| - 1;
      var before := Violations(e, cs[..n], plan);
      if Fails(e, cs[n], plan) then before + [ViolationOf(e, cs[n], plan)] else before
  }

  function Penalties(e: PolicyEngine, cs: seq<CompiledConstraint>, plan: CandidatePlan): (p: real)
    ensures p >= 0.0
  {
    if cs == [] then 0.0
    else Penalties(e, cs[..|cs| - 1], plan) + Penalty(e, cs[|cs| - 1], plan)
  }

  predicate PassesHard(e: PolicyEngine, cs: seq<CompiledConstraint>, plan: CandidatePlan) {
    forall c :: c in cs && c.hard ==> !Fails(e, c, plan)
  }

  lemma PassesHardStep(e: PolicyEngine, cs: seq<CompiledConstraint>, i: nat, plan: CandidatePlan)
    requires i < |cs|
    ensures PassesHard(e, cs[..i + 1], plan) <==>
      PassesHard(e, cs[..i], plan) && (cs[i].hard ==> !Fails(e, cs[i], plan))
  {
  }

  method Evaluate(e: PolicyEngine, key: string, plan: CandidatePlan) returns (r: Option<EvalResult>)
    ensures r.None? <==> key !in e.programs
    ensures r.Some? ==> r.value.passed == PassesHard(e, e.programs[key], plan)
    ensures r.Some? ==> r.value.violations == Violations(e, e.programs[key], plan)
    ensures r.Some? ==> r.value.penalties == Penalties(e, e.programs[key], plan)
  {
    if key !in e.programs {
      return None;
    }
    var cs := e.programs[key];
    var passed, violations, penalties := true, [], 0.0;
    for i := 0 to |cs|
      invariant passed == PassesHard(e, cs[..i], plan)
      invariant violations == Violations(e, cs[..i], plan)
      invariant penalties == Penalties(e, cs[..i], plan)
    {
      var c := cs[i];
      assert cs[..i + 1][..i] == cs[..i];
      PassesHardStep(e, cs, i, plan);
      var out := e.eval(c.expr, plan);
      if out.EvalError? {
        violations := violations + [ConstraintViolation(c.expr, "evaluation error: " + out.message, c.hard)];
        if c.hard {
          passed := false;
        }
        continue;
      }
      if out != Value(true) {
        violations := violations + [ConstraintViolation(c.expr, c.reason, c.hard)];
        if c.hard {
          passed := false;
        } else {
          penalties := penalties + SOFT_PENALTY;
        }
      }
    }
    assert cs[..|cs|] == cs;
    r := Some(EvalResult(passed, violations, penalties));
  }

  // ----- what applyConstraints records -----

  function FailedRecords(vs: seq<ConstraintViolation>, policy: string): seq<ConstraintResult> {
    if vs == [] then []
    else
      var v := vs[|vs| - 1];
      FailedRecords(vs[..|vs| - 1], policy) + [ConstraintResult(v.expr, v.reason, v.hard, false, policy)]
  }

  predicate Violated(vs: seq<ConstraintViolation>, expr: string) {
    exists v :: v in vs && v.expr == expr
  }

  function PassedRecords(vs: seq<ConstraintViolation>, cs: seq<CompiledConstraint>, policy: string)
    : seq<ConstraintResult>
  {
    if cs == [] then []
    else
      var c := cs[|cs| - 1];
      var before := PassedRecords(vs, cs[..|cs| - 1], policy);
      if Violated(vs, c.expr) then before
      else before + [ConstraintResult(c.expr, c.reason, c.hard, true, policy)]
  }

  function Records(e: PolicyEngine, cs: seq<CompiledConstraint>, plan: CandidatePlan, policy: string)
    : seq<ConstraintResult>
  {
    var vs := Violations(e, cs, plan);
    FailedRecords(vs, policy) + PassedRecords(vs, cs, policy)
  }

  function Penalize(weighted: real, penalties: real): real {
    if penalties > 0.0 then (if weighted - penalties < 0.0 then 0.0 else weighted - penalties) else weighted
  }

  /** The effect of one matched policy on one scored candidate. */
  function Constrain(e: Option<PolicyEngine>, p: MatchedPolicy, sc: ScoredCandidate): ScoredCandidate {
    if e.None? || p.key !in e.value.programs then sc
    else
      var cs := e.value.programs[p.key];
      ScoredCandidate(
        sc.plan,
        sc.score.(weighted := Penalize(sc.score.weighted, Penalties(e.value, cs, sc.plan))),
        sc.constraints + Records(e.value, cs, sc.plan, p.name),
        sc.viable && PassesHard(e.value, cs, sc.plan))
  }

  function ConstrainAll(e: Option<PolicyEngine>, ps: seq<MatchedPolicy>, sc: ScoredCandidate): ScoredCandidate {
    if ps == [] then sc
    else Constrain(e, ps[|ps| - 1], ConstrainAll(e, ps[..|ps| - 1], sc))
  }

  method ApplyConstraints(e: Option<PolicyEngine>, scored: array<ScoredCandidate>, p: MatchedPolicy)
    modifies scored
    ensures forall i :: 0 <= i < scored.Length ==> scored[i] == Constrain(e, p, old(scored[i]))
  {
    if e.None? {
      return;
    }
    if p.key !in e.value.programs {
      return;
    }
    for i := 0 to scored.Length
      invariant forall k :: 0 <= k < i ==> scored[k] == Constrain(e, p, old(scored[k]))
      invariant forall k :: i <= k < scored.Length ==> scored[k] == old(scored[k])
    {
      scored[i] := ConstrainOne(e.value, p, scored[i]);
    }
  }

  method ConstrainOne(e: PolicyEngine, p: MatchedPolicy, sc: ScoredCandidate) returns (r: ScoredCandidate)
    requires p.key in e.programs
    ensures r == Constrain(Some(e), p, sc)
  {
    var result := Evaluate(e, p.key, sc.plan);
    // The policy is compiled, so evaluation cannot report it missing.
    assert result.Some?;
    var records := RecordOutcomes(result.value.violations, e.programs[p.key], p.name);
    var weighted := sc.score.weighted;
    if result.value.penalties > 0.0 {
      weighted := weighted - result.value.penalties;
      if weighted < 0.0 {
        weighted := 0.0;
      }
    }
    r := ScoredCandidate(sc.plan, sc.score.(weighted := weighted),
                         sc.constraints + records, sc.viable && result.value.passed);
  }

  method RecordOutcomes(vs: seq<ConstraintViolation>, cs: seq<CompiledConstraint>, policy: string)
    returns (records: seq<ConstraintResult>)
    ensures records == FailedRecords(vs, policy) + PassedRecords(vs, cs, policy)
  {
    records := [];
    for k := 0 to |vs|
      invariant records == FailedRecords(vs[..k], policy)
    {
      assert vs[..k + 1][..k] == vs[..k];
      records := records + [ConstraintResult(vs[k].expr, vs[k].reason, vs[k].hard, false, policy)];
    }
    assert vs[..|vs|] == vs;
    for k := 0 to |cs|
      invariant records == FailedRecords(vs, policy) + PassedRecords(vs, cs[..k], policy)
    {
      assert cs[..k + 1][..k] == cs[..k];
      var violated := HasExpr(vs, cs[k].expr);
      if !violated {
        records := records + [ConstraintResult(cs[k].expr, cs[k].reason, cs[k].hard, true, policy)];
      }
    }
    assert cs[..|cs|] == cs;
  }

  method HasExpr(vs: seq<ConstraintViolation>, expr: string) returns (violated: bool)
    ensures violated == Violated(vs, expr)
  {
    for k := 0 to |vs|
      invariant forall j :: 0 <= j < k ==> vs[j].expr != expr
    {
      if vs[k].expr == expr {
        assert vs[k] in vs;
        return true;
      }
    }
    return false;
  }

  // ----- every constraint is accounted for exactly once -----

  /** A record without its free-text reason. */
  datatype Entry = Entry(expr: string, hard: bool, passed: bool, policy: string)

  function EntryOf(r: ConstraintResult): Entry {
    Entry(r.expr, r.hard, r.passed, r.policyName)
  }

  function Entries(rs: seq<ConstraintResult>): seq<Entry> {
    if rs == [] then [] else Entries(rs[..|rs| - 1]) + [EntryOf(rs[|rs| - 1])]
  }

  /** Reference account: one entry per constraint, with its true outcome. */
  function Account(e: PolicyEngine, cs: seq<CompiledConstraint>, plan: CandidatePlan, policy: string): seq<Entry> {
    if cs == [] then []
    else
      var c := cs[|cs| - 1];
      Account(e, cs[..|cs| - 1], plan, policy) + [Entry(c.expr, c.hard, !Fails(e, c, plan), policy)]
  }

  /** Read directly: one entry per constraint, passed exactly when it evaluates to true. */
  lemma {:induction false} AccountExactly(e: PolicyEngine, cs: seq<CompiledConstraint>, plan: CandidatePlan,
                                          policy: string)
    ensures |Account(e, cs, plan, policy)| == |cs|
    ensures forall i :: 0 <= i < |cs| ==>
      Account(e, cs, plan, policy)[i] == Entry(cs[i].expr, cs[i].hard, e.eval(cs[i].expr, plan) == Value(true), policy)
  {
    if cs == [] {
    } else {
      AccountExactly(e, cs[..|cs| - 1], plan, policy);
    }
  }

  lemma {:induction false} EntriesAppend(a: seq<ConstraintResult>, b: seq<ConstraintResult>)
    ensures Entries(a + b) == Entries(a) + Entries(b)
  {
    if b == [] {
      assert a + b == a;
    } else {
      var n := |b| - 1;
      assert (a + b)[..|a + b| - 1] == a + b[..n];
      EntriesAppend(a, b[..n]);
    }
  }

  /** An expression is among the violations exactly when its constraints fail. */
  lemma {:induction false} ViolatedExactly(e: PolicyEngine, cs: seq<CompiledConstraint>, plan: CandidatePlan,
                                           c: CompiledConstraint)
    requires c in cs
    ensures Violated(Violations(e, cs, plan), c.expr) <==> Fails(e, c, plan)
  {
    if Fails(e, c, plan) {
      ViolationPresent(e, cs, plan, c);
    } else if Violated(Violations(e, cs, plan), c.expr) {
      var v :| v in Violations(e, cs, plan) && v.expr == c.expr;
      var d := ViolationSource(e, cs, plan, v);
    }
  }

  lemma {:induction false} ViolationPresent(e: PolicyEngine, cs: seq<CompiledConstraint>, plan: CandidatePlan,
                                            c: CompiledConstraint)
    requires c in cs && Fails(e, c, plan)
    ensures ViolationOf(e, c, plan) in Violations(e, cs, plan)
  {
    if cs[|cs| - 1] == c {
    } else {
      ViolationPresent(e, cs[..|cs| - 1], plan, c);
    }
  }

  lemma {:induction false} ViolationSource(e: PolicyEngine, cs: seq<CompiledConstraint>, plan: CandidatePlan,
                                           v: ConstraintViolation)
    returns (c: CompiledConstraint)
    requires v in Violations(e, cs, plan)
    ensures c in cs && Fails(e, c, plan) && v == ViolationOf(e, c, plan)
  {
    c := cs[|cs| - 1];
    if Fails(e, c, plan) && v == ViolationOf(e, c, plan) {
    } else {
      c := ViolationSource(e, cs[..|cs| - 1], plan, v);
    }
  }

  ghost function FailedEntries(e: PolicyEngine, cs: seq<CompiledConstraint>, plan: CandidatePlan, policy: string)
    : seq<Entry>
  {
    Entries(FailedRecords(Violations(e, cs, plan), policy))
  }

  lemma FailedStep(e: PolicyEngine, cs: seq<CompiledConstraint>, plan: CandidatePlan, policy: string)
    requires cs != []
    ensures var c, n := cs[|cs| - 1], |cs| - 1;
      FailedEntries(e, cs, plan, policy) == FailedEntries(e, cs[..n], plan, policy) +
        (if Fails(e, c, plan) then [Entry(c.expr, c.hard, false, policy)] else [])
  {
  }

  lemma PassedStep(vs: seq<ConstraintViolation>, cs: seq<CompiledConstraint>, policy: string)
    requires cs != []
    ensures var c, n := cs[|cs| - 1], |cs| - 1;
      Entries(PassedRecords(vs, cs, policy)) == Entries(PassedRecords(vs, cs[..n], policy)) +
        (if Violated(vs, c.expr) then [] else [Entry(c.expr, c.hard, true, policy)])
  {
  }

  lemma {:induction false} SplitAccount(
      e: PolicyEngine, all: seq<CompiledConstraint>, cs: seq<CompiledConstraint>, plan: CandidatePlan, policy: string)
    requires forall c :: c in cs ==> c in all
    ensures multiset(FailedEntries(e, cs, plan, policy))
          + multiset(Entries(PassedRecords(Violations(e, all, plan), cs, policy)))
         == multiset(Account(e, cs, plan, policy))
  {
    if cs == [] {
    } else {
      SplitAccount(e, all, cs[..|cs| - 1], plan, policy);
      ViolatedExactly(e, all, plan, cs[|cs| - 1]);
      FailedStep(e, cs, plan, policy);
      PassedStep(Violations(e, all, plan), cs, policy);
    }
  }

  /** Full accounting: the records of a policy are its constraints, each exactly once and
      with its true outcome, even when several constraints share an expression. */
  lemma RecordsAccountForAll(e: PolicyEngine, cs: seq<CompiledConstraint>, plan: CandidatePlan, policy: string)
    ensures multiset(Entries(Records(e, cs, plan, policy))) == multiset(Account(e, cs, plan, policy))
  {
    SplitAccount(e, cs, cs, plan, policy);
    var vs := Violations(e, cs, plan);
    EntriesAppend(FailedRecords(vs, policy), PassedRecords(vs, cs, policy));
  }

  function AccountAll(e: Option<PolicyEngine>, ps: seq<MatchedPolicy>, plan: CandidatePlan): seq<Entry> {
    if ps == [] then []
    else
      var p := ps[|ps| - 1];
      var before := AccountAll(e, ps[..|ps| - 1], plan);
      if e.None? || p.key !in e.value.programs then before
      else before + Account(e.value, e.value.programs[p.key], plan, p.name)
  }

  /** Passes every hard constraint of every compiled policy. */
  predicate Admissible(e: Option<PolicyEngine>, ps: seq<MatchedPolicy>, plan: CandidatePlan) {
    forall p :: p in ps ==> e.None? || p.key !in e.value.programs || PassesHard(e.value, e.value.programs[p.key], plan)
  }

  /** Read directly: every hard constraint of every compiled policy evaluates to true. */
  lemma AdmissibleExactly(e: Option<PolicyEngine>, ps: seq<MatchedPolicy>, plan: CandidatePlan)
    ensures Admissible(e, ps, plan) <==>
      forall p, c :: p in ps && e.Some? && p.key in e.value.programs && c in e.value.programs[p.key] && c.hard ==>
        e.value.eval(c.expr, plan) == Value(true)
  {
  }

  predicate FailedHard(x: Entry) {
    x.hard && !x.passed
  }

  lemma {:induction false} AccountHard(e: PolicyEngine, cs: seq<CompiledConstraint>, plan: CandidatePlan,
                                       policy: string)
    ensures PassesHard(e, cs, plan) <==> forall x :: x in Account(e, cs, plan, policy) ==> !FailedHard(x)
  {
    if cs == [] {
    } else {
      var n := |cs| - 1;
      AccountHard(e, cs[..n], plan, policy);
      var x := Entry(cs[n].expr, cs[n].hard, !Fails(e, cs[n], plan), policy);
      assert Account(e, cs, plan, policy) == Account(e, cs[..n], plan, policy) + [x];
      assert x in Account(e, cs, plan, policy);
      assert cs == cs[..n] + [cs[n]];
    }
  }

  /** After all policies a fresh candidate carries exactly the reference account, keeps its
      plan and its dimension scores, and is viable if and only if no hard record failed,
      which is if and only if its plan passes every hard constraint. */
  lemma ConstrainedExactly(e: Option<PolicyEngine>, ps: seq<MatchedPolicy>, sc: ScoredCandidate)
    requires sc.constraints == [] && sc.viable
    ensures var r := ConstrainAll(e, ps, sc);
      && r.plan == sc.plan
      && r.score == sc.score.(weighted := r.score.weighted)
      && multiset(Entries(r.constraints)) == multiset(AccountAll(e, ps, sc.plan))
      && (r.viable <==> NoFailedHard(r.constraints))
      && (r.viable <==> Admissible(e, ps, sc.plan))
  {
    PlanKept(e, ps, sc);
    RecordsKept(e, ps, sc);
    ViableByRecords(e, ps, sc);
    ViableExactly(e, ps, sc);
  }

  lemma {:induction false} PlanKept(e: Option<PolicyEngine>, ps: seq<MatchedPolicy>, sc: ScoredCandidate)
    ensures ConstrainAll(e, ps, sc).plan == sc.plan
    ensures ConstrainAll(e, ps, sc).score == sc.score.(weighted := ConstrainAll(e, ps, sc).score.weighted)
  {
    if ps == [] {
    } else {
      PlanKept(e, ps[..|ps| - 1], sc);
    }
  }

  lemma {:induction false} RecordsKept(e: Option<PolicyEngine>, ps: seq<MatchedPolicy>, sc: ScoredCandidate)
    requires sc.constraints == []
    ensures multiset(Entries(ConstrainAll(e, ps, sc).constraints)) == multiset(AccountAll(e, ps, sc.plan))
  {
    if ps == [] {
    } else {
      var n := |ps| - 1;
      RecordsKept(e, ps[..n], sc);
      PlanKept(e, ps[..n], sc);
      if e.Some? && ps[n].key in e.value.programs {
        var rs := Records(e.value, e.value.programs[ps[n].key], sc.plan, ps[n].name);
        RecordsAccountForAll(e.value, e.value.programs[ps[n].key], sc.plan, ps[n].name);
        EntriesAppend(ConstrainAll(e, ps[..n], sc).constraints, rs);
        SameMultisets(Entries(ConstrainAll(e, ps[..n], sc).constraints), AccountAll(e, ps[..n], sc.plan),
                      Entries(rs), Account(e.value, e.value.programs[ps[n].key], sc.plan, ps[n].name));
      }
    }
  }

  lemma SameMultisets(a: seq<Entry>, b: seq<Entry>, c: seq<Entry>, d: seq<Entry>)
    requires multiset(a) == multiset(b) && multiset(c) == multiset(d)
    ensures multiset(a + c) == multiset(b + d)
  {
    assert multiset(a + c) == multiset(a) + multiset(c);
    assert multiset(b + d) == multiset(b) + multiset(d);
  }

  ghost predicate NoFailedHard(rs: seq<ConstraintResult>) {
    forall r :: r in rs ==> !FailedHard(EntryOf(r))
  }

  lemma {:induction false} ViableByRecords(e: Option<PolicyEngine>, ps: seq<MatchedPolicy>, sc: ScoredCandidate)
    requires sc.constraints == [] && sc.viable
    ensures ConstrainAll(e, ps, sc).viable <==> NoFailedHard(ConstrainAll(e, ps, sc).constraints)
  {
    if ps == [] {
    } else {
      var n := |ps| - 1;
      ViableByRecords(e, ps[..n], sc);
      PlanKept(e, ps[..n], sc);
      if e.Some? && ps[n].key in e.value.programs {
        HardInPolicy(e.value, e.value.programs[ps[n].key], sc.plan, ps[n].name);
        NoFailedHardAppend(ConstrainAll(e, ps[..n], sc).constraints,
                           Records(e.value, e.value.programs[ps[n].key], sc.plan, ps[n].name));
      }
    }
  }

  lemma NoFailedHardAppend(a: seq<ConstraintResult>, b: seq<ConstraintResult>)
    ensures NoFailedHard(a + b) <==> NoFailedHard(a) && NoFailedHard(b)
  {
    assert forall r :: r in a + b <==> r in a || r in b;
  }

  lemma HardInPolicy(e: PolicyEngine, cs: seq<CompiledConstraint>, plan: CandidatePlan, policy: string)
    ensures NoFailedHard(Records(e, cs, plan, policy)) <==> PassesHard(e, cs, plan)
  {
    RecordsAccountForAll(e, cs, plan, policy);
    AccountHard(e, cs, plan, policy);
    HardInRecords(Records(e, cs, plan, policy), Account(e, cs, plan, policy));
  }

  lemma {:induction false} ViableExactly(e: Option<PolicyEngine>, ps: seq<MatchedPolicy>, sc: ScoredCandidate)
    requires sc.viable
    ensures ConstrainAll(e, ps, sc).viable <==> Admissible(e, ps, sc.plan)
  {
    if ps == [] {
    } else {
      var n := |ps| - 1;
      ViableExactly(e, ps[..n], sc);
      PlanKept(e, ps[..n], sc);
      assert forall p :: p in ps <==> p in ps[..n] || p == ps[n];
    }
  }

  lemma HardInRecords(rs: seq<ConstraintResult>, account: seq<Entry>)
    requires multiset(Entries(rs)) == multiset(account)
    ensures NoFailedHard(rs) <==> forall x :: x in account ==> !FailedHard(x)
  {
    EntriesMembers(rs);
    assert forall x :: x in account <==> x in multiset(account);
    assert forall x :: x in Entries(rs) <==> x in multiset(Entries(rs));
  }

  lemma {:induction false} EntriesMembers(rs: seq<ConstraintResult>)
    ensures forall r :: r in rs ==> EntryOf(r) in Entries(rs)
    ensures forall x :: x in Entries(rs) ==> exists r :: r in rs && EntryOf(r) == x
  {
    if rs == [] {
    } else {
      EntriesMembers(rs[..|rs| - 1]);
      assert rs == rs[..|rs| - 1] + [rs[|rs| - 1]];
      assert rs[|rs| - 1] in rs;
    }
  }

  // ----- penalties -----

  function TotalPenalty(e: Option<PolicyEngine>, ps: seq<MatchedPolicy>, plan: CandidatePlan): (p: real)
    ensures p >= 0.0
  {
    if ps == [] then 0.0
    else
      var p := ps[|ps| - 1];
      TotalPenalty(e, ps[..|ps| - 1], plan) +
      (if e.None? || p.key !in e.value.programs then 0.0 else Penalties(e.value, e.value.programs[p.key], plan))
  }

  /** The soft constraints of a policy that evaluate, but not to true. */
  ghost function SoftFailures(e: PolicyEngine, cs: seq<CompiledConstraint>, plan: CandidatePlan): set<nat> {
    set i: nat | i < |cs| && !cs[i].hard && e.eval(cs[i].expr, plan) != Value(true) &&
      !e.eval(cs[i].expr, plan).EvalError?
  }

  /** A policy costs a plan 0.1 for each of them. */
  lemma {:induction false} PenaltyPerFailure(e: PolicyEngine, cs: seq<CompiledConstraint>, plan: CandidatePlan)
    ensures Penalties(e, cs, plan) == Times(|SoftFailures(e, cs, plan)|, 0.1)
  {
    if cs == [] {
      assert SoftFailures(e, cs, plan) == {};
    } else {
      var n := |cs| - 1;
      PenaltyPerFailure(e, cs[..n], plan);
      var before, after := SoftFailures(e, cs[..n], plan), SoftFailures(e, cs, plan);
      assert after == if Penalty(e, cs[n], plan) == 0.0 then before else before + {n};
      TimesStep(|before|, 0.1);
    }
  }

  lemma {:induction false} NoPenaltyInPolicy(e: PolicyEngine, cs: seq<CompiledConstraint>, plan: CandidatePlan)
    ensures Penalties(e, cs, plan) == 0.0 <==> forall c :: c in cs ==> Penalty(e, c, plan) == 0.0
  {
    if cs == [] {
    } else {
      var n := |cs| - 1;
      NoPenaltyInPolicy(e, cs[..n], plan);
      assert forall c :: c in cs <==> c in cs[..n] || c == cs[n];
    }
  }

  /** No soft constraint of a compiled policy evaluates to anything but true. */
  ghost predicate NoSoftFailure(e: Option<PolicyEngine>, ps: seq<MatchedPolicy>, plan: CandidatePlan) {
    forall p, c :: p in ps && e.Some? && p.key in e.value.programs && c in e.value.programs[p.key] && !c.hard ==>
      var out := e.value.eval(c.expr, plan);
      out == Value(true) || out.EvalError?
  }

  /** A plan is free of penalties exactly when no soft constraint fails by evaluating. */
  lemma {:induction false} NoPenaltyExactly(e: Option<PolicyEngine>, ps: seq<MatchedPolicy>, plan: CandidatePlan)
    ensures TotalPenalty(e, ps, plan) == 0.0 <==> NoSoftFailure(e, ps, plan)
  {
    if ps == [] {
    } else {
      var n := |ps| - 1;
      NoPenaltyExactly(e, ps[..n], plan);
      assert forall p :: p in ps <==> p in ps[..n] || p == ps[n];
      if e.Some? && ps[n].key in e.value.programs {
        NoPenaltyInPolicy(e.value, e.value.programs[ps[n].key], plan);
      }
    }
  }

  /** An aggregate after a penalty, never below zero. */
  function Net(weighted: real, penalty: real): (r: real)
    ensures weighted >= 0.0 && penalty >= 0.0 ==> 0.0 <= r <= weighted
    ensures r >= weighted - penalty && (r == 0.0 || r == weighted - penalty)
  {
    if weighted < penalty then 0.0 else weighted - penalty
  }

  /** Clipping at zero after every policy comes to subtracting the total and clipping once. */
  lemma {:induction false} PenalizedExactly(e: Option<PolicyEngine>, ps: seq<MatchedPolicy>, sc: ScoredCandidate)
    requires sc.score.weighted >= 0.0
    ensures ConstrainAll(e, ps, sc).plan == sc.plan
    ensures ConstrainAll(e, ps, sc).score.weighted == Net(sc.score.weighted, TotalPenalty(e, ps, sc.plan))
  {
    if ps == [] {
    } else {
      PenalizedExactly(e, ps[..|ps| - 1], sc);
    }
  }

  /** When penalties can and cannot reorder two candidates: whatever the aggregates, the one
      with the higher aggregate keeps at least the other's score if and only if its penalty is
      no larger, or the other's penalty wipes out any aggregate. */
  lemma PenaltyOrderExactly(a: real, b: real)
    requires a >= 0.0 && b >= 0.0
    ensures (forall v, w :: 0.0 <= w <= v <= 1.0 ==> Net(w, b) <= Net(v, a)) <==> a <= b || b >= 1.0
  {
    if a > b && b < 1.0 {
      assert Net(1.0, b) > Net(1.0, a);
    }
  }
}

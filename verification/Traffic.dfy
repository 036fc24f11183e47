/** Rate-limited traffic shifting with rollback, internal/global/traffic.go, over Gateway API
    HTTPRoutes. API failures and SLO readings are arbitrary. */
module Traffic {
  import opened Basics
  import opened Numbers
  import opened Sums
  import opened MapSums

  // ----- clamping -----

  function ClampedShift(current: int, desired: int, maxShift: int): int {
    var delta := desired - current;
    var limited := if delta > maxShift then maxShift else if delta < -maxShift then -maxShift else delta;
    if current + limited < 0 then 0 else current + limited
  }

  function WeightOf(weights: map<string, int>, name: string): int {
    if name in weights then weights[name] else 0
  }

  /** Each desired weight clamped on its own, before the sum is corrected. */
  function Clamped(current: map<string, int>, desired: map<string, int>, maxShift: int): map<string, int> {
    map name | name in desired :: ClampedShift(WeightOf(current, name), desired[name], maxShift)
  }

  predicate IsLargest(weights: map<string, int>, name: string) {
    name in weights && forall other :: other in weights ==> weights[other] <= weights[name]
  }

  /** A possible outcome of correcting the sum: unchanged when it is 100 or not positive,
      else with one largest entry adjusted. Which one depends on map order. */
  ghost predicate Corrected(base: map<string, int>, out: map<string, int>) {
    if SumValues(base) != 100 && SumValues(base) > 0 then exists best :: CorrectedAt(base, out, best)
    else out == base
  }

  ghost predicate CorrectedAt(base: map<string, int>, out: map<string, int>, best: string) {
    IsLargest(base, best) && out == base[best := base[best] + (100 - SumValues(base))]
  }

  /** `out` is a possible result of clamping `desired` against `current`. */
  ghost predicate IsClamped(current: map<string, int>, desired: map<string, int>, maxShift: int,
                            out: map<string, int>) {
    Corrected(Clamped(current, desired, maxShift), out)
  }

  method ClampWeights(current: map<string, int>, desired: map<string, int>, maxShift: int)
    returns (clamped: map<string, int>)
    ensures IsClamped(current, desired, maxShift, clamped)
  {
    var base := ClampEach(current, desired, maxShift);
    clamped := CorrectSum(base);
  }

  method CorrectSum(base: map<string, int>) returns (out: map<string, int>)
    ensures Corrected(base, out)
  {
    out := base;
    var total := SumOf(base);
    if total != 100 && total > 0 {
      var best := LargestEntry(base);
      out := base[best := base[best] + (100 - total)];
      assert CorrectedAt(base, out, best);
    }
  }

  method ClampEach(current: map<string, int>, desired: map<string, int>, maxShift: int)
    returns (clamped: map<string, int>)
    ensures clamped == Clamped(current, desired, maxShift)
  {
    clamped := map[];
    var todo := desired.Keys;
    while todo != {}
      invariant todo <= desired.Keys && clamped.Keys == desired.Keys - todo
      invariant forall name :: name in clamped ==>
        clamped[name] == ClampedShift(WeightOf(current, name), desired[name], maxShift)
    {
      var name :| name in todo;
      var oldW := WeightOf(current, name);
      var delta := desired[name] - oldW;
      if delta > maxShift {
        delta := maxShift;
      } else if delta < -maxShift {
        delta := -maxShift;
      }
      var shifted := oldW + delta;
      if shifted < 0 {
        shifted := 0;
      }
      clamped := clamped[name := shifted];
      todo := todo - {name};
    }
  }

  method SumOf(weights: map<string, int>) returns (total: int)
    ensures total == SumValues(weights)
  {
    total := 0;
    var seen: map<string, int> := map[];
    var todo := weights.Keys;
    while todo != {}
      invariant todo <= weights.Keys && seen.Keys == weights.Keys - todo
      invariant forall name :: name in seen ==> seen[name] == weights[name]
      invariant total == SumValues(seen)
    {
      var name :| name in todo;
      SumSet(seen, name, weights[name]);
      seen := seen[name := weights[name]];
      total := total + weights[name];
      todo := todo - {name};
    }
    assert seen == weights;
  }

  /** The search starts at weight zero, so it needs a positive entry to find one. */
  method LargestEntry(weights: map<string, int>) returns (best: string)
    requires SumValues(weights) > 0
    ensures IsLargest(weights, best)
  {
    best := "";
    var bestW := 0;
    var todo := weights.Keys;
    while todo != {}
      invariant todo <= weights.Keys
      invariant bestW >= 0 && (bestW > 0 ==> best in weights && weights[best] == bestW)
      invariant forall name :: name in weights && name !in todo ==> weights[name] <= bestW
    {
      var name :| name in todo;
      if weights[name] > bestW {
        best, bestW := name, weights[name];
      }
      todo := todo - {name};
    }
    if bestW == 0 {
      NonPositiveSum(weights);
    }
  }

  lemma {:induction false} NonPositiveSum(weights: map<string, int>)
    requires forall name :: name in weights ==> weights[name] <= 0
    ensures SumValues(weights) <= 0
    decreases weights
  {
    if weights == map[] {
    } else {
      var name :| name in weights;
      TakeOut(weights, name);
      NonPositiveSum(weights - {name});
    }
  }

  /** Clamping goes as far as allowed: no weight from 0 on that keeps the limit is closer to the
      desired one. */
  lemma ClampedIsNearest(current: int, desired: int, maxShift: int, other: int)
    requires maxShift >= 0 && current >= 0 && other >= 0 && -maxShift <= other - current <= maxShift
    ensures ClampedShift(current, desired, maxShift) >= 0
    ensures -maxShift <= ClampedShift(current, desired, maxShift) - current <= maxShift
    ensures Distance(ClampedShift(current, desired, maxShift), desired) <= Distance(other, desired)
  {
  }

  // ----- what clamping guarantees -----

  predicate Within(a: int, b: int, limit: int) {
    -limit <= a - b <= limit
  }

  /** Every backend except possibly `best` moves by at most the limit. */
  ghost predicate OthersWithin(current: map<string, int>, out: map<string, int>, maxShift: int, best: string) {
    forall name :: name in out && name != best ==> Within(out[name], WeightOf(current, name), maxShift)
  }

  ghost predicate NonNegative(weights: map<string, int>) {
    forall name :: name in weights ==> weights[name] >= 0
  }

  lemma EachWithin(current: map<string, int>, desired: map<string, int>, maxShift: int)
    requires maxShift >= 0 && NonNegative(current)
    ensures var base := Clamped(current, desired, maxShift);
      base.Keys == desired.Keys && NonNegative(base) &&
      forall name :: name in base ==> Within(base[name], WeightOf(current, name), maxShift)
  {
  }

  ghost predicate AllWithin(current: map<string, int>, out: map<string, int>, maxShift: int) {
    forall name :: name in out ==> Within(out[name], WeightOf(current, name), maxShift)
  }

  /** If any clamped weight is positive the result sums to 100; all backends but at most one
      move by at most the limit; and when the clamped weights already sum to 100 all do. */
  lemma ClampGuarantee(current: map<string, int>, desired: map<string, int>, maxShift: int, out: map<string, int>)
    requires IsClamped(current, desired, maxShift, out) && maxShift >= 0 && NonNegative(current)
    ensures out.Keys == desired.Keys
    ensures (exists name :: name in desired && Clamped(current, desired, maxShift)[name] > 0) ==> SumValues(out) == 100
    ensures exists best :: OthersWithin(current, out, maxShift, best)
    ensures SumValues(Clamped(current, desired, maxShift)) == 100 ==> AllWithin(current, out, maxShift)
  {
    var base := Clamped(current, desired, maxShift);
    EachWithin(current, desired, maxShift);
    var best := CorrectionSum(base, out);
    assert OthersWithin(current, out, maxShift, best);
  }

  /** The correction is made, and map order may let it fall on `best`. */
  ghost predicate MayCorrect(base: map<string, int>, best: string) {
    SumValues(base) != 100 && SumValues(base) > 0 && IsLargest(base, best)
  }

  /** Taking the whole correction leaves `best` within its limit. */
  ghost predicate HasRoom(current: map<string, int>, base: map<string, int>, maxShift: int, best: string)
    requires best in base
  {
    Within(base[best] + (100 - SumValues(base)), WeightOf(current, best), maxShift)
  }

  ghost predicate AlwaysWithin(current: map<string, int>, desired: map<string, int>, maxShift: int) {
    forall out :: IsClamped(current, desired, maxShift, out) ==> AllWithin(current, out, maxShift)
  }

  /** The shift limit, exactly. It holds for every backend, whatever the map order, if and
      only if each largest clamped weight could take the whole correction within its limit. */
  lemma LimitKeptExactly(current: map<string, int>, desired: map<string, int>, maxShift: int)
    requires maxShift >= 0 && NonNegative(current)
    ensures var base := Clamped(current, desired, maxShift);
      AlwaysWithin(current, desired, maxShift) <==>
        forall best :: MayCorrect(base, best) ==> HasRoom(current, base, maxShift, best)
  {
    var base := Clamped(current, desired, maxShift);
    if AlwaysWithin(current, desired, maxShift) {
      forall best | MayCorrect(base, best)
        ensures HasRoom(current, base, maxShift, best)
      {
        var out := base[best := base[best] + (100 - SumValues(base))];
        assert CorrectedAt(base, out, best);
        LimitKeptAt(current, desired, maxShift, out, best);
      }
    }
    if forall best :: MayCorrect(base, best) ==> HasRoom(current, base, maxShift, best) {
      forall out | IsClamped(current, desired, maxShift, out)
        ensures AllWithin(current, out, maxShift)
      {
        EachWithin(current, desired, maxShift);
        if SumValues(base) != 100 && SumValues(base) > 0 {
          var best :| CorrectedAt(base, out, best);
          LimitKeptAt(current, desired, maxShift, out, best);
          assert MayCorrect(base, best);
        }
      }
    }
  }

  /** The same for one outcome, where the correction fell on `best`. */
  lemma LimitKeptAt(current: map<string, int>, desired: map<string, int>, maxShift: int, out: map<string, int>,
                    best: string)
    requires maxShift >= 0 && NonNegative(current) && CorrectedAt(Clamped(current, desired, maxShift), out, best)
    ensures AllWithin(current, out, maxShift) <==> HasRoom(current, Clamped(current, desired, maxShift), maxShift, best)
  {
    EachWithin(current, desired, maxShift);
    assert best in out;
  }

  /** The sign, exactly: no weight goes negative, whatever the map order, if and only if the
      clamped weights other than one largest sum to at most 100. */
  lemma NonNegativeExactly(current: map<string, int>, desired: map<string, int>, maxShift: int,
                           out: map<string, int>, top: string)
    requires maxShift >= 0 && NonNegative(current) && IsClamped(current, desired, maxShift, out)
    requires IsLargest(Clamped(current, desired, maxShift), top)
    ensures var base := Clamped(current, desired, maxShift);
      NonNegative(out) <==> SumValues(base) - base[top] <= 100
  {
    var base := Clamped(current, desired, maxShift);
    EachWithin(current, desired, maxShift);
    TakeOut(base, top);
    NonNegativeSum(base - {top});
    if SumValues(base) != 100 && SumValues(base) > 0 {
      var best :| CorrectedAt(base, out, best);
      assert base[best] == base[top] && best in out;
    }
  }

  /** The correction makes a positive sum 100 and touches one entry at most. */
  lemma CorrectionSum(base: map<string, int>, out: map<string, int>) returns (best: string)
    requires Corrected(base, out) && NonNegative(base)
    ensures out.Keys == base.Keys && forall name :: name in base && name != best ==> out[name] == base[name]
    ensures (exists name :: name in base && base[name] > 0) ==> SumValues(out) == 100
    ensures SumValues(base) == 100 ==> out == base
  {
    best := "";
    if name :| name in base && base[name] > 0 {
      PositiveSum(base, name);
    }
    if SumValues(base) != 100 && SumValues(base) > 0 {
      best :| CorrectedAt(base, out, best);
      SumSet(base, best, base[best] + (100 - SumValues(base)));
    }
  }

  lemma {:induction false} PositiveSum(weights: map<string, int>, name: string)
    requires name in weights && weights[name] > 0 && forall other :: other in weights ==> weights[other] >= 0
    ensures SumValues(weights) > 0
  {
    TakeOut(weights, name);
    NonNegativeSum(weights - {name});
  }

  lemma {:induction false} NonNegativeSum(weights: map<string, int>)
    requires forall name :: name in weights ==> weights[name] >= 0
    ensures SumValues(weights) >= 0
    decreases weights
  {
    if weights == map[] {
    } else {
      var name :| name in weights;
      TakeOut(weights, name);
      NonNegativeSum(weights - {name});
    }
  }

  /** With three backends the correction can break the limit: 100/0/0 towards 0/50/50 at 25
      per cycle moves the first backend by 50. */
  lemma ThreeBackendsPastLimit(out: map<string, int>)
    requires IsClamped(map["a" := 100, "b" := 0, "c" := 0], map["a" := 0, "b" := 50, "c" := 50], 25, out)
    ensures out["a"] == 50 && !Within(out["a"], 100, 25)
  {
    var current, desired := map["a" := 100, "b" := 0, "c" := 0], map["a" := 0, "b" := 50, "c" := 50];
    var base := Clamped(current, desired, 25);
    assert "a" in desired && "b" in desired && "c" in desired;
    assert base["a"] == 75 && base["b"] == 25 && base["c"] == 25;
    assert base.Keys == {"a", "b", "c"};
    ThreeEntries(base, out);
  }

  lemma ThreeEntries(base: map<string, int>, out: map<string, int>)
    requires base.Keys == {"a", "b", "c"} && base["a"] == 75 && base["b"] == 25 && base["c"] == 25
    requires Corrected(base, out)
    ensures out["a"] == 50
  {
    var names, values := ["a", "b", "c"], [75, 25, 25];
    SumOverNames(base, names, values);
    SumIntOfThree(values);
    var best :| CorrectedAt(base, out, best);
    assert base["a"] <= base[best];
  }

  /** Weights that give `x` to the names in `xs` and `y` to those in `ys`. */
  function TwoLevels(xs: set<string>, x: int, ys: set<string>, y: int): map<string, int> {
    map name | name in xs + ys :: if name in xs then x else y
  }

  /** With six backends the corrected weight can even go negative: two backends at 50 and four
      at 0, shifting at 25 per cycle towards 0 and 25, leave one backend at -25. */
  lemma SixBackendsBelowZero(xs: set<string>, ys: set<string>, out: map<string, int>)
    requires |xs| == 2 && |ys| == 4 && xs !! ys
    requires IsClamped(TwoLevels(xs, 50, ys, 0), TwoLevels(xs, 0, ys, 25), 25, out)
    ensures exists name :: name in out && out[name] == -25
  {
    var base := Clamped(TwoLevels(xs, 50, ys, 0), TwoLevels(xs, 0, ys, 25), 25);
    assert base.Keys == xs + ys;
    QuartersSum(base);
    var best :| CorrectedAt(base, out, best);
    assert out[best] == -25;
  }

  lemma {:induction false} QuartersSum(weights: map<string, int>)
    requires forall name :: name in weights ==> weights[name] == 25
    ensures SumValues(weights) == |weights.Keys| * 25
    decreases weights
  {
    if weights == map[] {
    } else {
      var name :| name in weights;
      TakeOut(weights, name);
      QuartersSum(weights - {name});
      assert (weights - {name}).Keys == weights.Keys - {name};
    }
  }

  // ----- two backends -----

  /** Two backends whose weights lie in 0..100 and sum to 100. */
  predicate IsSplit(weights: map<string, int>, a: string, b: string) {
    && a != b && weights.Keys == {a, b}
    && 0 <= weights[a] <= 100 && weights[a] + weights[b] == 100
  }

  lemma SplitSum(weights: map<string, int>, a: string, b: string)
    requires a != b && weights.Keys == {a, b}
    ensures SumValues(weights) == weights[a] + weights[b]
  {
    TakeOut(weights, a);
    TakeOut(weights - {a}, b);
    assert weights - {a} - {b} == map[];
  }

  /** A split stays a split, within the limit, and is unique whatever the map order. */
  lemma SplitStaysSplit(current: map<string, int>, desired: map<string, int>, maxShift: int,
                        out: map<string, int>, a: string, b: string)
    requires IsSplit(current, a, b) && IsSplit(desired, a, b) && maxShift >= 0
    requires IsClamped(current, desired, maxShift, out)
    ensures IsSplit(out, a, b)
    ensures Within(out[a], current[a], maxShift) && Within(out[b], current[b], maxShift)
    ensures out[a] == ClampedShift(current[a], desired[a], maxShift)
  {
    var base := Clamped(current, desired, maxShift);
    assert base.Keys == {a, b};
    SplitSum(base, a, b);
  }

  /** What is left of a distance after k cycles. */
  function Left(distance: nat, maxShift: nat, k: nat): nat {
    if distance <= k * maxShift then 0 else distance - k * maxShift
  }

  /** Repeated cycles towards a fixed split close the distance by the limit each time. */
  lemma {:induction false} CyclesApproach(cycles: seq<map<string, int>>, desired: map<string, int>, maxShift: nat,
                                          a: string, b: string, k: nat)
    requires maxShift >= 1 && k < |cycles| && IsSplit(cycles[0], a, b) && IsSplit(desired, a, b)
    requires forall i :: 0 <= i < |cycles| - 1 ==> IsClamped(cycles[i], desired, maxShift, cycles[i + 1])
    ensures IsSplit(cycles[k], a, b)
    ensures Distance(cycles[k][a], desired[a]) == Left(Distance(cycles[0][a], desired[a]), maxShift, k)
  {
    if k == 0 {
    } else {
      CyclesApproach(cycles, desired, maxShift, a, b, k - 1);
      SplitStaysSplit(cycles[k - 1], desired, maxShift, cycles[k], a, b);
      assert k * maxShift == (k - 1) * maxShift + maxShift;
    }
  }

  function CeilDiv(n: nat, d: nat): nat
    requires d > 0
  {
    (n + d - 1) / d
  }

  /** The target is reached after ceil(distance / maxShift) cycles, and not before. */
  lemma CyclesReachTarget(cycles: seq<map<string, int>>, desired: map<string, int>, maxShift: nat,
                          a: string, b: string, k: nat)
    requires maxShift >= 1 && k < |cycles| && IsSplit(cycles[0], a, b) && IsSplit(desired, a, b)
    requires forall i :: 0 <= i < |cycles| - 1 ==> IsClamped(cycles[i], desired, maxShift, cycles[i + 1])
    ensures cycles[k] == desired <==> k >= CeilDiv(Distance(cycles[0][a], desired[a]), maxShift)
  {
    CyclesApproach(cycles, desired, maxShift, a, b, k);
    CeilDivExactly(Distance(cycles[0][a], desired[a]), maxShift, k);
    if cycles[k][a] == desired[a] {
      assert cycles[k] == desired;
    }
  }

  lemma CeilDivExactly(n: nat, d: nat, k: nat)
    requires d > 0
    ensures k >= CeilDiv(n, d) <==> n <= k * d
  {
    var q := CeilDiv(n, d);
    assert n + d - 1 == q * d + (n + d - 1) % d;
    if k >= q {
      assert k * d >= q * d;
    } else {
      assert k * d <= (q - 1) * d == q * d - d;
    }
  }

  // ----- the routing resource -----

  datatype BackendRef = BackendRef(name: string, weight: Option<int>)

  datatype RouteKey = RouteKey(namespace: string, name: string)

  /** An HTTPRoute as far as weights go: no rules, or a first rule that may lack backendRefs. */
  datatype Route = NoRules | FirstRule(refs: Option<seq<BackendRef>>)

  function RefWeight(r: BackendRef): int {
    if r.weight.Some? then ToInt32(r.weight.value) else 0
  }

  /** Weights by name; a repeated name keeps its last weight. */
  function Read(refs: seq<BackendRef>): map<string, int> {
    if refs == [] then map[]
    else Read(refs[..|refs| - 1])[refs[|refs| - 1].name := RefWeight(refs[|refs| - 1])]
  }

  function Patch(refs: seq<BackendRef>, weights: map<string, int>): seq<BackendRef> {
    seq(|refs|, i requires 0 <= i < |refs| =>
      if refs[i].name in weights then BackendRef(refs[i].name, Some(weights[refs[i].name])) else refs[i])
  }

  /** Every backend has an explicit 32-bit weight, and equal names carry equal weights. */
  ghost predicate Restorable(refs: seq<BackendRef>) {
    && (forall i :: 0 <= i < |refs| ==> refs[i].weight.Some? && IsInt32(refs[i].weight.value))
    && (forall i, j :: 0 <= i < |refs| && 0 <= j < |refs| && refs[i].name == refs[j].name ==> refs[i] == refs[j])
  }

  lemma {:induction false} ReadLast(refs: seq<BackendRef>, name: string)
    ensures name in Read(refs) <==> exists i :: 0 <= i < |refs| && refs[i].name == name
    ensures name in Read(refs) ==>
      exists i :: 0 <= i < |refs| && refs[i].name == name && Read(refs)[name] == RefWeight(refs[i])
  {
    if refs == [] {
    } else {
      var n := |refs| - 1;
      ReadLast(refs[..n], name);
      assert forall i :: 0 <= i < n ==> refs[..n][i] == refs[i];
      if refs[n].name != name && name in Read(refs) {
        var i :| 0 <= i < n && refs[..n][i].name == name && Read(refs[..n])[name] == RefWeight(refs[..n][i]);
        assert refs[i].name == name && Read(refs)[name] == RefWeight(refs[i]);
      }
    }
  }

  /** What is read for a name: the weight of its last backend, in 32 bits, and 0 if it has none. */
  lemma {:induction false} ReadExactly(refs: seq<BackendRef>, i: nat)
    requires i < |refs| && forall j :: i < j < |refs| ==> refs[j].name != refs[i].name
    ensures refs[i].name in Read(refs)
    ensures refs[i].weight.None? ==> Read(refs)[refs[i].name] == 0
    ensures refs[i].weight.Some? && IsInt32(refs[i].weight.value) ==> Read(refs)[refs[i].name] == refs[i].weight.value
  {
    var n := |refs| - 1;
    if i == n {
      if refs[n].weight.Some? {
        Int32Fixed(refs[n].weight.value);
      }
    } else {
      ReadExactly(refs[..n], i);
    }
  }

  /** What was written is read back: the written weights of the route's names, and the old ones
      of the others. */
  lemma {:induction false} ReadBack(refs: seq<BackendRef>, weights: map<string, int>)
    requires forall name :: name in weights ==> IsInt32(weights[name])
    ensures Read(Patch(refs, weights)).Keys == Read(refs).Keys
    ensures forall name :: name in Read(refs) ==>
      Read(Patch(refs, weights))[name] == if name in weights then weights[name] else Read(refs)[name]
  {
    if refs == [] {
    } else {
      var n := |refs| - 1;
      ReadBack(refs[..n], weights);
      assert Patch(refs, weights)[..n] == Patch(refs[..n], weights);
      if refs[n].name in weights {
        Int32Fixed(weights[refs[n].name]);
      }
    }
  }

  /** Shift and rollback undo each other, whatever was written in between, if and only if the
      route was restorable: writing back what was read restores every backend. */
  lemma RollbackRestores(refs: seq<BackendRef>, shifted: map<string, int>)
    ensures Patch(Patch(refs, shifted), Read(refs)) == refs <==> Restorable(refs)
  {
    var back := Patch(Patch(refs, shifted), Read(refs));
    forall i | 0 <= i < |refs|
      ensures refs[i].name in Read(refs) && back[i] == BackendRef(refs[i].name, Some(Read(refs)[refs[i].name]))
    {
      ReadLast(refs, refs[i].name);
    }
    if Restorable(refs) {
      forall i | 0 <= i < |refs|
        ensures back[i] == refs[i]
      {
        ReadLast(refs, refs[i].name);
        var k :| 0 <= k < |refs| && refs[k].name == refs[i].name && Read(refs)[refs[i].name] == RefWeight(refs[k]);
        Int32Fixed(refs[k].weight.value);
      }
    }
    if back == refs {
      forall i | 0 <= i < |refs|
        ensures refs[i].weight.Some? && IsInt32(refs[i].weight.value)
      {
        ReadLast(refs, refs[i].name);
        var k :| 0 <= k < |refs| && refs[k].name == refs[i].name && Read(refs)[refs[i].name] == RefWeight(refs[k]);
        assert back[i] == refs[i];
        if refs[k].weight.Some? {
          Int32Fixed(refs[k].weight.value);
        }
      }
      forall i, j | 0 <= i < |refs| && 0 <= j < |refs| && refs[i].name == refs[j].name
        ensures refs[i] == refs[j]
      {
        assert back[i] == refs[i] && back[j] == refs[j];
      }
    }
  }

  // ----- the shifter -----

  datatype SLOReading = CheckError | Percent(value: real)

  const MIN_DESTINATION_SLO := 90.0

  datatype Backend = GatewayAPI | UnsupportedBackend

  datatype TrafficShiftPlan = TrafficShiftPlan(backend: Backend, namespace: string, name: string,
                                               weights: map<string, int>)

  datatype AppliedShift = AppliedShift(plan: TrafficShiftPlan, oldW: map<string, int>)

  datatype ShiftError = NoError | ReadFailed | SLORefused | PatchFailed | NothingApplied | Degraded

  function KeyOf(plan: TrafficShiftPlan): RouteKey {
    RouteKey(plan.namespace, plan.name)
  }

  function ShiftKey(plan: TrafficShiftPlan): string {
    (if plan.backend == GatewayAPI then "gateway-api" else "") + "/" + plan.namespace + "/" + plan.name
  }

  predicate Healthy(reading: SLOReading, min: real) {
    reading.Percent? && reading.value >= min
  }

  /** Every backend whose weight rises was read as healthy enough. */
  ghost predicate RisesChecked(before: map<string, int>, after: map<string, int>, slo: string -> SLOReading) {
    forall name :: name in after && after[name] > WeightOf(before, name) ==> Healthy(slo(name), MIN_DESTINATION_SLO)
  }

  lemma RestoredExactly(routes: map<RouteKey, Route>, key: RouteKey, refs: seq<BackendRef>, written: seq<BackendRef>)
    requires key in routes && routes[key] == FirstRule(Some(refs))
    ensures routes[key := FirstRule(Some(written))] == routes <==> written == refs
  {
    assert routes[key := FirstRule(Some(written))][key] == FirstRule(Some(written));
  }

  /** In numbers: every rise over the weight read, or over 0 for a name not read, needs a reading
      of at least 90. */
  lemma RisesCheckedExactly(before: map<string, int>, after: map<string, int>, slo: string -> SLOReading)
    ensures RisesChecked(before, after, slo) <==>
      forall name :: name in after && after[name] > (if name in before then before[name] else 0) ==>
        slo(name) != CheckError && slo(name).value >= 90.0
  {
  }

  /** Applied shifts of different routes are remembered apart when namespaces have no slash. */
  lemma ShiftKeysDistinct(a: TrafficShiftPlan, b: TrafficShiftPlan)
    requires a.backend == b.backend && '/' !in a.namespace && '/' !in b.namespace
    ensures ShiftKey(a) == ShiftKey(b) <==> KeyOf(a) == KeyOf(b)
  {
    var prefix := (if a.backend == GatewayAPI then "gateway-api" else "") + "/";
    if ShiftKey(a) == ShiftKey(b) {
      var m, n, k := |a.namespace|, |b.namespace|, ShiftKey(a)[|prefix|..];
      assert ShiftKey(a) == prefix + (a.namespace + "/" + a.name) &&
        ShiftKey(b) == prefix + (b.namespace + "/" + b.name);
      assert k == a.namespace + "/" + a.name && k == b.namespace + "/" + b.name;
      assert k[m] == '/' && k[n] == '/';
      assert forall i :: 0 <= i < m ==> k[i] == a.namespace[i];
      assert forall i :: 0 <= i < n ==> k[i] == b.namespace[i];
      assert m == n;
      assert k[..m] == a.namespace && k[..n] == b.namespace && k[m + 1..] == a.name && k[n + 1..] == b.name;
    }
  }

  class TrafficShifter {
    const maxShift: int
    var lastApplied: map<string, AppliedShift>
    var routes: map<RouteKey, Route>  // the routing resources in the API server

    constructor (maxShift: int, routes: map<RouteKey, Route>)
      ensures this.maxShift == maxShift && this.routes == routes && lastApplied == map[]
    {
      this.maxShift, this.routes, lastApplied := maxShift, routes, map[];
    }

    ghost predicate HasRefs(plan: TrafficShiftPlan)
      reads this
    {
      && plan.backend == GatewayAPI && KeyOf(plan) in routes
      && routes[KeyOf(plan)].FirstRule? && routes[KeyOf(plan)].refs.Some?
    }

    /** The route has a first rule to write to, with or without backendRefs. */
    ghost predicate Patchable(plan: TrafficShiftPlan)
      reads this
    {
      plan.backend == GatewayAPI && KeyOf(plan) in routes && routes[KeyOf(plan)].FirstRule?
    }

    /** The routes once `weights` are written: a rule without backendRefs gets an empty list. */
    ghost function PatchedRoutes(plan: TrafficShiftPlan, weights: map<string, int>): map<RouteKey, Route>
      requires Patchable(plan)
      reads this
    {
      var refs := routes[KeyOf(plan)].refs;
      routes[KeyOf(plan) := FirstRule(Some(Patch(if refs.Some? then refs.value else [], weights)))]
    }

    ghost function Refs(plan: TrafficShiftPlan): seq<BackendRef>
      requires HasRefs(plan)
      reads this
    {
      routes[KeyOf(plan)].refs.value
    }

    method ReadCurrentWeights(plan: TrafficShiftPlan, getFails: bool) returns (weights: Option<map<string, int>>)
      ensures weights.Some? <==> HasRefs(plan) && !getFails
      ensures weights.Some? ==> weights.value == Read(Refs(plan))
    {
      if plan.backend != GatewayAPI || getFails || KeyOf(plan) !in routes {
        return None;
      }
      var route := routes[KeyOf(plan)];
      if route.NoRules? || route.refs.None? {
        return None;
      }
      var refs := route.refs.value;
      var m: map<string, int> := map[];
      for i := 0 to |refs|
        invariant m == Read(refs[..i])
      {
        assert refs[..i + 1][..i] == refs[..i];
        m := m[refs[i].name := RefWeight(refs[i])];
      }
      assert refs[..|refs|] == refs;
      weights := Some(m);
    }

    /** Writes the weights of the named backends; `fails` is a failed get or update. */
    method PatchWeights(plan: TrafficShiftPlan, weights: map<string, int>, fails: bool) returns (ok: bool)
      modifies this`routes
      ensures ok <==> old(Patchable(plan)) && !fails
      ensures routes == if ok then old(PatchedRoutes(plan, weights)) else old(routes)
    {
      if plan.backend != GatewayAPI || fails || KeyOf(plan) !in routes {
        return false;
      }
      var route := routes[KeyOf(plan)];
      if route.NoRules? {
        return false;
      }
      var refs := if route.refs.Some? then route.refs.value else [];
      var patched: seq<BackendRef> := [];
      for i := 0 to |refs|
        invariant patched == Patch(refs, weights)[..i]
      {
        if refs[i].name in weights {
          patched := patched + [BackendRef(refs[i].name, Some(weights[refs[i].name]))];
        } else {
          patched := patched + [refs[i]];
        }
      }
      assert patched == Patch(refs, weights);
      routes := routes[KeyOf(plan) := FirstRule(Some(patched))];
      ok := true;
    }

    /** A refused shift changes nothing. An applied one writes clamped weights, none of which
        rises without a healthy reading, and remembers the weights it replaced. */
    method Apply(plan: TrafficShiftPlan, getFails: bool, patchFails: bool, slo: string -> SLOReading)
      returns (applied: bool, err: ShiftError, oldW: map<string, int>, newW: map<string, int>)
      modifies this
      ensures applied <==> err == NoError
      ensures !applied ==> routes == old(routes) && lastApplied == old(lastApplied)
      ensures err == ReadFailed <==> !old(HasRefs(plan)) || getFails
      ensures err != ReadFailed ==> oldW == Read(old(Refs(plan))) && IsClamped(oldW, plan.weights, maxShift, newW)
      ensures err == SLORefused <==> err != ReadFailed && !RisesChecked(oldW, newW, slo)
      ensures err == PatchFailed <==> err != ReadFailed && err != SLORefused && patchFails
      ensures applied ==> RisesChecked(oldW, newW, slo)
      ensures applied ==> routes == old(routes)[KeyOf(plan) := FirstRule(Some(Patch(old(Refs(plan)), newW)))]
      ensures applied ==> lastApplied == old(lastApplied)[ShiftKey(plan) := AppliedShift(plan, oldW)]
    {
      applied, oldW, newW := false, map[], map[];
      var current := ReadCurrentWeights(plan, getFails);
      if current.None? {
        err := ReadFailed;
        return;
      }
      oldW := current.value;
      newW := ClampWeights(oldW, plan.weights, maxShift);
      var checked := CheckRises(oldW, newW, slo);
      if !checked {
        err := SLORefused;
        return;
      }
      var ok := PatchWeights(plan, newW, patchFails);
      if !ok {
        err := PatchFailed;
        return;
      }
      applied, err := true, NoError;
      lastApplied := lastApplied[ShiftKey(plan) := AppliedShift(plan, oldW)];
    }

    static method CheckRises(oldW: map<string, int>, newW: map<string, int>, slo: string -> SLOReading)
      returns (ok: bool)
      ensures ok == RisesChecked(oldW, newW, slo)
    {
      var todo := newW.Keys;
      while todo != {}
        invariant todo <= newW.Keys
        invariant forall name :: name in newW && name !in todo && newW[name] > WeightOf(oldW, name) ==>
          Healthy(slo(name), MIN_DESTINATION_SLO)
      {
        var name :| name in todo;
        if newW[name] > WeightOf(oldW, name) {
          var reading := slo(name);
          if reading.CheckError? {
            return false;
          }
          if reading.value < MIN_DESTINATION_SLO {
            return false;
          }
        }
        todo := todo - {name};
      }
      return true;
    }

    ghost predicate AllHealthy(plan: TrafficShiftPlan, slo: string -> SLOReading, minSLO: real) {
      forall name :: name in plan.weights ==> Healthy(slo(name), minSLO)
    }

    /** Rolls back exactly when a shift is on record, the wait was not cancelled and some
        destination is unhealthy; then it writes the remembered weights. */
    method MonitorAndRollback(plan: TrafficShiftPlan, cancelled: bool, patchFails: bool,
                              slo: string -> SLOReading, minSLO: real)
      returns (rolledBack: bool, err: ShiftError, rollbackFailed: bool)
      modifies this`routes
      ensures err == NothingApplied <==> ShiftKey(plan) !in lastApplied
      ensures rolledBack <==> ShiftKey(plan) in lastApplied && !cancelled && !AllHealthy(plan, slo, minSLO)
      ensures !rolledBack || rollbackFailed ==> routes == old(routes)
      ensures rolledBack ==> (rollbackFailed <==> patchFails || !old(Patchable(lastApplied[ShiftKey(plan)].plan)))
      ensures rolledBack && !rollbackFailed ==>
        var a := lastApplied[ShiftKey(plan)];
        routes == old(PatchedRoutes(a.plan, a.oldW))
    {
      rolledBack, err, rollbackFailed := false, NoError, false;
      if ShiftKey(plan) !in lastApplied {
        err := NothingApplied;
        return;
      }
      var applied := lastApplied[ShiftKey(plan)];
      if cancelled {
        return;
      }
      var healthy := CheckDestinations(plan, slo, minSLO);
      if !healthy {
        rolledBack, err := true, Degraded;
        var ok := PatchWeights(applied.plan, applied.oldW, patchFails);
        rollbackFailed := !ok;
      }
    }

    method CheckDestinations(plan: TrafficShiftPlan, slo: string -> SLOReading, minSLO: real) returns (healthy: bool)
      ensures healthy == AllHealthy(plan, slo, minSLO)
    {
      var todo := plan.weights.Keys;
      while todo != {}
        invariant todo <= plan.weights.Keys
        invariant forall name :: name in plan.weights && name !in todo ==> Healthy(slo(name), minSLO)
      {
        var name :| name in todo;
        var reading := slo(name);
        if reading.CheckError? || reading.value < minSLO {
          return false;
        }
        todo := todo - {name};
      }
      return true;
    }

    /** A shift followed by a failing observation window, with successful patches and no
        other edit, leaves every route as it was if and only if the route was restorable. */
    method ShiftThenRollback(plan: TrafficShiftPlan, before: string -> SLOReading, after: string -> SLOReading,
                             minSLO: real)
      returns (undone: bool)
      modifies this
      ensures undone ==> old(HasRefs(plan))
      ensures undone ==> (routes == old(routes) <==> Restorable(old(Refs(plan))))
      ensures !undone && routes != old(routes) ==> AllHealthy(plan, after, minSLO)
    {
      var applied, err, oldW, newW := Apply(plan, false, false, before);
      if !applied {
        return false;
      }
      ghost var refs := old(Refs(plan));
      var rolledBack, err', failed := MonitorAndRollback(plan, false, false, after, minSLO);
      if !rolledBack {
        return false;
      }
      RollbackRestores(refs, newW);
      RestoredExactly(old(routes), KeyOf(plan), refs, Patch(Patch(refs, newW), Read(refs)));
      undone := true;
    }
  }

  // ----- rises that the check does not see -----

  predicate Rises(before: BackendRef, after: BackendRef) {
    after != before && after.weight.Some? && after.weight.value > RefWeight(before)
  }

  /** Every backend of the route whose written weight rises was read as healthy enough. */
  ghost predicate WrittenRisesChecked(refs: seq<BackendRef>, newW: map<string, int>, slo: string -> SLOReading) {
    forall i :: 0 <= i < |refs| && Rises(refs[i], Patch(refs, newW)[i]) ==>
      Healthy(slo(refs[i].name), MIN_DESTINATION_SLO)
  }

  /** A shift of the route that Apply lets through: clamped weights whose rises were checked. */
  ghost predicate Shift(refs: seq<BackendRef>, maxShift: int, desired: map<string, int>, newW: map<string, int>,
                        slo: string -> SLOReading) {
    IsClamped(Read(refs), desired, maxShift, newW) && RisesChecked(Read(refs), newW, slo)
  }

  ghost predicate AlwaysChecked(refs: seq<BackendRef>, maxShift: int) {
    forall desired, newW, slo: string -> SLOReading :: Shift(refs, maxShift, desired, newW, slo) ==>
      WrittenRisesChecked(refs, newW, slo)
  }

  /** No backend weighs less than what is read for its name, the weight of the last one. */
  ghost predicate ReadIsLeast(refs: seq<BackendRef>) {
    forall i :: 0 <= i < |refs| ==> WeightOf(Read(refs), refs[i].name) <= RefWeight(refs[i])
  }

  /** A backend of another name can be shifted to at least this weight. */
  ghost predicate OtherReaches(current: map<string, int>, maxShift: int, name: string, weight: int) {
    weight <= maxShift || exists other :: other in current && other != name && weight <= current[other] + maxShift
  }

  /** Some shift gives `name` a weight above `own` and at most what is read for the name. Between
      0 and 100 the read weight itself can be kept. A larger one is kept only when another
      backend takes the correction, and is otherwise cut to 100 or less. A negative one comes
      back only through the correction, which needs a positive clamped weight. */
  ghost predicate Exposed(current: map<string, int>, maxShift: int, name: string, own: int) {
    var read := WeightOf(current, name);
    own < read &&
    if read < 0 then read + maxShift >= 1
    else if read <= 100 then true
    else own < 100 ||
         OtherReaches(current, maxShift, name, if own + 1 < read - maxShift then read - maxShift else own + 1)
  }

  /** No backend's written weight rises unless its SLO was read at 90% or more, in every shift
      that Apply lets through, if and only if no backend is exposed. For read weights in 0..100
      that means: if and only if no repeated backend weighs less than the last one of its name.
      Distinct names, with or without explicit weights, always qualify. */
  lemma NoUncheckedRise(refs: seq<BackendRef>, maxShift: int)
    requires maxShift >= 1
    ensures AlwaysChecked(refs, maxShift) <==>
      forall i :: 0 <= i < |refs| ==> !Exposed(Read(refs), maxShift, refs[i].name, RefWeight(refs[i]))
    ensures (forall name :: name in Read(refs) ==> 0 <= Read(refs)[name] <= 100) ==>
      (AlwaysChecked(refs, maxShift) <==> ReadIsLeast(refs))
    ensures (forall i, j :: 0 <= i < j < |refs| ==> refs[i].name != refs[j].name) ==> AlwaysChecked(refs, maxShift)
  {
    forall i | 0 <= i < |refs|
      ensures refs[i].name in Read(refs)
      ensures (forall j, k :: 0 <= j < k < |refs| ==> refs[j].name != refs[k].name) ==>
        WeightOf(Read(refs), refs[i].name) == RefWeight(refs[i])
    {
      ReadLast(refs, refs[i].name);
    }
    if i :| 0 <= i < |refs| && Exposed(Read(refs), maxShift, refs[i].name, RefWeight(refs[i])) {
      var desired, newW := ExposingShift(Read(refs), maxShift, refs[i].name, RefWeight(refs[i]));
      UncheckedRise(refs, maxShift, i, desired, newW);
    } else {
      forall desired, newW, slo: string -> SLOReading | Shift(refs, maxShift, desired, newW, slo)
        ensures WrittenRisesChecked(refs, newW, slo)
      {
        NothingExposed(refs, maxShift, desired, newW, slo);
      }
    }
  }

  /** One direction at any limit, 0 and below included, and for any weights that pass the check:
      when no backend weighs less than what is read for its name, every rise was checked. */
  lemma LeastReadIsChecked(refs: seq<BackendRef>, newW: map<string, int>, slo: string -> SLOReading)
    requires ReadIsLeast(refs) && RisesChecked(Read(refs), newW, slo)
    ensures WrittenRisesChecked(refs, newW, slo)
  {
  }

  lemma NothingExposed(refs: seq<BackendRef>, maxShift: int, desired: map<string, int>, newW: map<string, int>,
                       slo: string -> SLOReading)
    requires maxShift >= 1 && Shift(refs, maxShift, desired, newW, slo)
    requires forall i :: 0 <= i < |refs| ==> !Exposed(Read(refs), maxShift, refs[i].name, RefWeight(refs[i]))
    ensures WrittenRisesChecked(refs, newW, slo)
  {
    forall i | 0 <= i < |refs| && Rises(refs[i], Patch(refs, newW)[i])
      ensures Healthy(slo(refs[i].name), MIN_DESTINATION_SLO)
    {
      var name := refs[i].name;
      if newW[name] <= WeightOf(Read(refs), name) {
        HiddenRiseExposes(Read(refs), desired, maxShift, newW, name, RefWeight(refs[i]));
      }
    }
  }

  lemma {:induction false} NonNegativeEntries(weights: map<string, int>, name: string)
    requires NonNegative(weights) && name in weights
    ensures weights[name] <= SumValues(weights)
  {
    TakeOut(weights, name);
    NonNegativeSum(weights - {name});
  }

  /** A shift that ends above a backend's own weight but not above the read one exposes it. */
  lemma HiddenRiseExposes(current: map<string, int>, desired: map<string, int>, maxShift: int,
                          newW: map<string, int>, name: string, own: int)
    requires maxShift >= 1 && IsClamped(current, desired, maxShift, newW) && name in newW
    requires own < newW[name] <= WeightOf(current, name)
    ensures Exposed(current, maxShift, name, own)
  {
    var base := Clamped(current, desired, maxShift);
    NonNegativeEntries(base, name);
    if SumValues(base) != 100 && SumValues(base) > 0 {
      var best :| CorrectedAt(base, newW, best);
      LargestIsPositive(base, best);
      if best != name {
        assert base[name] == newW[name] <= base[best];
      }
    }
  }

  lemma LargestIsPositive(base: map<string, int>, best: string)
    requires SumValues(base) > 0 && IsLargest(base, best)
    ensures base[best] > 0
  {
    if base[best] <= 0 {
      NonPositiveSum(base);
    }
  }

  /** An exposed backend comes with a shift that raises it unseen. */
  lemma ExposingShift(current: map<string, int>, maxShift: int, name: string, own: int)
    returns (desired: map<string, int>, newW: map<string, int>)
    requires maxShift >= 1 && Exposed(current, maxShift, name, own)
    ensures IsClamped(current, desired, maxShift, newW) && name in newW
    ensures own < newW[name] <= WeightOf(current, name)
  {
    var read := WeightOf(current, name);
    if 0 <= read <= 100 {
      desired, newW := FillWithOnes(current, maxShift, name, read, 100 - read);
    } else if read < 0 {
      desired, newW := FillWithOnes(current, maxShift, name, 1, 100 - read);
    } else if own < 100 {
      desired, newW := map[name := read], map[name := 100];
      TakeOut(desired, name);
      assert desired - {name} == map[];
      CorrectedShift(current, desired, maxShift, newW, name);
    } else {
      desired, newW := CorrectElsewhere(current, maxShift, name,
                                        if own + 1 < read - maxShift then read - maxShift else own + 1);
    }
  }

  /** Weights that clamping leaves alone. */
  ghost predicate Reachable(current: map<string, int>, desired: map<string, int>, maxShift: int) {
    forall name :: name in desired ==> ClampedShift(WeightOf(current, name), desired[name], maxShift) == desired[name]
  }

  lemma KeptShift(current: map<string, int>, desired: map<string, int>, maxShift: int)
    requires Reachable(current, desired, maxShift) && SumValues(desired) == 100
    ensures IsClamped(current, desired, maxShift, desired)
  {
    assert Clamped(current, desired, maxShift) == desired;
  }

  lemma CorrectedShift(current: map<string, int>, desired: map<string, int>, maxShift: int,
                       newW: map<string, int>, best: string)
    requires Reachable(current, desired, maxShift) && SumValues(desired) > 100 && CorrectedAt(desired, newW, best)
    ensures IsClamped(current, desired, maxShift, newW)
  {
    assert Clamped(current, desired, maxShift) == desired;
  }

  /** Weight `x` for a name and 1 for `k` new names; a sum above 100 is taken off the name. */
  lemma FillWithOnes(current: map<string, int>, maxShift: int, name: string, x: int, k: nat)
    returns (desired: map<string, int>, newW: map<string, int>)
    requires maxShift >= 1 && ClampedShift(WeightOf(current, name), x, maxShift) == x
    requires x + k == 100 || (x == 1 && k > 100)
    ensures IsClamped(current, desired, maxShift, newW) && name in newW && newW[name] == 100 - k
  {
    var added := UnusedNames(current.Keys + {name}, k);
    desired := WithOnes(name, x, added);
    SumWithOnes(name, x, added);
    newW := desired[name := 100 - k];
    if x + k == 100 {
      assert newW == desired;
      KeptShift(current, desired, maxShift);
    } else {
      CorrectedShift(current, desired, maxShift, newW, name);
    }
  }

  function WithOnes(name: string, x: int, others: set<string>): map<string, int> {
    map n | n in others + {name} :: if n == name then x else 1
  }

  lemma SumWithOnes(name: string, x: int, others: set<string>)
    requires name !in others
    ensures SumValues(WithOnes(name, x, others)) == x + |others|
  {
    var weights := WithOnes(name, x, others);
    TakeOut(weights, name);
    SumOfOnes(weights - {name});
    assert (weights - {name}).Keys == others;
  }

  lemma {:induction false} SumOfOnes(weights: map<string, int>)
    requires forall name :: name in weights ==> weights[name] == 1
    ensures SumValues(weights) == |weights.Keys|
    decreases weights
  {
    if weights == map[] {
    } else {
      var name :| name in weights;
      TakeOut(weights, name);
      SumOfOnes(weights - {name});
      assert (weights - {name}).Keys == weights.Keys - {name};
    }
  }

  /** A weight above 100 is kept when another backend at least as heavy takes the correction. */
  lemma CorrectElsewhere(current: map<string, int>, maxShift: int, name: string, weight: int)
    returns (desired: map<string, int>, newW: map<string, int>)
    requires maxShift >= 1 && weight > 100 && WeightOf(current, name) - maxShift <= weight <= WeightOf(current, name)
    requires OtherReaches(current, maxShift, name, weight)
    ensures IsClamped(current, desired, maxShift, newW) && name in newW && newW[name] == weight
  {
    var other: string;
    if weight <= maxShift {
      var added := UnusedNames(current.Keys + {name}, 1);
      other :| other in added;
    } else {
      other :| other in current && other != name && weight <= current[other] + maxShift;
    }
    var heavy := if WeightOf(current, other) > weight then WeightOf(current, other) else weight;
    desired := map[name := weight, other := heavy];
    SplitSum(desired, name, other);
    newW := desired[other := heavy + (100 - SumValues(desired))];
    CorrectedShift(current, desired, maxShift, newW, other);
  }

  lemma {:induction false} LongerThanAll(used: set<string>) returns (n: nat)
    ensures forall s :: s in used ==> |s| < n
  {
    if used == {} {
      n := 0;
    } else {
      var s :| s in used;
      n := LongerThanAll(used - {s});
      if n <= |s| {
        n := |s| + 1;
      }
    }
  }

  lemma {:induction false} UnusedNames(used: set<string>, k: nat) returns (added: set<string>)
    ensures |added| == k && added !! used
    decreases k
  {
    if k == 0 {
      added := {};
    } else {
      added := UnusedNames(used, k - 1);
      var n := LongerThanAll(used + added);
      added := added + {seq(n, _ => 'b')};
    }
  }

  lemma UncheckedRise(refs: seq<BackendRef>, maxShift: int, i: nat, desired: map<string, int>, newW: map<string, int>)
    requires i < |refs| && IsClamped(Read(refs), desired, maxShift, newW) && refs[i].name in newW
    requires RefWeight(refs[i]) < newW[refs[i].name] <= WeightOf(Read(refs), refs[i].name)
    ensures !AlwaysChecked(refs, maxShift)
  {
    var slo := ReadingExcept(refs[i].name);
    WrittenRises(refs, i, newW);
    assert Shift(refs, maxShift, desired, newW, slo) && !WrittenRisesChecked(refs, newW, slo);
  }

  /** Every destination is healthy but one, which cannot be read. */
  function ReadingExcept(name: string): string -> SLOReading {
    (n: string) => if n == name then CheckError else Percent(100.0)
  }

  lemma WrittenRises(refs: seq<BackendRef>, i: nat, newW: map<string, int>)
    requires i < |refs| && refs[i].name in newW
    requires RefWeight(refs[i]) < newW[refs[i].name] <= WeightOf(Read(refs), refs[i].name)
    ensures Rises(refs[i], Patch(refs, newW)[i])
  {
    var name := refs[i].name;
    ReadLast(refs, name);
    var k :| 0 <= k < |refs| && refs[k].name == name && Read(refs)[name] == RefWeight(refs[k]);
    RefWeightIsInt32(refs[i]);
    RefWeightIsInt32(refs[k]);
    Int32Fixed(newW[name]);
  }

  lemma RefWeightIsInt32(r: BackendRef)
    ensures IsInt32(RefWeight(r))
  {
    if r.weight.Some? {
      Int32Fixed(r.weight.value);
    }
  }

  /** A shift that goes through with no SLO read at all: two backends of one name at 10 and 20
      beside one at 80. The weights asked for are the ones read, so nothing seems to rise, and
      the first backend goes from 10 to 20. */
  lemma RepeatedBackendRises(a: string, b: string, slo: string -> SLOReading)
    requires a != b
    ensures var refs := [BackendRef(a, Some(10)), BackendRef(b, Some(80)), BackendRef(a, Some(20))];
      var desired := map[a := 20, b := 80];
      Shift(refs, 25, desired, desired, slo) && Rises(refs[0], Patch(refs, desired)[0])
  {
    var refs := [BackendRef(a, Some(10)), BackendRef(b, Some(80)), BackendRef(a, Some(20))];
    var desired := map[a := 20, b := 80];
    assert refs[..2] == [BackendRef(a, Some(10)), BackendRef(b, Some(80))] &&
      refs[..2][..1] == [BackendRef(a, Some(10))];
    assert Read(refs) == desired by {
      assert Read(refs[..2][..1][..0]) == map[];
      assert Read(refs[..2]) == Read(refs[..2][..1])[b := 80];
    }
    SplitSum(desired, a, b);
    KeptShift(desired, desired, 25);
  }
}

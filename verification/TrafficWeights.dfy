/** Integer traffic weights from cluster scores: scoresToWeights in internal/global/solver.go. */
module TrafficWeights {
  import opened Basics
  import opened Numbers
  import opened Sums
  import opened MapSums

  datatype ClusterScore = ClusterScore(name: string, total: real)

  const DEFAULT_SHIFT := 25

  function Totals(scores: seq<ClusterScore>): seq<real> {
    seq(|scores|, i requires 0 <= i < |scores| => scores[i].total)
  }

  function Names(scores: seq<ClusterScore>): seq<string> {
    seq(|scores|, i requires 0 <= i < |scores| => scores[i].name)
  }

  function ShiftLimit(maxShiftPercent: int): int {
    if maxShiftPercent <= 0 then DEFAULT_SHIFT else maxShiftPercent
  }

  function EqualShare(n: nat): real
    requires n > 0
  {
    100.0 / n as real
  }

  function Proportional(score: real, total: real): real
    requires total != 0.0
  {
    score / total * 100.0
  }

  function Limited(delta: real, limit: real): real {
    if delta > limit then limit else if delta < -limit then -limit else delta
  }

  function RawWeight(score: real, total: real, n: nat, limit: int): real
    requires total != 0.0 && n > 0
  {
    EqualShare(n) + Limited(Proportional(score, total) - EqualShare(n), limit as real)
  }

  function Rounded(raw: real): int {
    if Round(raw) < 1 then 1 else Round(raw)
  }

  /** Index of the first highest score. */
  function Best(scores: seq<ClusterScore>): (b: nat)
    requires scores != []
    ensures b < |scores|
    ensures forall i :: 0 <= i < |scores| ==> scores[i].total <= scores[b].total
    ensures forall i :: 0 <= i < b ==> scores[i].total < scores[b].total
  {
    var n := |scores| - 1;
    if n == 0 then 0
    else
      var b := Best(scores[..n]);
      assert forall i :: 0 <= i < n ==> scores[..n][i] == scores[i];
      if scores[n].total > scores[b].total then n else b
  }

  /** The weight of a score before the final correction. */
  function Weight(scores: seq<ClusterScore>, maxShiftPercent: int, i: nat): int
    requires i < |scores| && Sum(Totals(scores)) != 0.0
  {
    Rounded(RawWeight(scores[i].total, Sum(Totals(scores)), |scores|, ShiftLimit(maxShiftPercent)))
  }

  ghost predicate Covers(scores: seq<ClusterScore>, out: map<string, int>) {
    forall name :: name in out <==> name in Names(scores)
  }

  ghost predicate Equal(scores: seq<ClusterScore>, out: map<string, int>)
    requires Covers(scores, out)
  {
    forall i :: 0 <= i < |scores| ==> out[Names(scores)[i]] == 100 / |scores|
  }

  /** Weights that sum to 100, where every cluster but the best one has its own weight. */
  ghost predicate Apportioned(scores: seq<ClusterScore>, maxShiftPercent: int, out: map<string, int>)
    requires Sum(Totals(scores)) != 0.0
  {
    && Distinct(Names(scores)) && Covers(scores, out) && SumValues(out) == 100
    && (forall i :: 0 <= i < |scores| && i != Best(scores) ==>
          out[Names(scores)[i]] == Weight(scores, maxShiftPercent, i))
  }

  /** Weights for the named clusters. Distinct names are only needed to say which score a
      name's weight comes from; the sum is 100 in any case. */
  method ScoresToWeights(scores: seq<ClusterScore>, maxShiftPercent: int) returns (out: map<string, int>)
    ensures Covers(scores, out)
    ensures Sum(Totals(scores)) == 0.0 ==> Equal(scores, out)
    ensures Sum(Totals(scores)) != 0.0 ==> SumValues(out) == 100
    ensures Sum(Totals(scores)) != 0.0 && Distinct(Names(scores)) ==> Apportioned(scores, maxShiftPercent, out)
  {
    if |scores| == 0 {
      return map[];
    }
    var totalScore := TotalScore(scores);
    if totalScore == 0.0 {
      out := EqualWeights(scores);
      return;
    }
    var raw := RawWeights(scores, totalScore, ShiftLimit(maxShiftPercent));
    var total;
    out, total := RoundAll(raw);
    ghost var rounded := out;
    if total != 100 {
      var best := FindBest(scores);
      var name := Names(scores)[best];
      SumSet(out, name, out[name] + (100 - total));
      out := out[name := out[name] + (100 - total)];
    }
    if Distinct(Names(scores)) {
      forall i | 0 <= i < |scores| && i != Best(scores)
        ensures out[Names(scores)[i]] == Weight(scores, maxShiftPercent, i)
      {
        assert Names(scores)[i] != Names(scores)[Best(scores)];
        assert out[Names(scores)[i]] == rounded[Names(scores)[i]];
      }
    }
  }

  method TotalScore(scores: seq<ClusterScore>) returns (total: real)
    ensures total == Sum(Totals(scores))
  {
    total := 0.0;
    ghost var ts := Totals(scores);
    for i := 0 to |scores|
      invariant total == Sum(ts[..i])
    {
      total := total + scores[i].total;
      SumStep(ts, i);
    }
    assert ts[..|scores|] == ts;
  }

  method EqualWeights(scores: seq<ClusterScore>) returns (out: map<string, int>)
    requires scores != []
    ensures Covers(scores, out) && Equal(scores, out)
  {
    var w := 100 / |scores|;
    out := map[];
    for i := 0 to |scores|
      invariant forall name :: name in out <==> name in Names(scores)[..i]
      invariant forall name :: name in out ==> out[name] == w
    {
      assert Names(scores)[..i + 1] == Names(scores)[..i] + [scores[i].name];
      out := out[scores[i].name := w];
    }
    assert Names(scores)[..|scores|] == Names(scores);
  }

  method RawWeights(scores: seq<ClusterScore>, totalScore: real, limit: int) returns (raw: map<string, real>)
    requires scores != [] && totalScore != 0.0
    ensures forall name :: name in raw <==> name in Names(scores)
    ensures Distinct(Names(scores)) ==> forall i :: 0 <= i < |scores| ==>
      raw[Names(scores)[i]] == RawWeight(scores[i].total, totalScore, |scores|, limit)
  {
    var equalShare := EqualShare(|scores|);
    raw := map[];
    for i := 0 to |scores|
      invariant forall name :: name in raw <==> name in Names(scores)[..i]
      invariant forall k :: 0 <= k < i ==> Names(scores)[k] in raw
      invariant Distinct(Names(scores)) ==> forall k :: 0 <= k < i ==>
        raw[Names(scores)[k]] == RawWeight(scores[k].total, totalScore, |scores|, limit)
    {
      assert Names(scores)[..i + 1] == Names(scores)[..i] + [Names(scores)[i]];
      var delta := Limited(Proportional(scores[i].total, totalScore) - equalShare, limit as real);
      raw := raw[scores[i].name := equalShare + delta];
    }
    assert Names(scores)[..|scores|] == Names(scores);
  }

  /** Rounds every entry, visiting the map in no particular order. */
  method RoundAll(raw: map<string, real>) returns (out: map<string, int>, total: int)
    ensures out.Keys == raw.Keys
    ensures forall name :: name in raw ==> out[name] == Rounded(raw[name])
    ensures total == SumValues(out)
  {
    out, total := map[], 0;
    var todo := raw.Keys;
    while todo != {}
      invariant todo <= raw.Keys && out.Keys == raw.Keys - todo
      invariant forall name :: name in out ==> out[name] == Rounded(raw[name])
      invariant total == SumValues(out)
    {
      var name :| name in todo;
      var rounded := Round(raw[name]);
      if rounded < 1 {
        rounded := 1;
      }
      SumSet(out, name, rounded);
      out := out[name := rounded];
      total := total + rounded;
      todo := todo - {name};
    }
  }

  method FindBest(scores: seq<ClusterScore>) returns (best: nat)
    requires scores != []
    ensures best == Best(scores)
  {
    best := 0;
    var bestScore := scores[0].total;
    for i := 1 to |scores|
      invariant best < i && bestScore == scores[best].total
      invariant best == Best(scores[..i])
    {
      assert scores[..i + 1][..i] == scores[..i];
      if scores[i].total > bestScore {
        best, bestScore := i, scores[i].total;
      }
    }
    assert scores[..|scores|] == scores;
  }

  // ----- what the weights mean -----

  ghost predicate Positive(scores: seq<ClusterScore>) {
    && (forall i :: 0 <= i < |scores| ==> scores[i].total >= 0.0)
    && Sum(Totals(scores)) > 0.0
  }

  lemma ProportionalMonotone(a: real, b: real, total: real)
    requires a <= b && total > 0.0
    ensures Proportional(a, total) <= Proportional(b, total)
  {
    assert a / total <= b / total;
  }

  /** Every non-best cluster gets at least 1, and more score never means less weight. */
  lemma WeightsMonotone(scores: seq<ClusterScore>, maxShiftPercent: int, i: nat, j: nat)
    requires Positive(scores) && i < |scores| && j < |scores| && scores[i].total <= scores[j].total
    ensures 1 <= Weight(scores, maxShiftPercent, i) <= Weight(scores, maxShiftPercent, j)
  {
    var total, n, limit := Sum(Totals(scores)), |scores|, ShiftLimit(maxShiftPercent);
    ProportionalMonotone(scores[i].total, scores[j].total, total);
    RoundMonotone(RawWeight(scores[i].total, total, n, limit), RawWeight(scores[j].total, total, n, limit));
  }

  /** A cluster's weight before the correction: its proportional part of 100, moved back to the
      shift limit around an equal share, 25 unless configured, rounded, and at least 1. */
  lemma WeightInNumbers(scores: seq<ClusterScore>, maxShiftPercent: int, i: nat)
    returns (share: real, part: real, raw: real)
    requires i < |scores| && Sum(Totals(scores)) != 0.0
    ensures Times(|scores|, share) == 100.0 && Product(part, Sum(Totals(scores))) == 100.0 * scores[i].total
    ensures var limit := if maxShiftPercent <= 0 then 25.0 else maxShiftPercent as real;
      && -limit <= raw - share <= limit
      && (-limit <= part - share <= limit ==> raw == part)
      && (part > share + limit ==> raw == share + limit) && (part < share - limit ==> raw == share - limit)
    ensures var w := Weight(scores, maxShiftPercent, i);
      w >= 1 && (w == 1 || -0.5 <= w as real - raw <= 0.5) && (w == 1 ==> raw < 1.5)
  {
    var total := Sum(Totals(scores));
    share, part := EqualShare(|scores|), Proportional(scores[i].total, total);
    raw := RawWeight(scores[i].total, total, |scores|, ShiftLimit(maxShiftPercent));
    RoundIsNearest(raw);
    PartOf(scores[i].total, total);
  }

  lemma PartOf(score: real, total: real)
    requires total != 0.0
    ensures Product(Proportional(score, total), total) == 100.0 * score
  {
    assert score / total * total == score;
    assert score / total * 100.0 * total == 100.0 * (score / total * total);
  }

  ghost function Values(scores: seq<ClusterScore>, out: map<string, int>): seq<int>
    requires Covers(scores, out)
  {
    seq(|scores|, i requires 0 <= i < |scores| => out[Names(scores)[i]])
  }

  ghost predicate AllPositive(out: map<string, int>) {
    forall name :: name in out ==> out[name] >= 1
  }

  /** The weights of all clusters before the correction. */
  function Uncorrected(scores: seq<ClusterScore>, maxShiftPercent: int): seq<int>
    requires Sum(Totals(scores)) != 0.0
  {
    seq(|scores|, i requires 0 <= i < |scores| => Weight(scores, maxShiftPercent, i))
  }

  /** What the others' weights come to before the correction. */
  function Others(scores: seq<ClusterScore>, maxShiftPercent: int): int
    requires scores != [] && Sum(Totals(scores)) != 0.0
  {
    SumInt(Uncorrected(scores, maxShiftPercent)) - Weight(scores, maxShiftPercent, Best(scores))
  }

  /** The best cluster absorbs the correction. At every limit its weight is what the others
      leave of 100, and all weights are positive if and only if they leave something. */
  lemma BestWeightExactly(scores: seq<ClusterScore>, maxShiftPercent: int, out: map<string, int>)
    requires scores != [] && Positive(scores)
    ensures Apportioned(scores, maxShiftPercent, out) ==>
      && out[Names(scores)[Best(scores)]] == 100 - Others(scores, maxShiftPercent)
      && (AllPositive(out) <==> Others(scores, maxShiftPercent) <= 99)
  {
    if Apportioned(scores, maxShiftPercent, out) {
      var ws, values, b := Uncorrected(scores, maxShiftPercent), Values(scores, out), Best(scores);
      SumOverNames(out, Names(scores), values);
      SumIntUpdate(ws, b, values[b]);
      assert ws[b := values[b]] == values;
      assert Names(scores)[b] in out;
      OthersPositive(scores, maxShiftPercent, out);
    }
  }

  lemma OthersPositive(scores: seq<ClusterScore>, maxShiftPercent: int, out: map<string, int>)
    requires scores != [] && Positive(scores)
    ensures Apportioned(scores, maxShiftPercent, out) ==>
      forall name :: name in out && name != Names(scores)[Best(scores)] ==> out[name] >= 1
  {
    forall name | Apportioned(scores, maxShiftPercent, out) && name in out && name != Names(scores)[Best(scores)]
      ensures out[name] >= 1
    {
      var i :| 0 <= i < |scores| && Names(scores)[i] == name;
      WeightsMonotone(scores, maxShiftPercent, i, i);
    }
  }

  /** So with n clusters it gets at most 101 - n, whatever the scores. */
  lemma BestPaysForMany(scores: seq<ClusterScore>, maxShiftPercent: int, out: map<string, int>)
    requires scores != [] && Positive(scores)
    ensures Apportioned(scores, maxShiftPercent, out) ==> out[Names(scores)[Best(scores)]] <= 101 - |scores|
  {
    var ws := Uncorrected(scores, maxShiftPercent);
    BestWeightExactly(scores, maxShiftPercent, out);
    forall i | 0 <= i < |scores|
      ensures ws[i] >= 1
    {
      WeightsMonotone(scores, maxShiftPercent, i, i);
    }
    SumOfAtLeastOnes(ws, Best(scores));
  }

  lemma {:induction false} SumOfAtLeastOnes(values: seq<int>, b: nat)
    requires b < |values| && forall i :: 0 <= i < |values| && i != b ==> values[i] >= 1
    ensures SumInt(values) >= values[b] + |values| - 1
  {
    var n := |values| - 1;
    if b < n {
      SumOfAtLeastOnes(values[..n], b);
    } else {
      AllAtLeastOne(values[..n]);
    }
  }

  lemma {:induction false} AllAtLeastOne(values: seq<int>)
    requires forall i :: 0 <= i < |values| ==> values[i] >= 1
    ensures SumInt(values) >= |values|
  {
    if values == [] {
    } else {
      AllAtLeastOne(values[..|values| - 1]);
    }
  }

  // ----- two clusters -----

  lemma HalvesOfHundred(a: real, b: real)
    requires a + b > 0.0 && a >= 0.0 && b >= 0.0
    ensures Proportional(a, a + b) + Proportional(b, a + b) == 100.0
    ensures 0.0 <= Proportional(a, a + b) && 0.0 <= Proportional(b, a + b)
  {
    var t := a + b;
    assert a / t + b / t == t / t;
    assert a / t >= 0.0 && b / t >= 0.0;
  }

  lemma RoundPair(d: real, limit: int)
    requires -50.0 <= d <= 50.0 && limit > 0 && -(limit as real) <= d <= limit as real
    ensures 100 <= Round(50.0 + d) + Round(50.0 - d) <= 101
    ensures 0 <= Round(50.0 + d) <= 100 && 0 <= Round(50.0 - d) <= 100
    ensures 50 - limit <= Round(50.0 + d) <= 50 + limit && 50 - limit <= Round(50.0 - d) <= 50 + limit
  {
  }

  lemma PairRaw(a: real, b: real, limit: int) returns (d: real)
    requires a >= 0.0 && b >= 0.0 && a + b > 0.0 && limit > 0
    ensures -50.0 <= d <= 50.0 && -(limit as real) <= d <= limit as real
    ensures RawWeight(a, a + b, 2, limit) == 50.0 + d
    ensures RawWeight(b, a + b, 2, limit) == 50.0 - d
    ensures (a >= b ==> d >= 0.0) && (a <= b ==> d <= 0.0)
  {
    HalvesOfHundred(a, b);
    if a >= b {
      ProportionalMonotone(b, a, a + b);
    }
    if a <= b {
      ProportionalMonotone(a, b, a + b);
    }
    d := Limited(Proportional(a, a + b) - 50.0, limit as real);
    assert EqualShare(2) == 50.0;
  }

  /** With two clusters both weights lie in 1..99, sum to 100 and stay within the shift
      limit of an even split. */
  lemma TwoClusters(scores: seq<ClusterScore>, maxShiftPercent: int, out: map<string, int>)
    requires |scores| == 2 && Positive(scores) && Apportioned(scores, maxShiftPercent, out)
    ensures var x, y, limit := Values(scores, out)[0], Values(scores, out)[1], ShiftLimit(maxShiftPercent);
      x + y == 100 && 1 <= x <= 99 && 50 - limit <= x <= 50 + limit
  {
    var limit, values := ShiftLimit(maxShiftPercent), Values(scores, out);
    SumOfTwo(Totals(scores));
    var d := PairRaw(scores[0].total, scores[1].total, limit);
    RoundPair(d, limit);
    SumOverNames(out, Names(scores), values);
    SumIntOfTwo(values);
    if Best(scores) == 0 {
      assert values[1] == Rounded(50.0 - d);
    } else {
      assert values[0] == Rounded(50.0 + d);
    }
  }

  // ----- the all-zero branch -----

  /** Equal weights sum to 100 exactly when the number of clusters divides 100. */
  lemma EqualWeightsSum(scores: seq<ClusterScore>, out: map<string, int>)
    requires scores != [] && Distinct(Names(scores))
    requires Covers(scores, out) && Equal(scores, out)
    ensures SumValues(out) == |scores| * (100 / |scores|)
    ensures SumValues(out) == 100 <==> 100 % |scores| == 0
  {
    SumOverNames(out, Names(scores), Values(scores, out));
    SumOfEqual(Values(scores, out), 100 / |scores|);
    DividesHundred(|scores|);
  }

  lemma DividesHundred(n: nat)
    requires n > 0
    ensures n * (100 / n) == 100 <==> 100 % n == 0
  {
    assert 100 == n * (100 / n) + 100 % n;
  }

  lemma {:induction false} SumOfEqual(values: seq<int>, w: int)
    requires forall i :: 0 <= i < |values| ==> values[i] == w
    ensures SumInt(values) == |values| * w
  {
    if values == [] {
    } else {
      SumOfEqual(values[..|values| - 1], w);
      assert |values| * w == (|values| - 1) * w + w;
    }
  }

  // ----- when every weight stays positive -----

  const WEIGHT_LIMIT := 14  // clusters up to which a wide limit keeps every weight positive

  /** The shift limit is at least 8 and at least an equal share; up to three clusters any
      limit will do. */
  predicate Wide(n: nat, maxShiftPercent: int)
    requires n > 0
  {
    var limit := ShiftLimit(maxShiftPercent);
    n <= 3 || (limit >= 8 && limit as real >= EqualShare(n))
  }

  ghost predicate AlwaysPositive(n: nat, maxShiftPercent: int) {
    forall scores, out :: |scores| == n && Positive(scores) && Apportioned(scores, maxShiftPercent, out) ==>
      AllPositive(out)
  }

  lemma DefaultIsWide(n: nat, maxShiftPercent: int)
    requires n > 0 && ShiftLimit(maxShiftPercent) >= DEFAULT_SHIFT
    ensures Wide(n, maxShiftPercent)
  {
    if n >= 4 {
      QuotientOrder(100.0, 25.0 * n as real, n as real);
      assert 25.0 * n as real / n as real == 25.0;
    }
  }

  /** At a wide limit, and so at the default or above, every weight is positive for all
      scores if and only if there are at most fourteen clusters. */
  lemma AlwaysPositiveExactly(n: nat, maxShiftPercent: int)
    requires n > 0 && (Wide(n, maxShiftPercent) || ShiftLimit(maxShiftPercent) >= DEFAULT_SHIFT)
    ensures AlwaysPositive(n, maxShiftPercent) <==> n <= WEIGHT_LIMIT
  {
    if ShiftLimit(maxShiftPercent) >= DEFAULT_SHIFT {
      DefaultIsWide(n, maxShiftPercent);
    }
    if n <= WEIGHT_LIMIT {
      forall scores, out | |scores| == n && Positive(scores) && Apportioned(scores, maxShiftPercent, out)
        ensures AllPositive(out)
      {
        AllPositiveUpToFourteen(scores, maxShiftPercent, out);
      }
    } else {
      var scores, out := BestWithoutWeight(n, maxShiftPercent);
    }
  }

  lemma AllPositiveUpToFourteen(scores: seq<ClusterScore>, maxShiftPercent: int, out: map<string, int>)
    requires 1 <= |scores| <= WEIGHT_LIMIT && Positive(scores) && Wide(|scores|, maxShiftPercent)
    requires Apportioned(scores, maxShiftPercent, out)
    ensures AllPositive(out)
  {
    var values := Values(scores, out);
    SumOverNames(out, Names(scores), values);
    if |scores| <= 3 {
      FewClusters(scores, maxShiftPercent, out, values);
    } else {
      BestPositive(scores, maxShiftPercent, values);
    }
    BestWeightExactly(scores, maxShiftPercent, out);
    assert out[Names(scores)[Best(scores)]] == values[Best(scores)];
  }

  function Proportions(scores: seq<ClusterScore>): seq<real>
    requires Sum(Totals(scores)) != 0.0
  {
    seq(|scores|, i requires 0 <= i < |scores| => Proportional(scores[i].total, Sum(Totals(scores))))
  }

  lemma {:induction false} SumProportional(totals: seq<real>, total: real, ps: seq<real>)
    requires total != 0.0 && |ps| == |totals|
    requires forall i :: 0 <= i < |totals| ==> ps[i] == Proportional(totals[i], total)
    ensures Sum(ps) == Proportional(Sum(totals), total)
  {
    if totals == [] {
    } else {
      var n := |totals| - 1;
      SumProportional(totals[..n], total, ps[..n]);
      ProportionalAdds(Sum(totals[..n]), totals[n], total);
    }
  }

  lemma ProportionalAdds(a: real, b: real, total: real)
    requires total != 0.0
    ensures Proportional(a + b, total) == Proportional(a, total) + Proportional(b, total)
  {
    assert (a + b) / total == a / total + b / total;
  }

  /** The proportions are non-negative, sum to 100 and are largest at the best cluster. */
  lemma ProportionFacts(scores: seq<ClusterScore>)
    requires Positive(scores) && scores != []
    ensures var ps := Proportions(scores);
      Sum(ps) == 100.0 && forall i :: 0 <= i < |ps| ==> 0.0 <= ps[i] <= ps[Best(scores)]
    ensures Proportions(scores)[Best(scores)] >= EqualShare(|scores|)
  {
    var total, b := Sum(Totals(scores)), Best(scores);
    SumProportional(Totals(scores), total, Proportions(scores));
    ProportionalEnds(total);
    forall i | 0 <= i < |scores|
      ensures 0.0 <= Proportions(scores)[i] <= Proportions(scores)[b]
    {
      ProportionalMonotone(0.0, scores[i].total, total);
      ProportionalMonotone(scores[i].total, scores[b].total, total);
    }
    SumAtMost(Proportions(scores), Proportions(scores)[b]);
    AtLeastAverage(|scores|, Proportions(scores)[b]);
  }

  lemma ProportionalEnds(total: real)
    requires total > 0.0
    ensures Proportional(0.0, total) == 0.0 && Proportional(total, total) == 100.0
  {
  }

  lemma {:induction false} SumAtMost(xs: seq<real>, x: real)
    requires forall i :: 0 <= i < |xs| ==> xs[i] <= x
    ensures Sum(xs) <= Times(|xs|, x)
  {
    if xs == [] {
    } else {
      SumAtMost(xs[..|xs| - 1], x);
      TimesStep(|xs| - 1, x);
    }
  }

  lemma AtLeastAverage(n: nat, x: real)
    requires n > 0 && Times(n, x) >= 100.0
    ensures x >= EqualShare(n)
  {
    QuotientOrder(100.0, n as real * x, n as real);
    assert n as real * x / n as real == x;
  }

  /** Rounding up costs at most one, and at most a half for the largest proportion; this is
      the straight line between the two. */
  function RoundedAtMost(p: real, top: real): real
    requires top > 0.0
  {
    1.0 + Product(1.0 - 0.5 / top, p)
  }

  lemma RoundedBelowLine(score: real, total: real, n: nat, limit: int, top: real)
    requires total > 0.0 && n > 0 && limit as real >= EqualShare(n)
    requires 0.0 <= Proportional(score, total) <= top && top >= 0.5
    ensures Rounded(RawWeight(score, total, n, limit)) as real <= RoundedAtMost(Proportional(score, total), top)
  {
    var p := Proportional(score, total);
    assert RawWeight(score, total, n, limit) <= p;
    assert Rounded(RawWeight(score, total, n, limit)) as real <= if p < 0.5 then 1.0 else p + 0.5;
    LineAbove(p, top);
  }

  lemma LineAbove(p: real, top: real)
    requires 0.0 <= p <= top && top >= 0.5
    ensures (if p < 0.5 then 1.0 else p + 0.5) <= RoundedAtMost(p, top)
  {
    var c := 0.5 / top;
    assert c * top == 0.5;
    assert c * (top - p) >= 0.0;
    assert c <= 1.0 by {
      QuotientOrder(0.5, top, top);
    }
    assert (1.0 - c) * p >= 0.0;
    assert (1.0 - c) * p == p - c * p;
  }

  lemma LineAtTop(top: real)
    requires top > 0.0
    ensures RoundedAtMost(top, top) == top + 0.5
    ensures Product(1.0 - 0.5 / top, 100.0) == 100.0 - 50.0 / top
  {
    var c := 0.5 / top;
    assert c * top == 0.5;
    assert (1.0 - c) * top == top - c * top;
  }

  /** The arithmetic behind fourteen: x + 50 / x is smallest near 7, and still above 14. */
  lemma AboveFourteen(x: real)
    requires x > 0.0
    ensures x + 50.0 / x > 14.0
  {
    var q, d := 50.0 / x, x - 7.0;
    assert q * x == 50.0;
    assert d * d >= 0.0;
    assert d * d == x * x - 14.0 * x + 49.0;
    assert (x + q - 14.0) * x == x * x + q * x - 14.0 * x;
  }

  lemma BestPositive(scores: seq<ClusterScore>, maxShiftPercent: int, values: seq<int>)
    requires 1 <= |scores| <= WEIGHT_LIMIT && Positive(scores) && |values| == |scores| && SumInt(values) == 100
    requires ShiftLimit(maxShiftPercent) as real >= EqualShare(|scores|)
    requires forall i :: 0 <= i < |scores| && i != Best(scores) ==> values[i] == Weight(scores, maxShiftPercent, i)
    ensures values[Best(scores)] >= 1
  {
    var top := OthersAtMost(scores, maxShiftPercent, values);
    AboveFourteen(top);
  }

  lemma OthersAtMost(scores: seq<ClusterScore>, maxShiftPercent: int, values: seq<int>) returns (top: real)
    requires 1 <= |scores| <= WEIGHT_LIMIT && Positive(scores) && |values| == |scores|
    requires ShiftLimit(maxShiftPercent) as real >= EqualShare(|scores|)
    requires forall i :: 0 <= i < |scores| && i != Best(scores) ==> values[i] == Weight(scores, maxShiftPercent, i)
    ensures top > 0.0
    ensures (SumInt(values) - values[Best(scores)]) as real <= |scores| as real + 99.5 - 50.0 / top - top
  {
    ProportionFacts(scores);
    ShareOfFew(|scores|);
    var n, b, ps := |scores|, Best(scores), Proportions(scores);
    top := ps[b];
    var bounds := seq(n, i requires 0 <= i < n => RoundedAtMost(ps[i], top));
    forall i | 0 <= i < n && i != b
      ensures values[i] as real <= bounds[i]
    {
      WeightBelowLine(scores, maxShiftPercent, i, top);
    }
    SumExcept(values, bounds, b);
    SumOfLine(ps, top, bounds);
    LineAtTop(top);
  }

  lemma WeightBelowLine(scores: seq<ClusterScore>, maxShiftPercent: int, i: nat, top: real)
    requires Positive(scores) && i < |scores| && ShiftLimit(maxShiftPercent) as real >= EqualShare(|scores|)
    requires 0.0 <= Proportions(scores)[i] <= top && top >= 0.5
    ensures Weight(scores, maxShiftPercent, i) as real <= RoundedAtMost(Proportions(scores)[i], top)
  {
    RoundedBelowLine(scores[i].total, Sum(Totals(scores)), |scores|, ShiftLimit(maxShiftPercent), top);
  }

  lemma {:induction false} SumOfLine(ps: seq<real>, top: real, bounds: seq<real>)
    requires top > 0.0 && |bounds| == |ps| && forall i :: 0 <= i < |ps| ==> bounds[i] == RoundedAtMost(ps[i], top)
    ensures Sum(bounds) == |ps| as real + Product(1.0 - 0.5 / top, Sum(ps))
  {
    if ps == [] {
    } else {
      var n := |ps| - 1;
      SumOfLine(ps[..n], top, bounds[..n]);
      var k := 1.0 - 0.5 / top;
      assert k * (Sum(ps[..n]) + ps[n]) == k * Sum(ps[..n]) + k * ps[n];
    }
  }

  lemma {:induction false} SumExcept(values: seq<int>, bounds: seq<real>, b: nat)
    requires |bounds| == |values| && b < |values|
    requires forall i :: 0 <= i < |values| && i != b ==> values[i] as real <= bounds[i]
    ensures (SumInt(values) - values[b]) as real <= Sum(bounds) - bounds[b]
  {
    var n := |values| - 1;
    if b == n {
      SumAtMostBounds(values[..n], bounds[..n]);
    } else {
      SumExcept(values[..n], bounds[..n], b);
    }
  }

  lemma {:induction false} SumAtMostBounds(values: seq<int>, bounds: seq<real>)
    requires |bounds| == |values| && forall i :: 0 <= i < |values| ==> values[i] as real <= bounds[i]
    ensures SumInt(values) as real <= Sum(bounds)
  {
    if values == [] {
    } else {
      SumAtMostBounds(values[..|values| - 1], bounds[..|bounds| - 1]);
    }
  }

  lemma ShareOfFew(n: nat)
    requires 0 < n <= WEIGHT_LIMIT
    ensures EqualShare(n) >= 0.5
  {
    QuotientOrder(7.0 * n as real, 100.0, n as real);
  }

  /** Up to three clusters, where the limit may be narrower than an equal share. */
  lemma FewClusters(scores: seq<ClusterScore>, maxShiftPercent: int, out: map<string, int>, values: seq<int>)
    requires 1 <= |scores| <= 3 && Positive(scores) && Apportioned(scores, maxShiftPercent, out)
    requires values == Values(scores, out) && SumInt(values) == 100
    ensures values[Best(scores)] >= 1
  {
    if |scores| == 1 {
      SumIntStep(values, 0);
      assert values[..1] == values && values[..0] == [];
    } else if |scores| == 2 {
      TwoClusters(scores, maxShiftPercent, out);
      SumIntOfTwo(values);
    } else {
      ThreeClusters(scores, maxShiftPercent, values);
    }
  }

  lemma ThreeClusters(scores: seq<ClusterScore>, maxShiftPercent: int, values: seq<int>)
    requires |scores| == 3 && Positive(scores) && |values| == 3 && SumInt(values) == 100
    requires forall i :: 0 <= i < 3 && i != Best(scores) ==> values[i] == Weight(scores, maxShiftPercent, i)
    ensures values[Best(scores)] >= 1
  {
    ProportionFacts(scores);
    var b, ps := Best(scores), Proportions(scores);
    SumOfThree(ps);
    SumIntOfThree(values);
    forall i | 0 <= i < 3 && i != b
      ensures values[i] as real <= (if ps[i] < 34.0 then 34.0 else ps[i]) + 0.5
    {
      OneOfThree(scores[i].total, Sum(Totals(scores)), ShiftLimit(maxShiftPercent));
    }
  }

  lemma OneOfThree(score: real, total: real, limit: int)
    requires total > 0.0 && limit > 0
    ensures var p := Proportional(score, total);
      Rounded(RawWeight(score, total, 3, limit)) as real <= (if p < 34.0 then 34.0 else p) + 0.5
  {
    assert EqualShare(3) < 34.0;
  }

  // ----- when it does not -----

  /** Clusters with distinct names: `a` of them score x, `b` score y and the rest nothing. */
  function Levels(a: nat, x: real, b: nat, y: real, n: nat): seq<ClusterScore> {
    seq(n, i requires 0 <= i < n => ClusterScore(NameOf(i), if i < a then x else if i < a + b then y else 0.0))
  }

  function NameOf(i: nat): (name: string)
    ensures |name| == i
  {
    seq(i, _ => 'c')
  }

  lemma {:induction false} LevelsSum(a: nat, x: real, b: nat, y: real, n: nat, k: nat)
    requires a + b <= n && k <= n
    ensures Sum(Totals(Levels(a, x, b, y, n))[..k]) ==
      if k <= a then Times(k, x) else if k <= a + b then Times(a, x) + Times(k - a, y) else Times(a, x) + Times(b, y)
  {
    if k == 0 {
    } else {
      LevelsSum(a, x, b, y, n, k - 1);
      SumStep(Totals(Levels(a, x, b, y, n)), k - 1);
      if k <= a {
        TimesStep(k - 1, x);
      } else if k <= a + b {
        TimesStep(k - a - 1, y);
      }
    }
  }

  lemma LevelsAreScores(a: nat, x: real, b: nat, y: real, n: nat)
    requires 0 < a && a + b <= n && x > y >= 0.0 && Times(a, x) + Times(b, y) == 100.0
    ensures var scores := Levels(a, x, b, y, n);
      Positive(scores) && Sum(Totals(scores)) == 100.0 && Distinct(Names(scores)) && Best(scores) == 0
  {
    var scores := Levels(a, x, b, y, n);
    LevelsSum(a, x, b, y, n, n);
    assert Totals(scores)[..n] == Totals(scores);
    assert forall i :: 0 <= i < n ==> |Names(scores)[i]| == i;
    assert scores[0].total == x;
  }

  /** Every list of distinctly named scores has an apportionment. */
  lemma ApportionmentExists(scores: seq<ClusterScore>, maxShiftPercent: int) returns (out: map<string, int>)
    requires scores != [] && Sum(Totals(scores)) != 0.0 && Distinct(Names(scores))
    ensures Apportioned(scores, maxShiftPercent, out)
    ensures var ws := Uncorrected(scores, maxShiftPercent);
      out[Names(scores)[Best(scores)]] == 100 - (SumInt(ws) - ws[Best(scores)])
  {
    var ws, b, names := Uncorrected(scores, maxShiftPercent), Best(scores), Names(scores);
    var values := ws[b := 100 - (SumInt(ws) - ws[b])];
    SumIntUpdate(ws, b, values[b]);
    out := MapOf(names, values);
    MapOfNames(names, values);
    SumOverNames(out, names, values);
    assert out[names[b]] == values[b];
  }

  function Copies(k: nat, x: int): int {
    k * x
  }

  lemma CopiesStep(k: nat, x: int)
    ensures Copies(0, x) == 0
    ensures Copies(k + 1, x) == Copies(k, x) + x
  {
  }

  lemma {:induction false} LevelWeights(ws: seq<int>, a: nat, x: int, b: nat, y: int, z: int, k: nat)
    requires a + b <= |ws| && k <= |ws|
    requires forall i :: 0 <= i < |ws| ==> ws[i] == if i < a then x else if i < a + b then y else z
    ensures SumInt(ws[..k]) ==
      if k <= a then Copies(k, x)
      else if k <= a + b then Copies(a, x) + Copies(k - a, y)
      else Copies(a, x) + Copies(b, y) + Copies(k - a - b, z)
  {
    if k == 0 {
      CopiesStep(0, x);
    } else {
      LevelWeights(ws, a, x, b, y, z, k - 1);
      SumIntStep(ws, k - 1);
      if k <= a {
        CopiesStep(k - 1, x);
      } else if k <= a + b {
        CopiesStep(k - a - 1, y);
      } else {
        CopiesStep(k - a - b - 1, z);
      }
    }
  }

  /** From fifteen clusters on the best one can be left without any weight: nine score 7.5,
      five score 6.5 and the rest nothing, and the others' rounded weights use up the 100. */
  lemma BestWithoutWeight(n: nat, maxShiftPercent: int) returns (scores: seq<ClusterScore>, out: map<string, int>)
    requires n > WEIGHT_LIMIT && ShiftLimit(maxShiftPercent) >= 8
    ensures |scores| == n && Positive(scores) && Apportioned(scores, maxShiftPercent, out)
    ensures out[Names(scores)[Best(scores)]] == 15 - n
  {
    scores := Levels(9, 7.5, 5, 6.5, n);
    LevelsAreScores(9, 7.5, 5, 6.5, n);
    out := ApportionmentExists(scores, maxShiftPercent);
    SumOfMany(n, maxShiftPercent);
  }

  lemma SumOfMany(n: nat, maxShiftPercent: int)
    requires n > WEIGHT_LIMIT && ShiftLimit(maxShiftPercent) >= 8
    requires Sum(Totals(Levels(9, 7.5, 5, 6.5, n))) == 100.0
    ensures var ws := Uncorrected(Levels(9, 7.5, 5, 6.5, n), maxShiftPercent);
      ws[0] == 8 && SumInt(ws) == 93 + n
  {
    var scores := Levels(9, 7.5, 5, 6.5, n);
    var ws := Uncorrected(scores, maxShiftPercent);
    ManyRounded(n, ShiftLimit(maxShiftPercent));
    forall i | 0 <= i < n
      ensures ws[i] == if i < 9 then 8 else if i < 14 then 7 else 1
    {
      assert ws[i] == Rounded(RawWeight(scores[i].total, 100.0, n, ShiftLimit(maxShiftPercent)));
    }
    LevelWeights(ws, 9, 8, 5, 7, 1, n);
    assert ws[..n] == ws;
  }

  lemma ManyRounded(n: nat, limit: int)
    requires n > WEIGHT_LIMIT && limit >= 8
    ensures Rounded(RawWeight(7.5, 100.0, n, limit)) == 8
    ensures Rounded(RawWeight(6.5, 100.0, n, limit)) == 7
    ensures Rounded(RawWeight(0.0, 100.0, n, limit)) == 1
  {
    ShareOfMany(n);
    RawIsScore(7.5, n, limit);
    RawIsScore(6.5, n, limit);
    RawIsScore(0.0, n, limit);
  }

  lemma RawIsScore(score: real, n: nat, limit: int)
    requires n > 0 && 0.0 < EqualShare(n) < 6.7 && limit >= 8 && 0.0 <= score <= 7.5
    ensures RawWeight(score, 100.0, n, limit) == score
  {
    assert Proportional(score, 100.0) == score;
  }

  lemma ShareOfMany(n: nat)
    requires n > WEIGHT_LIMIT
    ensures 0.0 < EqualShare(n) < 6.7
  {
    QuotientOrder(100.0, 6.67 * n as real, n as real);
    assert 6.67 * n as real / n as real == 6.67;
  }

  /** A narrow limit fails earlier: ten clusters at a limit of 5, eight scoring 12.5 and two
      nothing, leave the best cluster with -1. */
  lemma NarrowLimitBelowZero() returns (scores: seq<ClusterScore>, out: map<string, int>)
    ensures |scores| == 10 && Positive(scores) && Apportioned(scores, 5, out)
    ensures out[Names(scores)[Best(scores)]] == -1
  {
    scores := Levels(8, 12.5, 0, 0.0, 10);
    LevelsAreScores(8, 12.5, 0, 0.0, 10);
    out := ApportionmentExists(scores, 5);
    var ws := Uncorrected(scores, 5);
    assert EqualShare(10) == 10.0;
    forall i | 0 <= i < 10
      ensures ws[i] == if i < 8 then 13 else 5
    {
    }
    LevelWeights(ws, 8, 13, 0, 0, 5, 10);
    assert ws[..10] == ws;
  }
}

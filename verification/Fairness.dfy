/** Jain's fairness index, internal/tenant/fairness.go:
    J(x) = (sum x)^2 / (n * sum x^2) over the ratios of usage to guarantee. */
module Fairness {
  import opened Numbers
  import opened Sums

  datatype FairnessInput = FairnessInput(name: string, currentCores: real, guaranteedCores: real)

  datatype FairnessResult =
    | NoTenants  // the source returns nil
    | Result(globalIndex: real, perTenant: map<string, real>)

  /** The ratios of the tenants with a positive guarantee, in input order. */
  function Ratios(inputs: seq<FairnessInput>): seq<real> {
    if inputs == [] then []
    else
      var last := inputs[|inputs| - 1];
      var before := Ratios(inputs[..|inputs| - 1]);
      if last.guaranteedCores <= 0.0 then before else before + [RatioOf(last)]
  }

  function RatioOf(input: FairnessInput): real
    requires input.guaranteedCores > 0.0
  {
    input.currentCores / input.guaranteedCores
  }

  function Squares(xs: seq<real>): seq<real> {
    seq(|xs|, i requires 0 <= i < |xs| => Square(xs[i]))
  }

  /** The unclamped index. */
  function Jain(xs: seq<real>): real
    requires xs != []
  {
    Index(|xs|, Sum(xs), Sum(Squares(xs)))
  }

  function Index(n: nat, s: real, q: real): real
    requires n > 0
  {
    if q == 0.0 then 1.0 else Quotient(Square(s), Times(n, q))
  }

  function Square(x: real): real {
    x * x
  }

  function Quotient(a: real, b: real): real
    requires b != 0.0
  {
    a / b
  }

  function Clamp01(x: real): real {
    var low := if x < 1.0 then x else 1.0;
    if low > 0.0 then low else 0.0
  }

  /** A tenant's entry is the ratio of its last counted input. */
  ghost predicate LastRatio(inputs: seq<FairnessInput>, name: string, x: real) {
    exists i :: 0 <= i < |inputs| && inputs[i].name == name && inputs[i].guaranteedCores > 0.0 &&
                x == RatioOf(inputs[i]) &&
                forall j :: i < j < |inputs| && inputs[j].name == name ==> inputs[j].guaranteedCores <= 0.0
  }

  method CollectRatios(inputs: seq<FairnessInput>) returns (xs: seq<real>, perTenant: map<string, real>)
    ensures xs == Ratios(inputs)
    ensures forall name :: name in perTenant ==> LastRatio(inputs, name, perTenant[name])
    ensures forall i :: 0 <= i < |inputs| && inputs[i].guaranteedCores > 0.0 ==> inputs[i].name in perTenant
  {
    perTenant, xs := map[], [];
    for i := 0 to |inputs|
      invariant xs == Ratios(inputs[..i])
      invariant forall name :: name in perTenant ==> LastRatio(inputs[..i], name, perTenant[name])
      invariant forall k :: 0 <= k < i && inputs[k].guaranteedCores > 0.0 ==> inputs[k].name in perTenant
    {
      assert inputs[..i + 1][..i] == inputs[..i];
      var input := inputs[i];
      ghost var before := perTenant;
      if input.guaranteedCores > 0.0 {
        var x := RatioOf(input);
        perTenant := perTenant[input.name := x];
        xs := xs + [x];
        assert LastRatio(inputs[..i + 1], input.name, x) by { assert inputs[..i + 1][i] == input; }
      }
      forall name | name in perTenant
        ensures LastRatio(inputs[..i + 1], name, perTenant[name])
      {
        if input.guaranteedCores <= 0.0 || name != input.name {
          StillLast(inputs, i, name, before[name]);
        }
      }
    }
    assert inputs[..|inputs|] == inputs;
  }

  method ComputeFairness(inputs: seq<FairnessInput>) returns (r: FairnessResult)
    ensures r.NoTenants? <==> Ratios(inputs) == []
    ensures r.Result? ==> r.globalIndex == Jain(Ratios(inputs))
    ensures r.Result? ==> forall name :: name in r.perTenant ==> LastRatio(inputs, name, r.perTenant[name])
    ensures r.Result? ==>
      forall i :: 0 <= i < |inputs| && inputs[i].guaranteedCores > 0.0 ==> inputs[i].name in r.perTenant
  {
    var xs, perTenant := CollectRatios(inputs);
    if |xs| == 0 {
      return NoTenants;
    }
    var sumX, sumX2 := 0.0, 0.0;
    for i := 0 to |xs|
      invariant sumX == Sum(xs[..i]) && sumX2 == Sum(Squares(xs)[..i])
    {
      sumX := sumX + xs[i];
      sumX2 := sumX2 + Square(xs[i]);
      SumStep(xs, i);
      SumStep(Squares(xs), i);
    }
    assert xs[..|xs|] == xs && Squares(xs)[..|xs|] == Squares(xs);
    var index;
    if sumX2 == 0.0 {
      index := 1.0;
    } else {
      index := Quotient(Square(sumX), Times(|xs|, sumX2));
    }
    JainBounds(xs);
    index := Clamp01(index);
    r := Result(index, perTenant);
  }

  lemma StillLast(inputs: seq<FairnessInput>, i: nat, name: string, x: real)
    requires i < |inputs| && LastRatio(inputs[..i], name, x)
    requires inputs[i].guaranteedCores <= 0.0 || name != inputs[i].name
    ensures LastRatio(inputs[..i + 1], name, x)
  {
    var k :| 0 <= k < i && inputs[..i][k].name == name && inputs[..i][k].guaranteedCores > 0.0 &&
             x == RatioOf(inputs[..i][k]) &&
             forall j :: k < j < i && inputs[..i][j].name == name ==> inputs[..i][j].guaranteedCores <= 0.0;
    assert inputs[..i + 1][k] == inputs[..i][k];
    assert forall j :: 0 <= j < i ==> inputs[..i + 1][j] == inputs[..i][j];
  }

  // ----- Cauchy-Schwarz, with its gap written out -----

  /** sum of (x_i - y)^2 */
  function Spread(xs: seq<real>, y: real): real {
    if xs == [] then 0.0
    else Spread(xs[..|xs| - 1], y) + Square(xs[|xs| - 1] - y)
  }

  /** n * sum x^2 - (sum x)^2, as a sum of squared differences. */
  function Gap(xs: seq<real>): real {
    if xs == [] then 0.0
    else Gap(xs[..|xs| - 1]) + Spread(xs[..|xs| - 1], xs[|xs| - 1])
  }

  predicate AllEqual(xs: seq<real>) {
    forall i, j :: 0 <= i < j < |xs| ==> xs[i] == xs[j]
  }

  predicate AtMostOnePositive(xs: seq<real>) {
    forall i, j :: 0 <= i < j < |xs| ==> xs[i] == 0.0 || xs[j] == 0.0
  }

  lemma SquareOfPositive(d: real)
    requires d > 0.0
    ensures Square(d) > 0.0
  {
    calc { Square(d); == d * d; > 0.0; }
  }

  lemma SquareSign(d: real)
    ensures Square(d) >= 0.0
    ensures d != 0.0 ==> Square(d) > 0.0
    ensures d == 0.0 ==> Square(d) == 0.0
  {
    if d > 0.0 {
      SquareOfPositive(d);
    } else if d < 0.0 {
      SquareOfPositive(-d);
      assert Square(d) == Square(-d);
    }
  }

  lemma SquaresStep(xs: seq<real>)
    requires xs != []
    ensures Sum(Squares(xs)) == Sum(Squares(xs[..|xs| - 1])) + Square(xs[|xs| - 1])
  {
    assert Squares(xs)[..|xs| - 1] == Squares(xs[..|xs| - 1]);
  }

  /** The expansion of a spread about y, given the length, the sum and the sum of squares. */
  function Expanded(n: nat, s: real, q: real, y: real): real {
    q - 2.0 * (y * s) + Times(n, Square(y))
  }

  lemma ExpandStep(n: nat, s: real, q: real, y: real, x: real)
    ensures Expanded(n + 1, s + x, q + Square(x), y) == Expanded(n, s, q, y) + Square(x - y)
  {
    assert (x - y) * (x - y) == x * x - 2.0 * (y * x) + y * y;
    assert y * (s + x) == y * s + y * x;
    assert (n as real + 1.0) * (y * y) == n as real * (y * y) + y * y;
  }

  lemma {:induction false} SpreadExpands(xs: seq<real>, y: real)
    ensures Spread(xs, y) == Expanded(|xs|, Sum(xs), Sum(Squares(xs)), y)
  {
    if xs == [] {
    } else {
      var n := |xs| - 1;
      SpreadExpands(xs[..n], y);
      SquaresStep(xs);
      ExpandStep(n, Sum(xs[..n]), Sum(Squares(xs[..n])), y, xs[n]);
    }
  }

  lemma {:induction false} SpreadSign(xs: seq<real>, y: real)
    ensures Spread(xs, y) >= 0.0
    ensures Spread(xs, y) == 0.0 <==> forall i :: 0 <= i < |xs| ==> xs[i] == y
  {
    if xs == [] {
    } else {
      var n := |xs| - 1;
      SpreadSign(xs[..n], y);
      SquareSign(xs[n] - y);
      assert forall i :: 0 <= i < n ==> xs[i] == xs[..n][i];
    }
  }

  lemma GapStep(n: nat, s: real, q: real, x: real)
    ensures Times(n + 1, q + Square(x)) - Square(s + x)
         == Times(n, q) - Square(s) + Expanded(n, s, q, x)
  {
    var m := n as real;
    assert (s + x) * (s + x) == s * s + 2.0 * (x * s) + x * x;
    assert (m + 1.0) * (q + x * x) == m * q + m * (x * x) + q + x * x;
  }

  lemma {:induction false} GapIsCauchySchwarz(xs: seq<real>)
    ensures Gap(xs) == Times(|xs|, Sum(Squares(xs))) - Square(Sum(xs))
  {
    if xs == [] {
    } else {
      var n := |xs| - 1;
      GapIsCauchySchwarz(xs[..n]);
      SpreadExpands(xs[..n], xs[n]);
      SquaresStep(xs);
      GapStep(n, Sum(xs[..n]), Sum(Squares(xs[..n])), xs[n]);
    }
  }

  lemma {:induction false} GapSign(xs: seq<real>)
    ensures Gap(xs) >= 0.0
    ensures Gap(xs) == 0.0 <==> AllEqual(xs)
  {
    if xs == [] {
    } else {
      var n := |xs| - 1;
      GapSign(xs[..n]);
      SpreadSign(xs[..n], xs[n]);
      assert forall i :: 0 <= i < n ==> xs[i] == xs[..n][i];
      if AllEqual(xs) {
        assert forall i :: 0 <= i < n ==> xs[..n][i] == xs[n];
      }
    }
  }

  lemma {:induction false} Weighs(xs: seq<real>)
    ensures Sum(Squares(xs)) >= 0.0
    ensures Sum(Squares(xs)) == 0.0 <==> forall i :: 0 <= i < |xs| ==> xs[i] == 0.0
  {
    if xs == [] {
    } else {
      var n := |xs| - 1;
      Weighs(xs[..n]);
      SquaresStep(xs);
      SquareSign(xs[n]);
      assert forall i :: 0 <= i < n ==> xs[i] == xs[..n][i];
    }
  }

  lemma QuotientAtMostOne(a: real, b: real)
    requires b > 0.0
    ensures Quotient(a, b) <= 1.0 <==> a <= b
    ensures Quotient(a, b) == 1.0 <==> a == b
    ensures a >= 0.0 ==> Quotient(a, b) >= 0.0
    ensures Product(Quotient(a, b), b) == a
  {
    var r := a / b;
    assert a == r * b;
    if r > 1.0 {
      assert (r - 1.0) * b > 0.0;
    } else {
      assert (1.0 - r) * b >= 0.0;
      if r < 1.0 {
        assert (1.0 - r) * b > 0.0;
      }
    }
  }

  lemma TimesSign(n: nat, q: real)
    requires n > 0 && q > 0.0
    ensures Times(n, q) > 0.0
  {
  }

  /** For any ratios at all, the index lies in [0, 1], so the final clamp changes nothing,
      and it is 1 exactly when all ratios are equal. */
  lemma JainBounds(xs: seq<real>)
    requires xs != []
    ensures 0.0 <= Jain(xs) <= 1.0
    ensures Clamp01(Jain(xs)) == Jain(xs)
    ensures Jain(xs) == 1.0 <==> AllEqual(xs)
    ensures Product(Jain(xs), Times(|xs|, Sum(Squares(xs)))) == Square(Sum(xs))
  {
    var s, q := Sum(xs), Sum(Squares(xs));
    Weighs(xs);
    if q != 0.0 {
      GapSign(xs);
      GapIsCauchySchwarz(xs);
      SquareSign(s);
      TimesSign(|xs|, q);
      QuotientAtMostOne(Square(s), Times(|xs|, q));
    } else {
      ZeroSum(xs);
    }
  }

  lemma {:induction false} ZeroSum(xs: seq<real>)
    requires forall i :: 0 <= i < |xs| ==> xs[i] == 0.0
    ensures Sum(xs) == 0.0
  {
    if xs == [] {
    } else {
      ZeroSum(xs[..|xs| - 1]);
    }
  }

  lemma SquareOfSumStep(s: real, x: real)
    requires s >= 0.0 && x >= 0.0
    ensures Square(s + x) >= Square(s) + Square(x)
    ensures Square(s + x) == Square(s) + Square(x) <==> s == 0.0 || x == 0.0
  {
    assert (s + x) * (s + x) == s * s + 2.0 * (s * x) + x * x;
    if s > 0.0 && x > 0.0 {
      assert s * x > 0.0;
    }
  }

  /** The square of a sum of non-negative numbers dominates the sum of their squares, and
      the two agree exactly when at most one of the numbers is positive. */
  lemma {:induction false} SquareOfSum(xs: seq<real>)
    requires forall i :: 0 <= i < |xs| ==> xs[i] >= 0.0
    ensures Square(Sum(xs)) >= Sum(Squares(xs))
    ensures Square(Sum(xs)) == Sum(Squares(xs)) <==> AtMostOnePositive(xs)
  {
    if xs == [] {
    } else {
      var n := |xs| - 1;
      var s, x := Sum(xs[..n]), xs[n];
      SquareOfSum(xs[..n]);
      SumNonNegative(xs[..n]);
      SquaresStep(xs);
      SquareOfSumStep(s, x);
      assert forall i :: 0 <= i < n ==> xs[i] == xs[..n][i];
      assert AtMostOnePositive(xs) <==> AtMostOnePositive(xs[..n]) && (s == 0.0 || x == 0.0) by {
        if s > 0.0 {
          var k := PositiveTerm(xs[..n]);
          assert xs[k] > 0.0;
        }
      }
    }
  }

  lemma QuotientAgainst(a: real, n: nat, q: real)
    requires n > 0 && q > 0.0 && a >= q
    ensures Times(n, q) > 0.0
    ensures Quotient(a, Times(n, q)) >= Quotient(1.0, n as real)
    ensures Quotient(a, Times(n, q)) == Quotient(1.0, n as real) <==> a == q
  {
    TimesSign(n, q);
    var m := n as real;
    var r := a / (m * q);
    assert a == r * (m * q) == (r * m) * q;
    var t := r * m;
    assert r == t / m;
    if t > 1.0 {
      assert (t - 1.0) * q > 0.0;
    }
    OverCommonDivisor(t, m);
  }

  lemma OverCommonDivisor(t: real, m: real)
    requires m > 0.0
    ensures t / m == 1.0 / m <==> t == 1.0
    ensures t >= 1.0 ==> t / m >= 1.0 / m
  {
    assert t / m - 1.0 / m == (t - 1.0) / m;
  }

  /** For non-negative ratios the index is at least 1/n; among ratios that are not all
      zero it is exactly 1/n when a single tenant uses everything. */
  lemma JainLowerBound(xs: seq<real>)
    requires xs != [] && forall i :: 0 <= i < |xs| ==> xs[i] >= 0.0
    ensures Jain(xs) >= Quotient(1.0, |xs| as real)
    ensures Sum(xs) > 0.0 ==> (Jain(xs) == Quotient(1.0, |xs| as real) <==> AtMostOnePositive(xs))
  {
    var s, q := Sum(xs), Sum(Squares(xs));
    Weighs(xs);
    SquareOfSum(xs);
    if q != 0.0 {
      QuotientAgainst(Square(s), |xs|, q);
    } else {
      SquareSign(s);
      QuotientAtMostOne(1.0, |xs| as real);
    }
  }

  function Scaled(xs: seq<real>, k: real): seq<real> {
    seq(|xs|, i requires 0 <= i < |xs| => Product(k, xs[i]))
  }

  lemma SquaresScaled(xs: seq<real>, k: real)
    ensures Squares(Scaled(xs, k)) == Scaled(Squares(xs), Square(k))
  {
    forall i | 0 <= i < |xs|
      ensures Squares(Scaled(xs, k))[i] == Scaled(Squares(xs), Square(k))[i]
    {
      SquareOfProduct(k, xs[i]);
    }
  }

  lemma SquareOfProduct(k: real, x: real)
    ensures Square(Product(k, x)) == Product(Square(k), Square(x))
  {
  }

  lemma SumScaled(xs: seq<real>, k: real)
    ensures Sum(Scaled(xs, k)) == Product(k, Sum(xs))
  {
    var zeros := seq(|xs|, i => 0.0);
    SumLinear(zeros, xs, k, Scaled(xs, k));
    SumLinear(zeros, zeros, -1.0, zeros);
  }

  lemma CancelFactor(n: nat, a: real, q: real, f: real)
    requires n > 0 && q > 0.0 && f > 0.0
    ensures Product(f, q) > 0.0
    ensures Quotient(Product(f, a), Times(n, Product(f, q))) == Quotient(a, Times(n, q))
  {
    TimesSign(n, q);
    var d := n as real * q;
    assert f * q > 0.0;
    assert n as real * (f * q) == f * d;
    var r := a / d;
    assert a == r * d;
    assert f * a == r * (f * d);
    assert f * d > 0.0;
  }

  /** Scaling every usage by the same positive factor leaves the index unchanged. */
  lemma JainScaleFree(xs: seq<real>, k: real)
    requires xs != [] && k > 0.0
    ensures Jain(Scaled(xs, k)) == Jain(xs)
  {
    var s, q := Sum(xs), Sum(Squares(xs));
    SumScaled(xs, k);
    SquaresScaled(xs, k);
    SumScaled(Squares(xs), Square(k));
    Weighs(xs);
    IndexScaleFree(|xs|, s, q, k);
  }

  lemma IndexScaleFree(n: nat, s: real, q: real, k: real)
    requires n > 0 && q >= 0.0 && k > 0.0
    ensures Index(n, Product(k, s), Product(Square(k), q)) == Index(n, s, q)
  {
    SquareOfPositive(k);
    SquareOfProduct(k, s);
    if q > 0.0 {
      CancelFactor(n, Square(s), q, Square(k));
    }
  }

  // ----- the same facts about the tenants' usage -----

  function ScaleUsage(inputs: seq<FairnessInput>, k: real): seq<FairnessInput> {
    seq(|inputs|, i requires 0 <= i < |inputs| => Rescale(inputs[i], k))
  }

  function Rescale(input: FairnessInput, k: real): FairnessInput {
    input.(currentCores := k * input.currentCores)
  }

  lemma {:induction false} RatiosScale(inputs: seq<FairnessInput>, k: real)
    ensures Ratios(ScaleUsage(inputs, k)) == Scaled(Ratios(inputs), k)
  {
    if inputs == [] {
    } else {
      var n := |inputs| - 1;
      RatiosScale(inputs[..n], k);
      assert ScaleUsage(inputs, k)[..n] == ScaleUsage(inputs[..n], k);
      if inputs[n].guaranteedCores > 0.0 {
        RatioScales(inputs[n], k);
        ScaledAppend(Ratios(inputs[..n]), RatioOf(inputs[n]), k);
        assert ScaleUsage(inputs, k)[n] == Rescale(inputs[n], k);
      }
    }
  }

  lemma RatioScales(input: FairnessInput, k: real)
    requires input.guaranteedCores > 0.0
    ensures RatioOf(Rescale(input, k)) == Product(k, RatioOf(input))
  {
  }

  lemma ScaledAppend(xs: seq<real>, x: real, k: real)
    ensures Scaled(xs + [x], k) == Scaled(xs, k) + [Product(k, x)]
  {
  }

  lemma {:induction false} RatiosNonNegative(inputs: seq<FairnessInput>)
    requires forall i :: 0 <= i < |inputs| ==> inputs[i].currentCores >= 0.0
    ensures forall i :: 0 <= i < |Ratios(inputs)| ==> Ratios(inputs)[i] >= 0.0
  {
    if inputs == [] {
    } else {
      RatiosNonNegative(inputs[..|inputs| - 1]);
      var last := inputs[|inputs| - 1];
      if last.guaranteedCores > 0.0 {
        QuotientAtMostOne(last.currentCores, last.guaranteedCores);
      }
    }
  }

  /** Two tenants use the same part of their guarantees. */
  predicate Proportional(a: FairnessInput, b: FairnessInput) {
    a.currentCores * b.guaranteedCores == b.currentCores * a.guaranteedCores
  }

  lemma ProportionalExactly(a: FairnessInput, b: FairnessInput)
    requires a.guaranteedCores > 0.0 && b.guaranteedCores > 0.0
    ensures RatioOf(a) == RatioOf(b) <==> Proportional(a, b)
  {
    var x, y, both := RatioOf(a), RatioOf(b), a.guaranteedCores * b.guaranteedCores;
    assert a.currentCores == x * a.guaranteedCores && b.currentCores == y * b.guaranteedCores;
    assert a.currentCores * b.guaranteedCores == x * both && b.currentCores * a.guaranteedCores == y * both;
    assert both > 0.0;
    if x != y {
      assert (x - y) * both != 0.0;
    }
  }

  lemma {:induction false} RatioMembers(inputs: seq<FairnessInput>, x: real)
    ensures x in Ratios(inputs) <==>
      exists i :: 0 <= i < |inputs| && inputs[i].guaranteedCores > 0.0 && RatioOf(inputs[i]) == x
  {
    if inputs == [] {
    } else {
      var n := |inputs| - 1;
      RatioMembers(inputs[..n], x);
      assert forall i :: 0 <= i < n ==> inputs[..n][i] == inputs[i];
    }
  }

  ghost predicate AllProportional(inputs: seq<FairnessInput>) {
    forall a, b :: a in inputs && b in inputs && a.guaranteedCores > 0.0 && b.guaranteedCores > 0.0 ==>
      Proportional(a, b)
  }

  /** The index is 1 exactly when all counted tenants use the same part of their guarantees. */
  lemma FairExactlyWhenProportional(inputs: seq<FairnessInput>)
    requires Ratios(inputs) != []
    ensures Jain(Ratios(inputs)) == 1.0 <==> AllProportional(inputs)
  {
    var xs := Ratios(inputs);
    JainBounds(xs);
    forall a | a in inputs && a.guaranteedCores > 0.0
      ensures RatioOf(a) in xs
    {
      RatioMembers(inputs, RatioOf(a));
    }
    if AllEqual(xs) {
      forall a, b | a in inputs && b in inputs && a.guaranteedCores > 0.0 && b.guaranteedCores > 0.0
        ensures Proportional(a, b)
      {
        var k :| 0 <= k < |xs| && xs[k] == RatioOf(a);
        var m :| 0 <= m < |xs| && xs[m] == RatioOf(b);
        ProportionalExactly(a, b);
      }
    } else {
      var k, m :| 0 <= k < m < |xs| && xs[k] != xs[m];
      RatioMembers(inputs, xs[k]);
      RatioMembers(inputs, xs[m]);
      var i :| 0 <= i < |inputs| && inputs[i].guaranteedCores > 0.0 && RatioOf(inputs[i]) == xs[k];
      var j :| 0 <= j < |inputs| && inputs[j].guaranteedCores > 0.0 && RatioOf(inputs[j]) == xs[m];
      ProportionalExactly(inputs[i], inputs[j]);
    }
  }

  /** Jain's index over tenants: between 1/n and 1 for non-negative usage, and blind to a
      common scaling of all usages. */
  lemma TenantFairnessIndex(inputs: seq<FairnessInput>, k: real)
    requires Ratios(inputs) != [] && k > 0.0
    requires forall i :: 0 <= i < |inputs| ==> inputs[i].currentCores >= 0.0
    ensures Quotient(1.0, |Ratios(inputs)| as real) <= Jain(Ratios(inputs)) <= 1.0
    ensures Ratios(ScaleUsage(inputs, k)) != [] && Jain(Ratios(ScaleUsage(inputs, k))) == Jain(Ratios(inputs))
  {
    RatiosNonNegative(inputs);
    JainBounds(Ratios(inputs));
    JainLowerBound(Ratios(inputs));
    RatiosScale(inputs, k);
    JainScaleFree(Ratios(inputs), k);
  }
}

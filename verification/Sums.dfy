/** Finite sums over sequences, taken left to right as the source's accumulator loops take them. */
module Sums {

  function Sum(s: seq<real>): real {
    if s == [] then 0.0 else Sum(s[..|s| - 1]) + s[|s| - 1]
  }

  function SumInt(s: seq<int>): int {
    if s == [] then 0 else SumInt(s[..|s| - 1]) + s[|s| - 1]
  }

  lemma SumStep(s: seq<real>, i: nat)
    requires i < |s|
    ensures Sum(s[..i + 1]) == Sum(s[..i]) + s[i]
  {
    assert s[..i + 1][..i] == s[..i];
  }

  lemma SumIntStep(s: seq<int>, i: nat)
    requires i < |s|
    ensures SumInt(s[..i + 1]) == SumInt(s[..i]) + s[i]
  {
    assert s[..i + 1][..i] == s[..i];
  }

  lemma {:induction false} SumAdd(a: seq<real>, b: seq<real>, c: seq<real>)
    requires |a| == |b| == |c|
    requires forall i :: 0 <= i < |a| ==> c[i] == a[i] + b[i]
    ensures Sum(c) == Sum(a) + Sum(b)
  {
    if a == [] {
    } else {
      var n := |a| - 1;
      SumAdd(a[..n], b[..n], c[..n]);
    }
  }

  /** Sums are linear: c = a + k*b, element by element. */
  lemma {:induction false} SumLinear(a: seq<real>, b: seq<real>, k: real, c: seq<real>)
    requires |a| == |b| == |c|
    requires forall i :: 0 <= i < |a| ==> c[i] == a[i] + k * b[i]
    ensures Sum(c) == Sum(a) + k * Sum(b)
  {
    if a == [] {
    } else {
      var n := |a| - 1;
      SumLinear(a[..n], b[..n], k, c[..n]);
      assert k * (Sum(b[..n]) + b[n]) == k * Sum(b[..n]) + k * b[n];
    }
  }

  lemma {:induction false} SumMonotone(a: seq<real>, b: seq<real>)
    requires |a| == |b|
    requires forall i :: 0 <= i < |a| ==> a[i] <= b[i]
    ensures Sum(a) <= Sum(b)
  {
    if a == [] {
    } else {
      SumMonotone(a[..|a| - 1], b[..|b| - 1]);
    }
  }

  lemma {:induction false} SumStrict(a: seq<real>, b: seq<real>, j: nat)
    requires |a| == |b| && j < |a| && a[j] < b[j]
    requires forall i :: 0 <= i < |a| ==> a[i] <= b[i]
    ensures Sum(a) < Sum(b)
  {
    var n := |a| - 1;
    if j == n {
      SumMonotone(a[..n], b[..n]);
    } else {
      SumStrict(a[..n], b[..n], j);
    }
  }

  lemma {:induction false} SumNonNegative(a: seq<real>)
    requires forall i :: 0 <= i < |a| ==> 0.0 <= a[i]
    ensures 0.0 <= Sum(a)
    ensures forall i :: 0 <= i < |a| ==> a[i] <= Sum(a)
  {
    if a == [] {
    } else {
      SumNonNegative(a[..|a| - 1]);
      assert forall i :: 0 <= i < |a| - 1 ==> a[i] == a[..|a| - 1][i];
    }
  }

  /** A positive sum has a positive term. */
  lemma {:induction false} PositiveTerm(a: seq<real>) returns (i: nat)
    requires Sum(a) > 0.0
    ensures i < |a| && a[i] > 0.0
  {
    if a[|a| - 1] > 0.0 {
      i := |a| - 1;
    } else {
      i := PositiveTerm(a[..|a| - 1]);
    }
  }

  lemma {:induction false} SumIntNonNegative(a: seq<int>)
    requires forall i :: 0 <= i < |a| ==> 0 <= a[i]
    ensures 0 <= SumInt(a)
    ensures forall i :: 0 <= i < |a| ==> a[i] <= SumInt(a)
  {
    if a == [] {
    } else {
      SumIntNonNegative(a[..|a| - 1]);
      assert forall i :: 0 <= i < |a| - 1 ==> a[i] == a[..|a| - 1][i];
    }
  }

  lemma {:induction false} SumIntUpdate(a: seq<int>, i: nat, v: int)
    requires i < |a|
    ensures SumInt(a[i := v]) == SumInt(a) - a[i] + v
  {
    var n := |a| - 1;
    if i == n {
      assert a[i := v][..n] == a[..n];
    } else {
      SumIntUpdate(a[..n], i, v);
      assert a[i := v][..n] == a[..n][i := v];
    }
  }

  lemma SumOfTwo(a: seq<real>)
    requires |a| == 2
    ensures Sum(a) == a[0] + a[1]
  {
    SumStep(a, 0);
    SumStep(a, 1);
    assert a[..2] == a && a[..0] == [];
  }

  lemma SumOfThree(a: seq<real>)
    requires |a| == 3
    ensures Sum(a) == a[0] + a[1] + a[2]
  {
    SumStep(a, 0);
    SumStep(a, 1);
    SumStep(a, 2);
    assert a[..3] == a && a[..0] == [];
  }

  lemma SumIntOfTwo(a: seq<int>)
    requires |a| == 2
    ensures SumInt(a) == a[0] + a[1]
  {
    SumIntStep(a, 0);
    SumIntStep(a, 1);
    assert a[..2] == a && a[..0] == [];
  }

  lemma SumIntOfThree(a: seq<int>)
    requires |a| == 3
    ensures SumInt(a) == a[0] + a[1] + a[2]
  {
    SumIntStep(a, 0);
    SumIntStep(a, 1);
    SumIntStep(a, 2);
    assert a[..3] == a && a[..0] == [];
  }
}

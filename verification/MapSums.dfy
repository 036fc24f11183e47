/** Sums over the values of a map, whatever order its keys are visited in. */
module MapSums {
  import opened Basics
  import opened Sums

  ghost function SumValues<K(!new)>(m: map<K, int>): int {
    if m == map[] then 0
    else
      var k :| k in m;
      m[k] + SumValues(m - {k})
  }

  /** Any key may be taken out first. */
  lemma {:induction false} TakeOut<K(!new)>(m: map<K, int>, k: K)
    requires k in m
    ensures SumValues(m) == m[k] + SumValues(m - {k})
    decreases m
  {
    var first :| first in m && SumValues(m) == m[first] + SumValues(m - {first});
    if first == k {
    } else {
      TakeOut(m - {first}, k);
      TakeOut(m - {k}, first);
      assert m - {first} - {k} == m - {k} - {first};
    }
  }

  lemma SumSet<K(!new)>(m: map<K, int>, k: K, v: int)
    ensures SumValues(m[k := v]) == SumValues(m) - (if k in m then m[k] else 0) + v
  {
    TakeOut(m[k := v], k);
    if k in m {
      TakeOut(m, k);
      assert m[k := v] - {k} == m - {k};
    } else {
      assert m[k := v] - {k} == m;
    }
  }

  /** Over distinct names that cover the keys, the map's sum is the sequence's sum. */
  lemma {:induction false} SumOverNames<K(!new)>(m: map<K, int>, names: seq<K>, values: seq<int>)
    requires Distinct(names) && |values| == |names|
    requires forall k :: k in m <==> k in names
    requires forall i :: 0 <= i < |names| ==> values[i] == m[names[i]]
    ensures SumValues(m) == SumInt(values)
  {
    if names == [] {
      assert m == map[];
    } else {
      var n := |names| - 1;
      TakeOut(m, names[n]);
      assert names == names[..n] + [names[n]];
      SumOverNames(m - {names[n]}, names[..n], values[..n]);
    }
  }

  /** The map that gives each name its value. */
  function MapOf<K>(names: seq<K>, values: seq<int>): map<K, int>
    requires |values| == |names|
  {
    if names == [] then map[]
    else
      var n := |names| - 1;
      MapOf(names[..n], values[..n])[names[n] := values[n]]
  }

  lemma {:induction false} MapOfNames<K(!new)>(names: seq<K>, values: seq<int>)
    requires Distinct(names) && |values| == |names|
    ensures forall k :: k in MapOf(names, values) <==> k in names
    ensures forall i :: 0 <= i < |names| ==> MapOf(names, values)[names[i]] == values[i]
  {
    if names == [] {
    } else {
      var n := |names| - 1;
      MapOfNames(names[..n], values[..n]);
      assert names == names[..n] + [names[n]];
      assert forall i :: 0 <= i < n ==> names[..n][i] == names[i];
    }
  }
}

/** The mark-and-sweep dominance filter that the engine uses twice (pareto.go and
    candidates.go). Elements already marked are skipped as dominators; the result is still
    exactly the set of maximal elements, because dominance is a strict partial order. */
module Dominance {

  ghost predicate StrictOrder<T(!new)>(dom: (T, T) -> bool) {
    && (forall x :: !dom(x, x))
    && (forall x, y, z :: dom(x, y) && dom(y, z) ==> dom(x, z))
  }

  ghost predicate Dominated<T>(xs: seq<T>, dom: (T, T) -> bool, j: int)
    requires 0 <= j < |xs|
  {
    exists i :: 0 <= i < |xs| && dom(xs[i], xs[j])
  }

  /** The elements whose mark is false, in order. */
  function Unmarked<T>(xs: seq<T>, marks: seq<bool>): seq<T>
    requires |marks| == |xs|
  {
    if xs == [] then []
    else
      var n := |xs| - 1;
      var before := Unmarked(xs[..n], marks[..n]);
      if marks[n] then before else before + [xs[n]]
  }

  ghost function DominatedMarks<T>(xs: seq<T>, dom: (T, T) -> bool): seq<bool> {
    seq(|xs|, j requires 0 <= j < |xs| => Dominated(xs, dom, j))
  }

  /** Reference result: the undominated elements in input order. */
  ghost function Undominated<T>(xs: seq<T>, dom: (T, T) -> bool): seq<T> {
    Unmarked(xs, DominatedMarks(xs, dom))
  }

  method KeepUndominated<T(!new)>(xs: seq<T>, dom: (T, T) -> bool) returns (front: seq<T>)
    requires StrictOrder(dom)
    ensures front == Undominated(xs, dom)
  {
    var dominated := MarkDominated(xs, dom);
    var marks := dominated[..];
    front := [];
    for k := 0 to |xs|
      invariant front == Unmarked(xs[..k], marks[..k])
    {
      assert xs[..k + 1][..k] == xs[..k] && marks[..k + 1][..k] == marks[..k];
      if !marks[k] {
        front := front + [xs[k]];
      }
    }
    assert xs[..|xs|] == xs && marks[..|xs|] == marks;
  }

  /** The nested marking loops, which skip marked elements on both sides. */
  method MarkDominated<T(!new)>(xs: seq<T>, dom: (T, T) -> bool) returns (dominated: array<bool>)
    requires StrictOrder(dom)
    ensures fresh(dominated) && dominated[..] == DominatedMarks(xs, dom)
  {
    var n := |xs|;
    dominated := new bool[n](_ => false);
    var i := 0;
    while i < n
      invariant 0 <= i <= n
      invariant forall j :: 0 <= j < n && dominated[j] ==> Dominated(xs, dom, j)
      invariant forall k, j :: 0 <= k < i && 0 <= j < n && !dominated[k] && dom(xs[k], xs[j]) ==> dominated[j]
    {
      if !dominated[i] {
        var j := 0;
        while j < n
          invariant 0 <= j <= n
          invariant !dominated[i]
          invariant forall m :: 0 <= m < n && dominated[m] ==> Dominated(xs, dom, m)
          invariant forall k, m :: 0 <= k < i && 0 <= m < n && !dominated[k] && dom(xs[k], xs[m]) ==> dominated[m]
          invariant forall m :: 0 <= m < j && dom(xs[i], xs[m]) ==> dominated[m]
        {
          if i != j && !dominated[j] && dom(xs[i], xs[j]) {
            dominated[j] := true;
          }
          j := j + 1;
        }
      }
      i := i + 1;
    }
    forall j | 0 <= j < n
      ensures dominated[j] == Dominated(xs, dom, j)
    {
      if Dominated(xs, dom, j) {
        var m := MaximalDominator(xs, dom, j);
      }
    }
  }

  ghost function Dominators<T>(xs: seq<T>, dom: (T, T) -> bool, j: int): set<int>
    requires 0 <= j < |xs|
  {
    set i | 0 <= i < |xs| && dom(xs[i], xs[j])
  }

  /** Every dominated element is dominated by an undominated one. */
  lemma {:induction false} MaximalDominator<T(!new)>(xs: seq<T>, dom: (T, T) -> bool, j: int) returns (m: int)
    requires StrictOrder(dom) && 0 <= j < |xs| && Dominated(xs, dom, j)
    ensures 0 <= m < |xs| && dom(xs[m], xs[j]) && !Dominated(xs, dom, m)
    decreases Dominators(xs, dom, j)
  {
    m :| 0 <= m < |xs| && dom(xs[m], xs[j]);
    if !Dominated(xs, dom, m) {
    } else {
      assert m in Dominators(xs, dom, j) && m !in Dominators(xs, dom, m);
      assert Dominators(xs, dom, m) <= Dominators(xs, dom, j);
      var above := MaximalDominator(xs, dom, m);
      m := above;
    }
  }

  lemma {:induction false} UnmarkedIndex<T>(xs: seq<T>, marks: seq<bool>, i: int)
    requires |marks| == |xs| && 0 <= i < |xs| && !marks[i]
    ensures xs[i] in Unmarked(xs, marks)
  {
    if i == |xs| - 1 {
    } else {
      var n := |xs| - 1;
      UnmarkedIndex(xs[..n], marks[..n], i);
    }
  }

  lemma {:induction false} UnmarkedSource<T>(xs: seq<T>, marks: seq<bool>, x: T) returns (i: int)
    requires |marks| == |xs| && x in Unmarked(xs, marks)
    ensures 0 <= i < |xs| && xs[i] == x && !marks[i]
  {
    var n := |xs| - 1;
    if !marks[n] && xs[n] == x {
      i := n;
    } else {
      i := UnmarkedSource(xs[..n], marks[..n], x);
    }
  }

  /** What the filter keeps: exactly the inputs no input dominates. Whatever it drops is
      dominated by something kept, so a non-empty input leaves something. */
  lemma UndominatedExactly<T(!new)>(xs: seq<T>, dom: (T, T) -> bool)
    requires StrictOrder(dom)
    ensures forall x :: x in Undominated(xs, dom) <==> x in xs && !exists y :: y in xs && dom(y, x)
    ensures forall x :: x in xs && x !in Undominated(xs, dom) ==> exists y :: y in Undominated(xs, dom) && dom(y, x)
    ensures xs != [] ==> Undominated(xs, dom) != []
  {
    var marks := DominatedMarks(xs, dom);
    forall x | x in Undominated(xs, dom)
      ensures x in xs && !exists y :: y in xs && dom(y, x)
    {
      var i := UnmarkedSource(xs, marks, x);
    }
    forall x | x in xs && x !in Undominated(xs, dom)
      ensures exists y :: y in xs && y in Undominated(xs, dom) && dom(y, x)
    {
      var j :| 0 <= j < |xs| && xs[j] == x;
      if !marks[j] {
        UnmarkedIndex(xs, marks, j);
      }
      var m := MaximalDominator(xs, dom, j);
      UnmarkedIndex(xs, marks, m);
    }
    assert xs != [] ==> xs[0] in xs;
  }

  /** The positions whose mark is false. */
  function UnmarkedPositions(marks: seq<bool>): seq<nat> {
    if marks == [] then []
    else
      var n := |marks| - 1;
      if marks[n] then UnmarkedPositions(marks[..n]) else UnmarkedPositions(marks[..n]) + [n]
  }

  lemma {:induction false} PositionsExactly(marks: seq<bool>, i: nat)
    ensures i in UnmarkedPositions(marks) <==> i < |marks| && !marks[i]
  {
    if marks == [] {
    } else {
      PositionsExactly(marks[..|marks| - 1], i);
    }
  }

  lemma {:induction false} PositionsInOrder(marks: seq<bool>, k: nat, m: nat)
    requires k <= m < |UnmarkedPositions(marks)|
    ensures k < m ==> UnmarkedPositions(marks)[k] < UnmarkedPositions(marks)[m]
    ensures UnmarkedPositions(marks)[m] < |marks|
  {
    var n := |marks| - 1;
    var before := UnmarkedPositions(marks[..n]);
    if m < |before| {
      PositionsInOrder(marks[..n], k, m);
    } else if k < |before| {
      PositionsInOrder(marks[..n], k, k);
    } else {
    }
  }

  lemma {:induction false} KeptPositions<T>(xs: seq<T>, marks: seq<bool>)
    requires |marks| == |xs|
    ensures |Unmarked(xs, marks)| == |UnmarkedPositions(marks)|
    ensures forall k :: 0 <= k < |Unmarked(xs, marks)| ==>
      UnmarkedPositions(marks)[k] < |xs| && Unmarked(xs, marks)[k] == xs[UnmarkedPositions(marks)[k]]
  {
    if xs == [] {
    } else {
      KeptPositions(xs[..|xs| - 1], marks[..|xs| - 1]);
    }
  }

  /** The filter keeps input order and repetitions: it returns the elements at the undominated
      positions, from the first to the last. */
  lemma UndominatedInOrder<T>(xs: seq<T>, dom: (T, T) -> bool) returns (from: seq<nat>)
    ensures |from| == |Undominated(xs, dom)|
    ensures forall k :: 0 <= k < |from| ==> from[k] < |xs| && Undominated(xs, dom)[k] == xs[from[k]]
    ensures forall k, m :: 0 <= k < m < |from| ==> from[k] < from[m]
    ensures forall i :: 0 <= i < |xs| ==> (i in from <==> !exists j :: 0 <= j < |xs| && dom(xs[j], xs[i]))
  {
    var marks := DominatedMarks(xs, dom);
    from := UnmarkedPositions(marks);
    KeptPositions(xs, marks);
    forall k, m | 0 <= k < m < |from|
      ensures from[k] < from[m]
    {
      PositionsInOrder(marks, k, m);
    }
    forall i | 0 <= i < |xs|
      ensures i in from <==> !Dominated(xs, dom, i)
    {
      PositionsExactly(marks, i);
    }
  }
}

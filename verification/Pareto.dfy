/** Pareto front and selection, internal/engine/pareto.go. */
module Pareto {
  import opened EngineTypes
  import opened Dominance
  import Scorer

  predicate ScoreDominates(a: CandidateScore, b: CandidateScore) {
    if a.slo < b.slo || a.cost < b.cost || a.carbon < b.carbon || a.fairness < b.fairness then false
    else a.slo > b.slo || a.cost > b.cost || a.carbon > b.carbon || a.fairness > b.fairness
  }

  predicate Beats(a: ScoredCandidate, b: ScoredCandidate) {
    ScoreDominates(a.score, b.score)
  }

  /** Dominance in terms of the four scores: at least as good on each, better on some. */
  lemma DominatesExactly(a: CandidateScore, b: CandidateScore)
    ensures ScoreDominates(a, b) <==> Scorer.NoBetter(b, a) && !Scorer.NoBetter(a, b)
    ensures ScoreDominates(a, b) <==>
      && a.slo >= b.slo && a.cost >= b.cost && a.carbon >= b.carbon && a.fairness >= b.fairness
      && (a.slo != b.slo || a.cost != b.cost || a.carbon != b.carbon || a.fairness != b.fairness)
  {
  }

  lemma BeatsIsStrictOrder()
    ensures StrictOrder(Beats)
  {
  }

  method FindParetoFront(candidates: seq<ScoredCandidate>) returns (front: seq<ScoredCandidate>)
    ensures front == Undominated(candidates, Beats)
    ensures forall c :: c in front <==>
      c in candidates &&
      forall d :: d in candidates && Scorer.NoBetter(c.score, d.score) ==> Scorer.NoBetter(d.score, c.score)
  {
    FrontInNumbers(candidates);
    if |candidates| == 0 {
      return [];
    }
    if |candidates| == 1 {
      ghost var marks := DominatedMarks(candidates, Beats);
      assert !marks[0];
      assert Unmarked(candidates[..0], marks[..0]) == [];
      return candidates;
    }
    front := KeepUndominated(candidates, Beats);
  }

  /** A candidate is on the front exactly when whatever is at least as good on slo, cost, carbon
      and fairness is no better on any of them. */
  lemma FrontInNumbers(candidates: seq<ScoredCandidate>)
    ensures forall c :: c in Undominated(candidates, Beats) <==>
      c in candidates &&
      forall d :: d in candidates && Scorer.NoBetter(c.score, d.score) ==> Scorer.NoBetter(d.score, c.score)
  {
    BeatsIsStrictOrder();
    UndominatedExactly(candidates, Beats);
  }

  /** The square of the source's Euclidean distance, which orders plans the same way. */
  function Disruption(plan: CandidatePlan, current: CurrentState): real {
    var r := (plan.replicas - current.replicas) as real;
    var c := plan.cpuRequest - current.cpuRequest;
    var s := plan.spotRatio - current.spotRatio;
    r * r + c * c + s * s
  }

  /** The three differences count alike: each alone costs its square, together they add up. */
  lemma DisruptionAdds(plan: CandidatePlan, current: CurrentState)
    ensures var still := plan.(replicas := current.replicas, cpuRequest := current.cpuRequest,
                               spotRatio := current.spotRatio);
      var r, c, s := (plan.replicas - current.replicas) as real, plan.cpuRequest - current.cpuRequest,
                     plan.spotRatio - current.spotRatio;
      && Disruption(still, current) == 0.0
      && Disruption(still.(replicas := plan.replicas), current) == r * r
      && Disruption(still.(cpuRequest := plan.cpuRequest), current) == c * c
      && Disruption(still.(spotRatio := plan.spotRatio), current) == s * s
      && Disruption(plan, current) == r * r + c * c + s * s
  {
  }

  /** a is a strictly better choice than b: higher aggregate, or equal and less disruptive. */
  predicate Preferred(a: ScoredCandidate, b: ScoredCandidate, current: CurrentState) {
    a.score.weighted > b.score.weighted ||
    (a.score.weighted == b.score.weighted && Disruption(a.plan, current) < Disruption(b.plan, current))
  }

  /** The chosen index: nothing on the front is preferred to it, and it is the first such. */
  ghost predicate Chosen(front: seq<ScoredCandidate>, current: CurrentState, i: int) {
    && 0 <= i < |front|
    && (forall j :: 0 <= j < |front| ==> !Preferred(front[j], front[i], current))
    && (forall j :: 0 <= j < i ==> Preferred(front[i], front[j], current))
  }

  method SelectBest(front: seq<ScoredCandidate>, current: CurrentState) returns (best: ScoredCandidate)
    requires front != []
    ensures exists i :: Chosen(front, current, i) && front[i] == best
  {
    if |front| == 1 {
      assert Chosen(front, current, 0);
      return front[0];
    }
    best := front[0];
    var bestDist := Disruption(best.plan, current);
    ghost var at := 0;
    assert front[..1] == [front[0]];
    for i := 1 to |front|
      invariant 0 <= at < i && best == front[at] && bestDist == Disruption(best.plan, current)
      invariant Chosen(front[..i], current, at)
    {
      var c := front[i];
      ghost var was := at;
      if c.score.weighted > best.score.weighted {
        best, bestDist, at := c, Disruption(c.plan, current), i;
      } else if c.score.weighted == best.score.weighted {
        var d := Disruption(c.plan, current);
        if d < bestDist {
          best, bestDist, at := c, d, i;
        }
      }
      ExtendChoice(front, current, i, was, at);
    }
    assert front[..|front|] == front;
  }

  lemma ExtendChoice(front: seq<ScoredCandidate>, current: CurrentState, i: int, was: int, at: int)
    requires 0 < i < |front| && Chosen(front[..i], current, was)
    requires at == if Preferred(front[i], front[was], current) then i else was
    ensures Chosen(front[..i + 1], current, at)
  {
  }
}

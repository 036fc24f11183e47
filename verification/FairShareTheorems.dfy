/** What the allocator promises: weighted max-min fairness, conservation, and use of the
    whole cluster within ten rounds. Every lemma is about all inputs. */
module FairShareTheorems {
  import opened Sums
  import opened FairShare

  ghost predicate WeightsNonNegative(cs: seq<Claim>) {
    forall i :: 0 <= i < |cs| ==> cs[i].weight >= 0
  }

  /** Every nonzero cap is at least the guarantee. */
  ghost predicate CapsCover(cs: seq<Claim>) {
    forall i :: 0 <= i < |cs| ==> Covered(cs[i])
  }

  predicate Covered(c: Claim) {
    c.capped ==> c.guarantee <= c.cap
  }

  // ----- the water level -----

  /** All bursts are level * weight, except those held down by a cap, which are lower. */
  ghost predicate Leveled(cs: seq<Claim>, bs: seq<real>, level: real) {
    |bs| == |cs| && level >= 0.0 &&
    forall i :: 0 <= i < |cs| ==> LeveledAt(cs[i], bs[i], level)
  }

  ghost predicate LeveledAt(c: Claim, b: real, level: real) {
    && 0.0 <= b
    && (!c.burstable ==> b == 0.0)
    && (c.burstable ==> b <= Due(level, c.weight) && (b == Due(level, c.weight) || Settled(c, b)))
  }

  function Due(level: real, weight: int): real {
    level * weight as real
  }

  lemma PortionIsDue(amount: real, weight: int, totalWeight: int)
    requires totalWeight > 0
    ensures Portion(amount, weight, totalWeight) == Due(amount / totalWeight as real, weight)
  {
  }

  lemma DueRises(level: real, rise: real, weight: int)
    requires rise >= 0.0 && weight >= 0
    ensures Due(level + rise, weight) == Due(level, weight) + Due(rise, weight)
    ensures Due(rise, weight) >= 0.0
  {
  }

  lemma DueStep(level: real, weight: int)
    ensures Due(level, 0) == 0.0
    ensures Due(level, weight) == level + Due(level, weight - 1)
  {
    var w := weight as real;
    assert level * w == level + level * (w - 1.0);
  }

  lemma InitialLevel(cores: real, cs: seq<Claim>) returns (level: real)
    requires WeightsNonNegative(cs)
    ensures Leveled(cs, InitialBursts(cores, cs), level)
  {
    var w, remaining := SumInt(BurstWeights(cs)), Remaining(cores, cs);
    if w > 0 && remaining > 0.0 {
      level := remaining / w as real;
      forall i | 0 <= i < |cs|
        ensures LeveledAt(cs[i], InitialBursts(cores, cs)[i], level)
      {
        PortionIsDue(remaining, cs[i].weight, w);
        DueRises(0.0, level, cs[i].weight);
      }
    } else {
      level := 0.0;
    }
  }

  lemma TrimKeepsLevel(cs: seq<Claim>, bs: seq<real>, level: real)
    requires WeightsNonNegative(cs) && Leveled(cs, bs, level)
    ensures Leveled(cs, Trimmed(cs, bs), level)
  {
  }

  lemma HandRaisesLevel(cs: seq<Claim>, bs: seq<real>, level: real, reclaimed: real) returns (level': real)
    requires WeightsNonNegative(cs) && Leveled(cs, bs, level) && reclaimed >= 0.0
    ensures Leveled(cs, Handed(cs, bs, reclaimed), level')
  {
    var w := SumInt(OpenWeights(cs, bs));
    if w > 0 {
      var rise := reclaimed / w as real;
      level' := level + rise;
      forall i | 0 <= i < |cs|
        ensures LeveledAt(cs[i], Handed(cs, bs, reclaimed)[i], level')
      {
        assert LeveledAt(cs[i], bs[i], level);
        DueRises(level, rise, cs[i].weight);
        PortionIsDue(reclaimed, cs[i].weight, w);
      }
    } else {
      level' := level;
      assert Handed(cs, bs, reclaimed) == bs;
    }
  }

  lemma {:induction false} RoundsKeepLevel(cs: seq<Claim>, bs: seq<real>, level: real, rounds: nat)
    returns (level': real)
    requires WeightsNonNegative(cs) && Leveled(cs, bs, level)
    ensures Leveled(cs, Rounds(cs, bs, rounds), level')
    decreases rounds
  {
    level' := level;
    if rounds == 0 {
    } else {
      var reclaimed := Sum(Excesses(cs, bs));
      TrimKeepsLevel(cs, bs, level);
      if reclaimed >= TOLERANCE {
        var trimmed := Trimmed(cs, bs);
        var raised := HandRaisesLevel(cs, trimmed, level, reclaimed);
        level' := RoundsKeepLevel(cs, Handed(cs, trimmed, reclaimed), raised, rounds - 1);
      }
    }
  }

  /** The whole run keeps a water level, also through the final cap pass. */
  lemma WaterLevel(cores: real, cs: seq<Claim>, rounds: nat) returns (level: real)
    requires WeightsNonNegative(cs)
    ensures Leveled(cs, SettledBursts(cores, cs, rounds), level)
    ensures Leveled(cs, FinalBursts(cs, SettledBursts(cores, cs, rounds)), level)
  {
    var start := InitialLevel(cores, cs);
    level := RoundsKeepLevel(cs, InitialBursts(cores, cs), start, rounds);
    var bs := SettledBursts(cores, cs, rounds);
    forall i | 0 <= i < |cs|
      ensures LeveledAt(cs[i], FinalBursts(cs, bs)[i], level)
    {
      assert LeveledAt(cs[i], bs[i], level);
    }
  }

  // ----- conservation -----

  /** Capacity a cap pass invents: a tenant whose guarantee exceeds its cap is charged the
      difference although its burst cannot go below zero. */
  function Invented(c: Claim): real {
    if Covered(c) then 0.0 else c.guarantee - c.cap
  }

  function Inventions(cs: seq<Claim>): seq<real> {
    seq(|cs|, i requires 0 <= i < |cs| => Invented(cs[i]))
  }

  lemma TrimOne(c: Claim, b: real)
    requires b >= 0.0
    ensures Trim(c, b) + Excess(c, b) == b + Invented(c) && Invented(c) >= 0.0
  {
  }

  /** Exact accounting of one cap pass: bursts plus reclaimed cores grow by the invented
      amount, so a pass conserves capacity if and only if every cap covers its guarantee. */
  lemma TrimAccounting(cs: seq<Claim>, bs: seq<real>)
    requires |bs| == |cs| && forall i :: 0 <= i < |bs| ==> bs[i] >= 0.0
    ensures Sum(Trimmed(cs, bs)) + Sum(Excesses(cs, bs)) == Sum(bs) + Sum(Inventions(cs))
    ensures Sum(Trimmed(cs, bs)) + Sum(Excesses(cs, bs)) == Sum(bs) <==> CapsCover(cs)
  {
    TrimSums(cs, bs);
    NothingInvented(cs);
  }

  lemma TrimSums(cs: seq<Claim>, bs: seq<real>)
    requires |bs| == |cs| && forall i :: 0 <= i < |bs| ==> bs[i] >= 0.0
    ensures Sum(Trimmed(cs, bs)) + Sum(Excesses(cs, bs)) == Sum(bs) + Sum(Inventions(cs))
  {
    var both := seq(|cs|, i requires 0 <= i < |cs| => Trim(cs[i], bs[i]) + Excess(cs[i], bs[i]));
    forall i | 0 <= i < |cs|
      ensures both[i] == bs[i] + Inventions(cs)[i]
    {
      TrimOne(cs[i], bs[i]);
    }
    SumAdd(Trimmed(cs, bs), Excesses(cs, bs), both);
    SumAdd(bs, Inventions(cs), both);
  }

  lemma NothingInvented(cs: seq<Claim>)
    ensures Sum(Inventions(cs)) == 0.0 <==> CapsCover(cs)
  {
    var invented := Inventions(cs);
    assert forall i :: 0 <= i < |cs| ==> invented[i] == Invented(cs[i]) >= 0.0;
    SumNonNegative(invented);
    if Sum(invented) > 0.0 {
      var i := PositiveTerm(invented);
      assert !Covered(cs[i]);
    }
  }

  lemma SumHanded(cs: seq<Claim>, bs: seq<real>, reclaimed: real)
    requires |bs| == |cs|
    ensures Sum(Handed(cs, bs, reclaimed)) ==
            if SumInt(OpenWeights(cs, bs)) > 0 then Sum(bs) + reclaimed else Sum(bs)
  {
    var ws, hs := OpenWeights(cs, bs), Handed(cs, bs, reclaimed);
    var w := SumInt(ws);
    if w > 0 {
      var rise := RiseOf(reclaimed, w);
      var extras := seq(|cs|, i requires 0 <= i < |cs| => Due(rise, ws[i]));
      SumDue(ws, rise, extras);
      SumAdd(bs, extras, hs);
    } else {
      assert hs == bs;
    }
  }

  /** The rise in level that hands `amount` out over `totalWeight`. */
  lemma RiseOf(amount: real, totalWeight: int) returns (rise: real)
    requires totalWeight > 0
    ensures Due(rise, totalWeight) == amount && Due(rise, 0) == 0.0
    ensures forall weight :: Portion(amount, weight, totalWeight) == Due(rise, weight)
  {
    rise := amount / totalWeight as real;
    forall weight
      ensures Portion(amount, weight, totalWeight) == Due(rise, weight)
    {
      PortionIsDue(amount, weight, totalWeight);
    }
  }

  lemma {:induction false} SumDue(ws: seq<int>, level: real, dues: seq<real>)
    requires |dues| == |ws| && forall i :: 0 <= i < |ws| ==> dues[i] == Due(level, ws[i])
    ensures Sum(dues) == Due(level, SumInt(ws))
  {
    if ws == [] {
    } else {
      var n := |ws| - 1;
      SumDue(ws[..n], level, dues[..n]);
      var a, b := SumInt(ws[..n]), ws[n];
      assert level * (a + b) as real == level * a as real + level * b as real;
    }
  }

  lemma SumInitial(cores: real, cs: seq<Claim>)
    ensures Sum(InitialBursts(cores, cs)) == if SumInt(BurstWeights(cs)) > 0 then Remaining(cores, cs) else 0.0
  {
    var ws, bs := BurstWeights(cs), InitialBursts(cores, cs);
    var w, remaining := SumInt(ws), Remaining(cores, cs);
    var level := if w > 0 && remaining > 0.0 then remaining / w as real else 0.0;
    forall i | 0 <= i < |cs|
      ensures bs[i] == Due(level, ws[i])
    {
      if w > 0 && remaining > 0.0 {
        PortionIsDue(remaining, cs[i].weight, w);
      }
    }
    SumDue(ws, level, bs);
  }

  /** Who gets what is reclaimed: exactly the tenants that may burst and are not within 0.001
      cores of a cap, each by its weight among them. */
  lemma HandedExactly(cs: seq<Claim>, bs: seq<real>, reclaimed: real, i: nat)
    requires |bs| == |cs| && i < |cs| && WeightsNonNegative(cs)
    ensures var w, gain := SumInt(OpenWeights(cs, bs)), Handed(cs, bs, reclaimed)[i] - bs[i];
      var below := cs[i].burstable && (cs[i].capped ==> cs[i].guarantee + bs[i] < cs[i].cap - 0.001);
      && OpenWeights(cs, bs)[i] == (if below then cs[i].weight else 0)
      && (!below ==> gain == 0.0)
      && (below && w > 0 ==> gain == reclaimed * cs[i].weight as real / w as real)
  {
  }

  /** One full round never creates burst capacity, and loses none while someone is open. */
  lemma RoundConserves(cs: seq<Claim>, bs: seq<real>, level: real) returns (raised: real)
    requires WeightsNonNegative(cs) && CapsCover(cs) && Leveled(cs, bs, level)
    requires Sum(Excesses(cs, bs)) >= TOLERANCE
    ensures var next := Handed(cs, Trimmed(cs, bs), Sum(Excesses(cs, bs)));
      && Sum(next) <= Sum(bs) && Leveled(cs, next, raised)
      && (SumInt(OpenWeights(cs, Trimmed(cs, bs))) > 0 ==> Sum(next) == Sum(bs))
  {
    assert forall i :: 0 <= i < |cs| ==> LeveledAt(cs[i], bs[i], level);
    TrimAccounting(cs, bs);
    TrimKeepsLevel(cs, bs, level);
    SumHanded(cs, Trimmed(cs, bs), Sum(Excesses(cs, bs)));
    raised := HandRaisesLevel(cs, Trimmed(cs, bs), level, Sum(Excesses(cs, bs)));
  }

  /** Rounds never create burst capacity once caps cover guarantees. */
  lemma {:induction false} RoundsConserve(cs: seq<Claim>, bs: seq<real>, level: real, rounds: nat)
    requires WeightsNonNegative(cs) && CapsCover(cs) && Leveled(cs, bs, level)
    ensures Sum(Rounds(cs, bs, rounds)) <= Sum(bs)
    decreases rounds
  {
    if rounds == 0 {
    } else {
      if Sum(Excesses(cs, bs)) >= TOLERANCE {
        var raised := RoundConserves(cs, bs, level);
        RoundsConserve(cs, Handed(cs, Trimmed(cs, bs), Sum(Excesses(cs, bs))), raised, rounds - 1);
      } else {
        assert forall i :: 0 <= i < |cs| ==> LeveledAt(cs[i], bs[i], level);
        TrimAccounting(cs, bs);
        SumNonNegative(Excesses(cs, bs));
      }
    }
  }

  lemma BurstsFit(cores: real, cs: seq<Claim>, rounds: nat)
    requires WeightsNonNegative(cs) && CapsCover(cs)
    ensures 0.0 <= Sum(FinalBursts(cs, SettledBursts(cores, cs, rounds))) <= Remaining(cores, cs)
  {
    var bs := SettledBursts(cores, cs, rounds);
    var start := InitialLevel(cores, cs);
    RoundsConserve(cs, InitialBursts(cores, cs), start, rounds);
    SumInitial(cores, cs);
    var level := WaterLevel(cores, cs, rounds);
    var finals := FinalBursts(cs, bs);
    forall i | 0 <= i < |cs|
      ensures 0.0 <= finals[i] <= bs[i]
    {
      assert LeveledAt(cs[i], bs[i], level);
      assert Covered(cs[i]);
    }
    SumMonotone(finals, bs);
    SumNonNegative(finals);
  }

  // ----- convergence and use of the whole cluster -----

  ghost function CappedBurstable(cs: seq<Claim>): set<nat> {
    set i: nat | i < |cs| && cs[i].burstable && cs[i].capped
  }

  /** Members of `done` sit between cap - tolerance and cap, where no later round moves them. */
  ghost predicate Saturated(cs: seq<Claim>, bs: seq<real>, done: set<nat>) {
    |bs| == |cs| && done <= CappedBurstable(cs) &&
    forall i :: i in done ==> Settled(cs[i], bs[i]) && !OverCap(cs[i], bs[i])
  }

  ghost predicate SomeUncapped(cs: seq<Claim>) {
    exists j :: 0 <= j < |cs| && AlwaysOpen(cs[j])
  }

  predicate AlwaysOpen(c: Claim) {
    c.burstable && !c.capped && c.weight > 0
  }

  /** A round that reclaims capacity saturates one more tenant for good. */
  lemma RoundSaturatesOneMore(cs: seq<Claim>, bs: seq<real>, level: real, done: set<nat>) returns (more: nat)
    requires CapsCover(cs) && Leveled(cs, bs, level) && Saturated(cs, bs, done)
    requires Sum(Excesses(cs, bs)) >= TOLERANCE
    ensures more !in done
    ensures Saturated(cs, Handed(cs, Trimmed(cs, bs), Sum(Excesses(cs, bs))), done + {more})
  {
    more := PositiveTerm(Excesses(cs, bs));
    assert LeveledAt(cs[more], bs[more], level);
    assert Covered(cs[more]);
    var trimmed := Trimmed(cs, bs);
    forall i | i in done + {more}
      ensures Settled(cs[i], trimmed[i]) && !OverCap(cs[i], trimmed[i])
    {
    }
  }

  /** The uncapped tenant keeps a total weight positive. */
  lemma OpenWeightPositive(cs: seq<Claim>, bs: seq<real>)
    requires |bs| == |cs| && WeightsNonNegative(cs) && SomeUncapped(cs)
    ensures SumInt(OpenWeights(cs, bs)) > 0 && SumInt(BurstWeights(cs)) > 0
  {
    var j :| 0 <= j < |cs| && AlwaysOpen(cs[j]);
    SumIntNonNegative(OpenWeights(cs, bs));
    SumIntNonNegative(BurstWeights(cs));
    assert OpenWeights(cs, bs)[j] == BurstWeights(cs)[j] == cs[j].weight;
  }

  lemma AllSaturatedIsFinal(cs: seq<Claim>, bs: seq<real>, level: real, done: set<nat>)
    requires CapsCover(cs) && Leveled(cs, bs, level)
    requires Saturated(cs, bs, done) && |CappedBurstable(cs)| <= |done|
    ensures FinalBursts(cs, bs) == bs
  {
    assert CappedBurstable(cs) == done + (CappedBurstable(cs) - done);
    forall i | 0 <= i < |cs|
      ensures !OverCap(cs[i], bs[i])
    {
      assert Covered(cs[i]) && LeveledAt(cs[i], bs[i], level);
      assert cs[i].burstable && cs[i].capped ==> i in CappedBurstable(cs);
    }
  }

  lemma TrimmedIsFinal(cs: seq<Claim>, bs: seq<real>)
    requires |bs| == |cs| && CapsCover(cs)
    ensures FinalBursts(cs, Trimmed(cs, bs)) == Trimmed(cs, bs)
  {
  }

  /** A round that reclaims while somebody is open loses nothing and saturates one more. */
  lemma OpenRound(cs: seq<Claim>, bs: seq<real>, level: real, done: set<nat>)
    returns (next: seq<real>, raised: real, done': set<nat>)
    requires WeightsNonNegative(cs) && CapsCover(cs) && Leveled(cs, bs, level)
    requires Saturated(cs, bs, done) && Sum(Excesses(cs, bs)) >= TOLERANCE
    requires SumInt(OpenWeights(cs, Trimmed(cs, bs))) > 0
    ensures next == Handed(cs, Trimmed(cs, bs), Sum(Excesses(cs, bs)))
    ensures Sum(next) == Sum(bs) && Leveled(cs, next, raised)
    ensures Saturated(cs, next, done') && |done'| == |done| + 1
  {
    next := Handed(cs, Trimmed(cs, bs), Sum(Excesses(cs, bs)));
    var more := RoundSaturatesOneMore(cs, bs, level, done);
    raised := RoundConserves(cs, bs, level);
    done' := done + {more};
  }

  /** With as many rounds left as there are unsaturated capped tenants, everything is used. */
  lemma {:induction false} RoundsUseEverything(
      cs: seq<Claim>, bs: seq<real>, level: real, done: set<nat>, rounds: nat)
    requires WeightsNonNegative(cs) && CapsCover(cs) && Leveled(cs, bs, level)
    requires SomeUncapped(cs) && Saturated(cs, bs, done)
    requires |CappedBurstable(cs)| <= |done| + rounds
    ensures Sum(FinalBursts(cs, Rounds(cs, bs, rounds))) > Sum(bs) - TOLERANCE
    decreases rounds
  {
    if rounds == 0 {
      AllSaturatedIsFinal(cs, bs, level, done);
      return;
    }
    var trimmed, reclaimed := Trimmed(cs, bs), Sum(Excesses(cs, bs));
    assert forall i :: 0 <= i < |cs| ==> LeveledAt(cs[i], bs[i], level);
    TrimAccounting(cs, bs);
    if reclaimed < TOLERANCE {
      TrimmedIsFinal(cs, bs);
    } else {
      OpenWeightPositive(cs, trimmed);
      var next, raised, done' := OpenRound(cs, bs, level, done);
      RoundsUseEverything(cs, next, raised, done', rounds - 1);
    }
  }

  // ----- the same without an uncapped tenant -----

  /** Nobody who may burst is left below its cap. */
  ghost predicate AllSettled(cs: seq<Claim>, bs: seq<real>) {
    |bs| == |cs| && forall i :: 0 <= i < |cs| && cs[i].burstable && cs[i].weight > 0 ==> Settled(cs[i], bs[i])
  }

  lemma NobodyOpen(cs: seq<Claim>, bs: seq<real>)
    requires |bs| == |cs| && WeightsNonNegative(cs) && SumInt(OpenWeights(cs, bs)) <= 0
    ensures AllSettled(cs, bs)
  {
    var ws := OpenWeights(cs, bs);
    SumIntNonNegative(ws);
    forall i | 0 <= i < |cs| && cs[i].burstable && cs[i].weight > 0
      ensures Settled(cs[i], bs[i])
    {
      assert ws[i] <= 0;
    }
  }

  /** Once trimmed and with nobody open, the bursts stay as they are. */
  lemma TrimmedStays(cs: seq<Claim>, bs: seq<real>, reclaimed: real, rounds: nat)
    requires |bs| == |cs| && CapsCover(cs) && SumInt(OpenWeights(cs, Trimmed(cs, bs))) <= 0
    ensures var next := Handed(cs, Trimmed(cs, bs), reclaimed);
      next == Trimmed(cs, bs) && FinalBursts(cs, Rounds(cs, next, rounds)) == next
  {
    var trimmed := Trimmed(cs, bs);
    assert Handed(cs, trimmed, reclaimed) == trimmed;
    assert Trimmed(cs, trimmed) == trimmed;
    NothingExceeds(Excesses(cs, trimmed));
    TrimmedIsFinal(cs, bs);
  }

  lemma NobodyLeft(cs: seq<Claim>, bs: seq<real>, rounds: nat)
    requires |bs| == |cs| && WeightsNonNegative(cs) && CapsCover(cs) && rounds > 0
    requires Sum(Excesses(cs, bs)) >= TOLERANCE && SumInt(OpenWeights(cs, Trimmed(cs, bs))) <= 0
    ensures AllSettled(cs, FinalBursts(cs, Rounds(cs, bs, rounds)))
  {
    NobodyOpen(cs, Trimmed(cs, bs));
    TrimmedStays(cs, bs, Sum(Excesses(cs, bs)), rounds - 1);
  }

  lemma {:induction false} NothingExceeds(excesses: seq<real>)
    requires forall i :: 0 <= i < |excesses| ==> excesses[i] == 0.0
    ensures Sum(excesses) == 0.0
  {
    if excesses == [] {
    } else {
      NothingExceeds(excesses[..|excesses| - 1]);
    }
  }

  /** A round that reclaims less than the tolerance ends the run and loses no more than that. */
  lemma LastRound(cs: seq<Claim>, bs: seq<real>, level: real)
    requires WeightsNonNegative(cs) && CapsCover(cs) && Leveled(cs, bs, level) && Sum(Excesses(cs, bs)) < TOLERANCE
    ensures Sum(FinalBursts(cs, Trimmed(cs, bs))) > Sum(bs) - TOLERANCE
  {
    assert forall i :: 0 <= i < |cs| ==> LeveledAt(cs[i], bs[i], level);
    TrimAccounting(cs, bs);
    TrimmedIsFinal(cs, bs);
  }

  lemma SaturatedIsFinal(cs: seq<Claim>, bs: seq<real>, done: set<nat>)
    requires Saturated(cs, bs, done)
    ensures Saturated(cs, FinalBursts(cs, bs), done)
  {
  }

  /** Any number of rounds hands out everything, or leaves nobody below a cap, or has brought
      one tenant to its cap in every round. */
  lemma {:induction false} RoundsSpendOrSettle(
      cs: seq<Claim>, bs: seq<real>, level: real, done: set<nat>, rounds: nat) returns (full: set<nat>)
    requires WeightsNonNegative(cs) && CapsCover(cs) && Leveled(cs, bs, level) && Saturated(cs, bs, done)
    ensures var finals := FinalBursts(cs, Rounds(cs, bs, rounds));
      || Sum(finals) > Sum(bs) - TOLERANCE
      || AllSettled(cs, finals)
      || (Saturated(cs, finals, full) && |full| >= |done| + rounds)
    decreases rounds
  {
    full := done;
    var trimmed, reclaimed := Trimmed(cs, bs), Sum(Excesses(cs, bs));
    if rounds == 0 {
      SaturatedIsFinal(cs, bs, done);
    } else if reclaimed < TOLERANCE {
      LastRound(cs, bs, level);
    } else if SumInt(OpenWeights(cs, trimmed)) <= 0 {
      NobodyLeft(cs, bs, rounds);
    } else {
      var next, raised, done' := OpenRound(cs, bs, level, done);
      full := RoundsSpendOrSettle(cs, next, raised, done', rounds - 1);
    }
  }

  // ----- the promises, stated on the delivered shares -----

  ghost predicate ValidWeights(ts: seq<FairShareInput>) {
    forall i :: 0 <= i < |ts| ==> ts[i].weight >= 0
  }

  ghost predicate CapsCoverGuarantees(ts: seq<FairShareInput>) {
    forall i :: 0 <= i < |ts| && ts[i].maxBurstPercent > 0 ==> ts[i].guaranteedCoresPercent <= ts[i].maxBurstPercent
  }

  function GuaranteedPercents(ts: seq<FairShareInput>): seq<int> {
    seq(|ts|, i requires 0 <= i < |ts| => ts[i].guaranteedCoresPercent)
  }

  ghost predicate GuaranteesFit(ts: seq<FairShareInput>) {
    SumInt(GuaranteedPercents(ts)) <= 100
  }

  function Totals(shares: seq<ResourceShare>): seq<real> {
    seq(|shares|, i requires 0 <= i < |shares| => shares[i].totalCores)
  }

  /** A delivered share within the tolerance of its ceiling. */
  predicate NearCap(t: FairShareInput, s: ResourceShare) {
    t.maxBurstPercent > 0 && s.totalCores >= s.maxCores - TOLERANCE
  }

  /** Tenant a receives no more burst per unit of weight than tenant b. */
  predicate NoMorePerWeight(a: ResourceShare, wa: int, b: ResourceShare, wb: int) {
    a.burstCores * wb as real <= b.burstCores * wa as real
  }

  lemma PercentOrder(cores: real, p: int, q: int)
    requires cores > 0.0
    ensures p <= q <==> Percent(cores, p) <= Percent(cores, q)
  {
    if p <= q {
      assert cores * p as real <= cores * q as real;
    } else {
      assert cores * p as real > cores * q as real;
    }
  }

  lemma CapsCoverClaims(cores: real, ts: seq<FairShareInput>)
    requires cores > 0.0
    ensures CapsCover(Claims(cores, ts)) <==> CapsCoverGuarantees(ts)
  {
    forall i | 0 <= i < |ts|
      ensures Covered(Claims(cores, ts)[i]) <==>
              (ts[i].maxBurstPercent > 0 ==> ts[i].guaranteedCoresPercent <= ts[i].maxBurstPercent)
    {
      PercentOrder(cores, ts[i].guaranteedCoresPercent, ts[i].maxBurstPercent);
    }
  }

  lemma {:induction false} SumPercents(cores: real, ps: seq<int>, gs: seq<real>)
    requires |gs| == |ps| && forall i :: 0 <= i < |ps| ==> gs[i] == Percent(cores, ps[i])
    ensures Sum(gs) == Percent(cores, SumInt(ps))
  {
    if ps == [] {
    } else {
      var n := |ps| - 1;
      SumPercents(cores, ps[..n], gs[..n]);
      var a, b := SumInt(ps[..n]), ps[n];
      assert cores * (a + b) as real == cores * a as real + cores * b as real;
    }
  }

  lemma GuaranteesFitClaims(cores: real, ts: seq<FairShareInput>)
    requires cores > 0.0
    ensures GuaranteesFit(ts) <==> Sum(Guarantees(Claims(cores, ts))) <= cores
  {
    SumPercents(cores, GuaranteedPercents(ts), Guarantees(Claims(cores, ts)));
    PercentOrder(cores, SumInt(GuaranteedPercents(ts)), 100);
  }

  lemma SumTotals(cores: real, ts: seq<FairShareInput>, rounds: nat)
    requires cores > 0.0
    ensures var cs := Claims(cores, ts);
      Sum(Totals(FairShares(cores, ts, rounds))) ==
      Sum(Guarantees(cs)) + Sum(FinalBursts(cs, SettledBursts(cores, cs, rounds)))
  {
    var cs := Claims(cores, ts);
    SumAdd(Guarantees(cs), FinalBursts(cs, SettledBursts(cores, cs, rounds)), Totals(FairShares(cores, ts, rounds)));
  }

  lemma DueOrder(a: ResourceShare, wa: int, b: ResourceShare, wb: int, level: real)
    requires wa >= 0 && wb >= 0
    requires a.burstCores <= Due(level, wa) && b.burstCores == Due(level, wb)
    ensures NoMorePerWeight(a, wa, b, wb)
  {
    var x, y := wa as real, wb as real;
    assert b.burstCores * x == level * x * y;
    assert (level * x - a.burstCores) * y >= 0.0;
  }

  /** Weighted max-min fairness. No burstable tenant gets more per unit of weight than a
      burstable tenant that is below its cap (an uncapped one always is); so two tenants
      below their caps get exactly the same per unit of weight. */
  lemma WeightedMaxMinFairness(cores: real, ts: seq<FairShareInput>, rounds: nat, i: nat, j: nat)
    requires cores > 0.0 && ValidWeights(ts)
    requires i < |ts| && j < |ts| && ts[i].burstable && ts[j].burstable
    ensures var a, b := FairShares(cores, ts, rounds)[i], FairShares(cores, ts, rounds)[j];
      && (!NearCap(ts[j], b) ==> NoMorePerWeight(a, ts[i].weight, b, ts[j].weight))
      && (!NearCap(ts[i], a) ==> NoMorePerWeight(b, ts[j].weight, a, ts[i].weight))
  {
    var cs := Claims(cores, ts);
    var level := WaterLevel(cores, cs, rounds);
    var finals := FinalBursts(cs, SettledBursts(cores, cs, rounds));
    var a, b := FairShares(cores, ts, rounds)[i], FairShares(cores, ts, rounds)[j];
    assert LeveledAt(cs[i], finals[i], level) && LeveledAt(cs[j], finals[j], level);
    if !NearCap(ts[j], b) {
      DueOrder(a, ts[i].weight, b, ts[j].weight, level);
    }
    if !NearCap(ts[i], a) {
      DueOrder(b, ts[j].weight, a, ts[i].weight, level);
    }
  }

  /** Each tenant's bounds. A capped tenant stays at or below its ceiling exactly when the
      ceiling covers its guarantee; a guarantee above the ceiling is still paid in full. */
  lemma TenantBounds(cores: real, ts: seq<FairShareInput>, rounds: nat, i: nat)
    requires cores > 0.0 && ValidWeights(ts) && i < |ts|
    ensures var s, g := FairShares(cores, ts, rounds)[i], cores * ts[i].guaranteedCoresPercent as real / 100.0;
      && s.name == ts[i].name && s.guaranteedCores == g
      && s.maxCores == (if ts[i].maxBurstPercent > 0 then cores * ts[i].maxBurstPercent as real / 100.0 else cores)
      && s.totalCores == g + s.burstCores && s.burstCores >= 0.0
      && (!ts[i].burstable ==> s.totalCores == g)
      && (ts[i].maxBurstPercent > 0 ==>
            && (s.totalCores <= s.maxCores <==> ts[i].guaranteedCoresPercent <= ts[i].maxBurstPercent)
            && (s.totalCores > s.maxCores ==> s.totalCores == g))
  {
    var cs := Claims(cores, ts);
    var level := WaterLevel(cores, cs, rounds);
    assert LeveledAt(cs[i], SettledBursts(cores, cs, rounds)[i], level);
    PercentOrder(cores, ts[i].guaranteedCoresPercent, ts[i].maxBurstPercent);
  }

  /** Conservation. With caps that cover guarantees, the allocation fits the cluster if and
      only if the guarantees do. */
  lemma Conservation(cores: real, ts: seq<FairShareInput>, rounds: nat)
    requires cores > 0.0 && ValidWeights(ts) && CapsCoverGuarantees(ts)
    ensures Sum(Totals(FairShares(cores, ts, rounds))) <= cores <==> GuaranteesFit(ts)
  {
    CapsCoverClaims(cores, ts);
    BurstsFit(cores, Claims(cores, ts), rounds);
    SumTotals(cores, ts, rounds);
    GuaranteesFitClaims(cores, ts);
  }

  /** Under the same conditions every tenant, capped or not, respects its ceiling. */
  lemma CeilingsRespected(cores: real, ts: seq<FairShareInput>, rounds: nat, i: nat)
    requires cores > 0.0 && ValidWeights(ts) && CapsCoverGuarantees(ts) && GuaranteesFit(ts) && i < |ts|
    requires forall k :: 0 <= k < |ts| ==> ts[k].guaranteedCoresPercent >= 0
    ensures FairShares(cores, ts, rounds)[i].totalCores <= FairShares(cores, ts, rounds)[i].maxCores
  {
    TenantBounds(cores, ts, rounds, i);
    Conservation(cores, ts, rounds);
    var totals := Totals(FairShares(cores, ts, rounds));
    forall k | 0 <= k < |totals|
      ensures totals[k] >= 0.0
    {
      TenantBounds(cores, ts, rounds, k);
      PercentOrder(cores, 0, ts[k].guaranteedCoresPercent);
    }
    SumNonNegative(totals);
    assert totals[i] == FairShares(cores, ts, rounds)[i].totalCores;
  }

  /** Work conservation: with an uncapped tenant and no more capped burstable tenants than
      rounds (ten in the source), the rounds hand out the whole cluster, up to the tolerance. */
  lemma WorkConservation(cores: real, ts: seq<FairShareInput>, rounds: nat)
    requires cores > 0.0 && ValidWeights(ts) && CapsCoverGuarantees(ts) && GuaranteesFit(ts)
    requires SomeUncapped(Claims(cores, ts)) && |CappedBurstable(Claims(cores, ts))| <= rounds
    ensures cores - 0.001 < Sum(Totals(FairShares(cores, ts, rounds))) <= cores
  {
    var cs := Claims(cores, ts);
    CapsCoverClaims(cores, ts);
    Conservation(cores, ts, rounds);
    GuaranteesFitClaims(cores, ts);
    var start := InitialLevel(cores, cs);
    RoundsUseEverything(cs, InitialBursts(cores, cs), start, {}, rounds);
    OpenWeightPositive(cs, InitialBursts(cores, cs));
    SumInitial(cores, cs);
    SumTotals(cores, ts, rounds);
  }

  ghost predicate AllNearCap(ts: seq<FairShareInput>, shares: seq<ResourceShare>) {
    |shares| == |ts| && forall i :: 0 <= i < |ts| && ts[i].burstable && ts[i].weight > 0 ==> NearCap(ts[i], shares[i])
  }

  /** Tenants that were brought to their caps. */
  ghost predicate BroughtToCap(ts: seq<FairShareInput>, shares: seq<ResourceShare>, full: set<nat>) {
    |shares| == |ts| && forall i :: i in full ==> i < |ts| && ts[i].burstable && NearCap(ts[i], shares[i])
  }

  /** Work conservation for any tenants, capped or not and however many: the allocation hands
      out the cluster up to 0.001 cores, or every tenant that may burst is at its cap, or every
      one of the rounds has brought a tenant to its cap. */
  lemma SpentOrCapped(cores: real, ts: seq<FairShareInput>, rounds: nat) returns (full: set<nat>)
    requires cores > 0.0 && ValidWeights(ts) && CapsCoverGuarantees(ts) && GuaranteesFit(ts)
    ensures var shares := FairShares(cores, ts, rounds);
      || Sum(Totals(shares)) > cores - 0.001
      || AllNearCap(ts, shares)
      || (BroughtToCap(ts, shares, full) && full <= CappedBurstable(Claims(cores, ts)) && |full| >= rounds)
  {
    var cs := Claims(cores, ts);
    var bs := InitialBursts(cores, cs);
    CapsCoverClaims(cores, ts);
    GuaranteesFitClaims(cores, ts);
    var start := InitialLevel(cores, cs);
    full := RoundsSpendOrSettle(cs, bs, start, {}, rounds);
    SumInitial(cores, cs);
    SumTotals(cores, ts, rounds);
    SettledAreNearCap(cores, ts, rounds, full);
    if SumInt(BurstWeights(cs)) <= 0 {
      NobodyBursts(cores, ts, rounds);
    }
  }

  lemma SettledAreNearCap(cores: real, ts: seq<FairShareInput>, rounds: nat, full: set<nat>)
    requires cores > 0.0
    ensures var cs := Claims(cores, ts);
      var finals, shares := FinalBursts(cs, SettledBursts(cores, cs, rounds)), FairShares(cores, ts, rounds);
      && (AllSettled(cs, finals) ==> AllNearCap(ts, shares))
      && (Saturated(cs, finals, full) ==> BroughtToCap(ts, shares, full))
  {
    var cs := Claims(cores, ts);
    var finals, shares := FinalBursts(cs, SettledBursts(cores, cs, rounds)), FairShares(cores, ts, rounds);
    forall i | 0 <= i < |ts|
      ensures Settled(cs[i], finals[i]) ==> NearCap(ts[i], shares[i])
    {
      assert cs[i] == ClaimOf(cores, ts[i]);
    }
  }

  lemma NobodyBursts(cores: real, ts: seq<FairShareInput>, rounds: nat)
    requires cores > 0.0 && ValidWeights(ts) && SumInt(BurstWeights(Claims(cores, ts))) <= 0
    ensures AllNearCap(ts, FairShares(cores, ts, rounds))
  {
    var ws := BurstWeights(Claims(cores, ts));
    SumIntNonNegative(ws);
    assert forall i :: 0 <= i < |ts| ==> ws[i] == if ts[i].burstable then ts[i].weight else 0;
  }

  /** So with at most as many capped burstable tenants as rounds (ten in the source), whoever is
      capped, less than 0.001 cores stay unused unless every tenant that may burst is at its cap. */
  lemma NothingIdle(cores: real, ts: seq<FairShareInput>, rounds: nat)
    requires cores > 0.0 && ValidWeights(ts) && CapsCoverGuarantees(ts) && GuaranteesFit(ts)
    requires |CappedBurstable(Claims(cores, ts))| <= rounds
    ensures Sum(Totals(FairShares(cores, ts, rounds))) > cores - 0.001 || AllNearCap(ts, FairShares(cores, ts, rounds))
  {
    var cs, shares := Claims(cores, ts), FairShares(cores, ts, rounds);
    if SomeUncapped(cs) {
      WorkConservation(cores, ts, rounds);
    } else {
      var full := SpentOrCapped(cores, ts, rounds);
      if full <= CappedBurstable(cs) && |full| >= rounds {
        assert CappedBurstable(cs) == full + (CappedBurstable(cs) - full);
        forall i | 0 <= i < |ts| && ts[i].burstable && ts[i].weight > 0
          ensures i in CappedBurstable(cs) && i in full
        {
          assert !AlwaysOpen(cs[i]);
        }
      }
    }
  }

  // ----- what happens when a cap is below the guarantee -----

  ghost predicate OnlyIdleCaps(cs: seq<Claim>) {
    forall i :: 0 <= i < |cs| && cs[i].burstable ==> !cs[i].capped
  }

  /** Each of the rounds hands out the invented cores once more. */
  lemma {:induction false} RoundsInvent(cs: seq<Claim>, bs: seq<real>, level: real, rounds: nat)
    requires WeightsNonNegative(cs) && SomeUncapped(cs) && OnlyIdleCaps(cs) && Leveled(cs, bs, level)
    requires Sum(Inventions(cs)) >= TOLERANCE
    ensures Sum(FinalBursts(cs, Rounds(cs, bs, rounds))) == Sum(bs) + Due(Sum(Inventions(cs)), rounds)
    decreases rounds
  {
    var invented := Sum(Inventions(cs));
    IdleCapsPass(cs, bs, level);
    DueStep(invented, rounds);
    if rounds == 0 {
    } else {
      OpenWeightPositive(cs, bs);
      SumHanded(cs, bs, invented);
      var raised := HandRaisesLevel(cs, bs, level, invented);
      RoundsInvent(cs, Handed(cs, bs, invented), raised, rounds - 1);
    }
  }

  lemma IdleCapsPass(cs: seq<Claim>, bs: seq<real>, level: real)
    requires OnlyIdleCaps(cs) && Leveled(cs, bs, level)
    ensures Excesses(cs, bs) == Inventions(cs)
    ensures Trimmed(cs, bs) == bs && FinalBursts(cs, bs) == bs
  {
  }

  /** When only non-burstable tenants are capped, the delivered total is exact: guarantees,
      plus what they leave, plus the invented cores once per round. */
  lemma OvercommitTotal(cores: real, ts: seq<FairShareInput>, rounds: nat)
    requires cores > 0.0 && ValidWeights(ts)
    requires SomeUncapped(Claims(cores, ts)) && OnlyIdleCaps(Claims(cores, ts))
    ensures var cs := Claims(cores, ts);
      Sum(Totals(FairShares(cores, ts, rounds))) == Sum(Guarantees(cs)) + Remaining(cores, cs) + Overcommit(cs, rounds)
  {
    var cs := Claims(cores, ts);
    var bs := InitialBursts(cores, cs);
    var start := InitialLevel(cores, cs);
    SumTotals(cores, ts, rounds);
    OpenWeightPositive(cs, bs);
    SumInitial(cores, cs);
    IdleCapsPass(cs, bs, start);
    if Sum(Inventions(cs)) >= TOLERANCE {
      RoundsInvent(cs, bs, start, rounds);
    }
  }

  function Overcommit(cs: seq<Claim>, rounds: nat): real {
    if Sum(Inventions(cs)) >= TOLERANCE then Due(Sum(Inventions(cs)), rounds) else 0.0
  }

  /** So the allocation fits the cluster if and only if the guarantees do and the shortfall of
      caps against guarantees is below the tolerance. */
  lemma OvercommitExactly(cores: real, ts: seq<FairShareInput>, rounds: nat)
    requires cores > 0.0 && ValidWeights(ts) && rounds > 0
    requires SomeUncapped(Claims(cores, ts)) && OnlyIdleCaps(Claims(cores, ts))
    ensures Sum(Totals(FairShares(cores, ts, rounds))) <= cores <==>
      GuaranteesFit(ts) && Sum(Inventions(Claims(cores, ts))) < TOLERANCE
  {
    OvercommitTotal(cores, ts, rounds);
    GuaranteesFitClaims(cores, ts);
    if Sum(Inventions(Claims(cores, ts))) >= TOLERANCE {
      DueAtLeast(Sum(Inventions(Claims(cores, ts))), rounds);
    }
  }

  lemma {:induction false} DueAtLeast(level: real, weight: int)
    requires level >= 0.0 && weight >= 1
    ensures Due(level, weight) >= level
    decreases weight
  {
    DueStep(level, weight);
    if weight == 1 {
    } else {
      DueAtLeast(level, weight - 1);
    }
  }

  // ----- the same with caps on tenants that burst -----

  /** The burst that a cap pass takes away. */
  function Clip(c: Claim, burst: real): real {
    burst - Trim(c, burst)
  }

  function Clips(cs: seq<Claim>, bs: seq<real>): seq<real>
    requires |bs| == |cs|
  {
    seq(|cs|, i requires 0 <= i < |cs| => Clip(cs[i], bs[i]))
  }

  lemma ClipOne(c: Claim, b: real)
    requires b >= 0.0
    ensures 0.0 <= Clip(c, b) <= b && Excess(c, b) == Clip(c, b) + Invented(c) && FinalBurst(c, b) == Trim(c, b)
  {
  }

  /** A cap pass reclaims what it clips and what it invents. */
  lemma ClipAccounting(cs: seq<Claim>, bs: seq<real>, level: real)
    requires Leveled(cs, bs, level)
    ensures Sum(Trimmed(cs, bs)) == Sum(bs) - Sum(Clips(cs, bs)) && Sum(Clips(cs, bs)) >= 0.0
    ensures Sum(Excesses(cs, bs)) == Sum(Clips(cs, bs)) + Sum(Inventions(cs))
    ensures FinalBursts(cs, bs) == Trimmed(cs, bs)
  {
    forall i | 0 <= i < |cs|
      ensures 0.0 <= Clips(cs, bs)[i] && Excesses(cs, bs)[i] == Clips(cs, bs)[i] + Inventions(cs)[i]
      ensures FinalBurst(cs[i], bs[i]) == Trim(cs[i], bs[i])
    {
      assert LeveledAt(cs[i], bs[i], level);
      ClipOne(cs[i], bs[i]);
    }
    SumAdd(Trimmed(cs, bs), Clips(cs, bs), bs);
    SumAdd(Clips(cs, bs), Inventions(cs), Excesses(cs, bs));
    SumNonNegative(Clips(cs, bs));
  }

  function NextBursts(cs: seq<Claim>, bs: seq<real>): (next: seq<real>)
    requires |bs| == |cs|
    ensures |next| == |cs|
  {
    Handed(cs, Trimmed(cs, bs), Sum(Excesses(cs, bs)))
  }

  /** While something is invented every round hands it out on top of the bursts, and clips
      less than it handed out, because an uncapped tenant keeps its part. */
  lemma InventingRound(cs: seq<Claim>, bs: seq<real>, level: real) returns (raised: real)
    requires WeightsNonNegative(cs) && SomeUncapped(cs) && Leveled(cs, bs, level)
    requires Sum(Inventions(cs)) >= TOLERANCE
    ensures Leveled(cs, NextBursts(cs, bs), raised) && Sum(Excesses(cs, bs)) >= TOLERANCE
    ensures Sum(NextBursts(cs, bs)) == Sum(bs) + Sum(Inventions(cs))
    ensures Sum(Clips(cs, NextBursts(cs, bs))) < Sum(Clips(cs, bs)) + Sum(Inventions(cs))
  {
    var trimmed, reclaimed, next := Trimmed(cs, bs), Sum(Excesses(cs, bs)), NextBursts(cs, bs);
    ClipAccounting(cs, bs, level);
    TrimKeepsLevel(cs, bs, level);
    raised := HandRaisesLevel(cs, trimmed, level, reclaimed);
    OpenWeightPositive(cs, trimmed);
    SumHanded(cs, trimmed, reclaimed);
    ClipsBelowHanded(cs, trimmed, bs, level, reclaimed);
  }

  lemma ClipsBelowHanded(cs: seq<Claim>, trimmed: seq<real>, bs: seq<real>, level: real, reclaimed: real)
    requires WeightsNonNegative(cs) && SomeUncapped(cs) && Leveled(cs, bs, level)
    requires trimmed == Trimmed(cs, bs) && reclaimed >= TOLERANCE
    ensures Sum(Clips(cs, Handed(cs, trimmed, reclaimed))) < Sum(Handed(cs, trimmed, reclaimed)) - Sum(trimmed)
  {
    var next := Handed(cs, trimmed, reclaimed);
    var gains := seq(|cs|, i requires 0 <= i < |cs| => next[i] - trimmed[i]);
    SumAdd(trimmed, gains, next);
    OpenWeightPositive(cs, trimmed);
    var w := SumInt(OpenWeights(cs, trimmed));
    forall i | 0 <= i < |cs|
      ensures Clips(cs, next)[i] <= gains[i] && (AlwaysOpen(cs[i]) ==> Clips(cs, next)[i] < gains[i])
    {
      assert LeveledAt(cs[i], bs[i], level);
      PortionSign(reclaimed, cs[i].weight, w);
    }
    var j :| 0 <= j < |cs| && AlwaysOpen(cs[j]);
    SumStrict(Clips(cs, next), gains, j);
  }

  lemma PortionSign(amount: real, weight: int, totalWeight: int)
    requires amount > 0.0 && weight >= 0 && totalWeight > 0
    ensures Portion(amount, weight, totalWeight) >= 0.0
    ensures weight > 0 ==> Portion(amount, weight, totalWeight) > 0.0
  {
    assert amount * weight as real >= 0.0;
    if weight > 0 {
      assert amount * weight as real > 0.0;
    }
  }

  /** The rounds and the final pass leave at least what the first pass would have left, and
      more after a round. */
  lemma {:induction false} RoundsOutrunClips(cs: seq<Claim>, bs: seq<real>, level: real, rounds: nat)
    requires WeightsNonNegative(cs) && SomeUncapped(cs) && Leveled(cs, bs, level)
    requires Sum(Inventions(cs)) >= TOLERANCE
    ensures Sum(FinalBursts(cs, Rounds(cs, bs, rounds))) >= Sum(bs) - Sum(Clips(cs, bs))
    ensures rounds > 0 ==> Sum(FinalBursts(cs, Rounds(cs, bs, rounds))) > Sum(bs) - Sum(Clips(cs, bs))
    decreases rounds
  {
    if rounds == 0 {
      ClipAccounting(cs, bs, level);
    } else {
      var raised := InventingRound(cs, bs, level);
      RoundsOutrunClips(cs, NextBursts(cs, bs), raised, rounds - 1);
    }
  }

  /** Members of `held` sit at their caps, where no later round moves or clips them. */
  ghost predicate Held(cs: seq<Claim>, bs: seq<real>, held: set<nat>) {
    |bs| == |cs| && held <= CappedBurstable(cs) &&
    forall i :: i in held ==> Settled(cs[i], bs[i]) && Clip(cs[i], bs[i]) == 0.0
  }

  lemma ClippingHoldsOneMore(cs: seq<Claim>, bs: seq<real>, level: real, held: set<nat>) returns (more: nat)
    requires Leveled(cs, bs, level) && Held(cs, bs, held) && Sum(Clips(cs, bs)) > 0.0
    ensures more !in held && Held(cs, NextBursts(cs, bs), held + {more})
  {
    more := PositiveTerm(Clips(cs, bs));
    assert LeveledAt(cs[more], bs[more], level);
    ClipOne(cs[more], bs[more]);
    var trimmed := Trimmed(cs, bs);
    forall i | i in held + {more}
      ensures Settled(cs[i], trimmed[i]) && Clip(cs[i], trimmed[i]) == 0.0
    {
      assert LeveledAt(cs[i], bs[i], level);
    }
  }

  /** Until a round clips nothing each one holds one more capped tenant, so with fewer capped
      burstable tenants than rounds some round clips nothing, and from there the invented
      cores stay handed out. */
  lemma {:induction false} RoundsOvershoot(cs: seq<Claim>, bs: seq<real>, level: real, held: set<nat>, rounds: nat)
    requires WeightsNonNegative(cs) && SomeUncapped(cs) && Leveled(cs, bs, level) && Held(cs, bs, held)
    requires Sum(Inventions(cs)) >= TOLERANCE && |CappedBurstable(cs)| < |held| + rounds
    ensures Sum(FinalBursts(cs, Rounds(cs, bs, rounds))) > Sum(bs)
    decreases rounds
  {
    HeldAreFew(cs, bs, held);
    if Sum(Clips(cs, bs)) <= 0.0 {
      RoundsOutrunClips(cs, bs, level, rounds);
    } else {
      var raised, held' := ClippingRound(cs, bs, level, held);
      RoundsOvershoot(cs, NextBursts(cs, bs), raised, held', rounds - 1);
    }
  }

  lemma HeldAreFew(cs: seq<Claim>, bs: seq<real>, held: set<nat>)
    requires Held(cs, bs, held)
    ensures |held| <= |CappedBurstable(cs)|
  {
    assert CappedBurstable(cs) == held + (CappedBurstable(cs) - held);
  }

  lemma ClippingRound(cs: seq<Claim>, bs: seq<real>, level: real, held: set<nat>)
    returns (raised: real, held': set<nat>)
    requires WeightsNonNegative(cs) && SomeUncapped(cs) && Leveled(cs, bs, level) && Held(cs, bs, held)
    requires Sum(Inventions(cs)) >= TOLERANCE && Sum(Clips(cs, bs)) > 0.0
    ensures Leveled(cs, NextBursts(cs, bs), raised) && Held(cs, NextBursts(cs, bs), held') && |held'| == |held| + 1
    ensures Sum(Excesses(cs, bs)) >= TOLERANCE && Sum(NextBursts(cs, bs)) > Sum(bs)
  {
    var more := ClippingHoldsOneMore(cs, bs, level, held);
    raised := InventingRound(cs, bs, level);
    held' := held + {more};
  }

  /** Caps below guarantees overcommit whoever is capped: with an uncapped burstable tenant,
      fewer capped burstable tenants than rounds, and a shortfall of at least the tolerance,
      the totals exceed the cluster. */
  lemma InventionOvercommits(cores: real, ts: seq<FairShareInput>, rounds: nat)
    requires cores > 0.0 && ValidWeights(ts) && SomeUncapped(Claims(cores, ts))
    requires |CappedBurstable(Claims(cores, ts))| < rounds
    requires Sum(Inventions(Claims(cores, ts))) >= TOLERANCE
    ensures Sum(Totals(FairShares(cores, ts, rounds))) > cores
  {
    var cs := Claims(cores, ts);
    var bs := InitialBursts(cores, cs);
    var start := InitialLevel(cores, cs);
    RoundsOvershoot(cs, bs, start, {}, rounds);
    OpenWeightPositive(cs, bs);
    SumInitial(cores, cs);
    SumTotals(cores, ts, rounds);
  }

  /** Two tenants, 100 cores: one guaranteed 50 under a ceiling of 40, one that bursts.
      The allocator hands out 200 cores. */
  lemma GuaranteeAboveCapOvercommits()
    ensures var ts := [FairShareInput("a", 1, 50, false, 40), FairShareInput("b", 1, 0, true, 0)];
      GuaranteesFit(ts) && Sum(Totals(FairShares(100.0, ts, MAX_ROUNDS))) == 200.0
  {
    var ts := [FairShareInput("a", 1, 50, false, 40), FairShareInput("b", 1, 0, true, 0)];
    var cs := Claims(100.0, ts);
    assert AlwaysOpen(cs[1]);
    assert Inventions(cs) == [10.0] + [0.0];
    assert Guarantees(cs) == [50.0] + [0.0];
    assert GuaranteedPercents(ts) == [50] + [0];
    OvercommitTotal(100.0, ts, MAX_ROUNDS);
  }
}

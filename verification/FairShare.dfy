/** The three-phase tenant allocator of internal/tenant/fairshare.go.

    Each tenant's burst is a real number; a round trims the bursts to the caps and hands
    what was trimmed to the tenants still open. The functions give one round and the whole
    run as values, and `ComputeFairShares` is the in-place loop proved equal to them. */
module FairShare {
  import opened Sums

  datatype FairShareInput = FairShareInput(
    name: string,
    weight: int,
    guaranteedCoresPercent: int,
    burstable: bool,
    maxBurstPercent: int)  // 0 or less: no cap

  datatype ResourceShare = ResourceShare(
    name: string,
    guaranteedCores: real,
    burstCores: real,
    maxCores: real,
    totalCores: real)

  const TOLERANCE := 0.001
  const MAX_ROUNDS := 10

  /** What a tenant may claim of the cluster, with its percentages turned into cores. */
  datatype Claim = Claim(guarantee: real, capped: bool, cap: real, burstable: bool, weight: int)

  function ClaimOf(cores: real, t: FairShareInput): Claim {
    Claim(Percent(cores, t.guaranteedCoresPercent),
          t.maxBurstPercent > 0, Percent(cores, t.maxBurstPercent), t.burstable, t.weight)
  }

  function Claims(cores: real, ts: seq<FairShareInput>): (r: seq<Claim>)
    ensures |r| == |ts|
  {
    seq(|ts|, i requires 0 <= i < |ts| => ClaimOf(cores, ts[i]))
  }

  function Percent(cores: real, percent: int): real {
    cores * percent as real / 100.0
  }

  // ----- one tenant -----

  predicate OverCap(c: Claim, burst: real) {
    c.capped && c.guarantee + burst > c.cap
  }

  function Excess(c: Claim, burst: real): real {
    if OverCap(c, burst) then c.guarantee + burst - c.cap else 0.0
  }

  function AtLeastZero(x: real): real {
    if x < 0.0 then 0.0 else x
  }

  function Trim(c: Claim, burst: real): real {
    if OverCap(c, burst) then AtLeastZero(burst - Excess(c, burst)) else burst
  }

  /** At its cap, up to the tolerance: it takes no part in redistribution. */
  predicate Settled(c: Claim, burst: real) {
    c.capped && c.guarantee + burst >= c.cap - TOLERANCE
  }

  predicate Open(c: Claim, burst: real) {
    c.burstable && !Settled(c, burst)
  }

  /** The part of `amount` that `weight` out of `totalWeight` earns. */
  function Portion(amount: real, weight: int, totalWeight: int): real
    requires totalWeight > 0
  {
    amount * weight as real / totalWeight as real
  }

  // ----- one round over all tenants -----

  function Trimmed(cs: seq<Claim>, bs: seq<real>): seq<real>
    requires |bs| == |cs|
  {
    seq(|cs|, i requires 0 <= i < |cs| => Trim(cs[i], bs[i]))
  }

  function Excesses(cs: seq<Claim>, bs: seq<real>): seq<real>
    requires |bs| == |cs|
  {
    seq(|cs|, i requires 0 <= i < |cs| => Excess(cs[i], bs[i]))
  }

  function OpenWeights(cs: seq<Claim>, bs: seq<real>): seq<int>
    requires |bs| == |cs|
  {
    seq(|cs|, i requires 0 <= i < |cs| => if Open(cs[i], bs[i]) then cs[i].weight else 0)
  }

  function Handed(cs: seq<Claim>, bs: seq<real>, reclaimed: real): seq<real>
    requires |bs| == |cs|
  {
    var w := SumInt(OpenWeights(cs, bs));
    seq(|cs|, i requires 0 <= i < |cs| =>
      if w > 0 && Open(cs[i], bs[i]) then bs[i] + Portion(reclaimed, cs[i].weight, w) else bs[i])
  }

  /** At most `rounds` rounds, stopping early once less than the tolerance is reclaimed. */
  function Rounds(cs: seq<Claim>, bs: seq<real>, rounds: nat): (r: seq<real>)
    requires |bs| == |cs|
    ensures |r| == |cs|
    decreases rounds
  {
    if rounds == 0 then bs
    else
      var trimmed := Trimmed(cs, bs);
      var reclaimed := Sum(Excesses(cs, bs));
      if reclaimed < TOLERANCE then trimmed
      else Rounds(cs, Handed(cs, trimmed, reclaimed), rounds - 1)
  }

  // ----- the whole allocation -----

  function Guarantees(cs: seq<Claim>): seq<real> {
    seq(|cs|, i requires 0 <= i < |cs| => cs[i].guarantee)
  }

  function Remaining(cores: real, cs: seq<Claim>): real {
    AtLeastZero(cores - Sum(Guarantees(cs)))
  }

  function BurstWeights(cs: seq<Claim>): seq<int> {
    seq(|cs|, i requires 0 <= i < |cs| => if cs[i].burstable then cs[i].weight else 0)
  }

  function InitialBursts(cores: real, cs: seq<Claim>): seq<real> {
    var w := SumInt(BurstWeights(cs));
    var remaining := Remaining(cores, cs);
    seq(|cs|, i requires 0 <= i < |cs| =>
      if w > 0 && remaining > 0.0 && cs[i].burstable then Portion(remaining, cs[i].weight, w) else 0.0)
  }

  /** The bursts after at most `rounds` rounds; the source allows ten. */
  function SettledBursts(cores: real, cs: seq<Claim>, rounds: nat): (r: seq<real>)
    ensures |r| == |cs|
  {
    Rounds(cs, InitialBursts(cores, cs), rounds)
  }

  function FinalBurst(c: Claim, burst: real): real {
    if OverCap(c, burst) then AtLeastZero(c.cap - c.guarantee) else burst
  }

  function FinalBursts(cs: seq<Claim>, bs: seq<real>): seq<real>
    requires |bs| == |cs|
  {
    seq(|cs|, i requires 0 <= i < |cs| => FinalBurst(cs[i], bs[i]))
  }

  function FinalShare(cores: real, t: FairShareInput, burst: real): ResourceShare {
    var c := ClaimOf(cores, t);
    var b := FinalBurst(c, burst);
    ResourceShare(t.name, c.guarantee, b, if c.capped then c.cap else cores, c.guarantee + b)
  }

  function FairShares(cores: real, ts: seq<FairShareInput>, rounds: nat): (r: seq<ResourceShare>)
    ensures |r| == if cores <= 0.0 then 0 else |ts|
  {
    if |ts| == 0 || cores <= 0.0 then []
    else
      var bs := SettledBursts(cores, Claims(cores, ts), rounds);
      seq(|ts|, i requires 0 <= i < |ts| => FinalShare(cores, ts[i], bs[i]))
  }

  // ----- the in-place algorithm -----

  /** A share while the phases run: caps and totals are filled in by the last pass. */
  function Staged(cores: real, t: FairShareInput, burst: real): ResourceShare {
    ResourceShare(t.name, Percent(cores, t.guaranteedCoresPercent), burst, 0.0, 0.0)
  }

  ghost predicate Holds(cores: real, ts: seq<FairShareInput>, shares: seq<ResourceShare>, bs: seq<real>) {
    |shares| == |ts| == |bs| &&
    forall k :: 0 <= k < |ts| ==> shares[k] == Staged(cores, ts[k], bs[k])
  }

  method ComputeFairShares(clusterCores: real, inputs: seq<FairShareInput>) returns (shares: array<ResourceShare>)
    ensures fresh(shares)
    ensures shares[..] == FairShares(clusterCores, inputs, 10)
  {
    if |inputs| == 0 || clusterCores <= 0.0 {
      shares := new ResourceShare[0];
      return;
    }
    var remaining;
    shares, remaining := GuaranteePhase(clusterCores, inputs);
    BurstPhase(clusterCores, inputs, shares, remaining);

    ghost var cs := Claims(clusterCores, inputs);
    ghost var bs := InitialBursts(clusterCores, cs);
    var round := 0;
    while round < MAX_ROUNDS
      invariant 0 <= round <= MAX_ROUNDS
      invariant fresh(shares)
      invariant Holds(clusterCores, inputs, shares[..], bs)
      invariant Rounds(cs, bs, MAX_ROUNDS - round) == SettledBursts(clusterCores, cs, MAX_ROUNDS)
    {
      var reclaimed, anyReclaimed := TrimToCaps(clusterCores, inputs, shares, bs);
      if !anyReclaimed || reclaimed < TOLERANCE {
        bs := Trimmed(cs, bs);
        break;
      }
      bs := Trimmed(cs, bs);
      Redistribute(clusterCores, inputs, shares, bs, reclaimed);
      bs := Handed(cs, bs, reclaimed);
      round := round + 1;
    }
    assert bs == SettledBursts(clusterCores, cs, MAX_ROUNDS);
    FinalPass(clusterCores, inputs, shares, bs);
  }

  method GuaranteePhase(cores: real, inputs: seq<FairShareInput>)
    returns (shares: array<ResourceShare>, remaining: real)
    ensures fresh(shares)
    ensures Holds(cores, inputs, shares[..], seq(|inputs|, i => 0.0))
    ensures remaining == Remaining(cores, Claims(cores, inputs))
  {
    shares := new ResourceShare[|inputs|](_ => ResourceShare("", 0.0, 0.0, 0.0, 0.0));
    ghost var gs := Guarantees(Claims(cores, inputs));
    var total := 0.0;
    for i := 0 to |inputs|
      invariant total == Sum(gs[..i])
      invariant forall k :: 0 <= k < i ==> shares[k] == Staged(cores, inputs[k], 0.0)
    {
      var g := Percent(cores, inputs[i].guaranteedCoresPercent);
      shares[i] := ResourceShare(inputs[i].name, g, 0.0, 0.0, 0.0);
      total := total + g;
      SumStep(gs, i);
    }
    assert gs[..|inputs|] == gs;
    remaining := cores - total;
    if remaining < 0.0 {
      remaining := 0.0;
    }
  }

  method TotalBurstWeight(cores: real, inputs: seq<FairShareInput>) returns (totalWeight: int)
    ensures totalWeight == SumInt(BurstWeights(Claims(cores, inputs)))
  {
    ghost var ws := BurstWeights(Claims(cores, inputs));
    totalWeight := 0;
    for i := 0 to |inputs|
      invariant totalWeight == SumInt(ws[..i])
    {
      if inputs[i].burstable {
        totalWeight := totalWeight + inputs[i].weight;
      }
      SumIntStep(ws, i);
    }
    assert ws[..|inputs|] == ws;
  }

  method BurstPhase(cores: real, inputs: seq<FairShareInput>, shares: array<ResourceShare>, remaining: real)
    requires Holds(cores, inputs, shares[..], seq(|inputs|, i => 0.0))
    requires remaining == Remaining(cores, Claims(cores, inputs))
    modifies shares
    ensures Holds(cores, inputs, shares[..], InitialBursts(cores, Claims(cores, inputs)))
  {
    assert forall k :: 0 <= k < |inputs| ==> shares[..][k] == shares[k];
    var totalWeight := TotalBurstWeight(cores, inputs);
    if totalWeight > 0 && remaining > 0.0 {
      ghost var bs := InitialBursts(cores, Claims(cores, inputs));
      for i := 0 to |inputs|
        invariant forall k :: 0 <= k < i ==> shares[k] == Staged(cores, inputs[k], bs[k])
        invariant forall k :: i <= k < |inputs| ==> shares[k] == Staged(cores, inputs[k], 0.0)
      {
        if inputs[i].burstable {
          var burst := Portion(remaining, inputs[i].weight, totalWeight);
          shares[i] := shares[i].(burstCores := burst);
        }
      }
    }
  }

  /** First half of a round: trims every share in place and adds up what was reclaimed. */
  method TrimToCaps(cores: real, inputs: seq<FairShareInput>, shares: array<ResourceShare>, ghost bs: seq<real>)
    returns (reclaimed: real, anyReclaimed: bool)
    requires Holds(cores, inputs, shares[..], bs)
    modifies shares
    ensures Holds(cores, inputs, shares[..], Trimmed(Claims(cores, inputs), bs))
    ensures reclaimed == Sum(Excesses(Claims(cores, inputs), bs))
    ensures !anyReclaimed ==> reclaimed == 0.0
  {
    assert forall k :: 0 <= k < |inputs| ==> shares[..][k] == shares[k];
    ghost var es := Excesses(Claims(cores, inputs), bs);
    reclaimed, anyReclaimed := 0.0, false;
    for i := 0 to |inputs|
      invariant reclaimed == Sum(es[..i])
      invariant !anyReclaimed ==> reclaimed == 0.0
      invariant forall k :: 0 <= k < i ==> shares[k] == Staged(cores, inputs[k], Trim(ClaimOf(cores, inputs[k]), bs[k]))
      invariant forall k :: i <= k < |inputs| ==> shares[k] == Staged(cores, inputs[k], bs[k])
    {
      var total := shares[i].guaranteedCores + shares[i].burstCores;
      if inputs[i].maxBurstPercent > 0 {
        var cap := Percent(cores, inputs[i].maxBurstPercent);
        if total > cap {
          var excess := total - cap;
          shares[i] := shares[i].(burstCores := shares[i].burstCores - excess);
          if shares[i].burstCores < 0.0 {
            shares[i] := shares[i].(burstCores := 0.0);
          }
          reclaimed := reclaimed + excess;
          anyReclaimed := true;
        }
      }
      SumStep(es, i);
    }
    assert es[..|inputs|] == es;
  }

  method UncappedWeight(cores: real, inputs: seq<FairShareInput>, shares: array<ResourceShare>, ghost bs: seq<real>)
    returns (uncappedWeight: int)
    requires Holds(cores, inputs, shares[..], bs)
    ensures uncappedWeight == SumInt(OpenWeights(Claims(cores, inputs), bs))
  {
    ghost var ws := OpenWeights(Claims(cores, inputs), bs);
    uncappedWeight := 0;
    for i := 0 to |inputs|
      invariant uncappedWeight == SumInt(ws[..i])
    {
      SumIntStep(ws, i);
      assert shares[..][i] == shares[i];
      if !inputs[i].burstable {
        continue;
      }
      var total := shares[i].guaranteedCores + shares[i].burstCores;
      if inputs[i].maxBurstPercent > 0 && total >= Percent(cores, inputs[i].maxBurstPercent) - TOLERANCE {
        continue;
      }
      uncappedWeight := uncappedWeight + inputs[i].weight;
    }
    assert ws[..|inputs|] == ws;
  }

  /** Second half of a round: hands the reclaimed cores to the open tenants by weight. */
  method Redistribute(cores: real, inputs: seq<FairShareInput>, shares: array<ResourceShare>,
                      ghost bs: seq<real>, reclaimed: real)
    requires Holds(cores, inputs, shares[..], bs)
    modifies shares
    ensures Holds(cores, inputs, shares[..], Handed(Claims(cores, inputs), bs, reclaimed))
  {
    assert forall k :: 0 <= k < |inputs| ==> shares[..][k] == shares[k];
    var uncappedWeight := UncappedWeight(cores, inputs, shares, bs);
    if uncappedWeight > 0 {
      ghost var hs := Handed(Claims(cores, inputs), bs, reclaimed);
      for i := 0 to |inputs|
        invariant forall k :: 0 <= k < i ==> shares[k] == Staged(cores, inputs[k], hs[k])
        invariant forall k :: i <= k < |inputs| ==> shares[k] == Staged(cores, inputs[k], bs[k])
      {
        if !inputs[i].burstable {
          continue;
        }
        var total := shares[i].guaranteedCores + shares[i].burstCores;
        if inputs[i].maxBurstPercent > 0 && total >= Percent(cores, inputs[i].maxBurstPercent) - TOLERANCE {
          continue;
        }
        var extra := Portion(reclaimed, inputs[i].weight, uncappedWeight);
        shares[i] := shares[i].(burstCores := shares[i].burstCores + extra);
      }
    }
  }

  method FinalPass(cores: real, inputs: seq<FairShareInput>, shares: array<ResourceShare>, ghost bs: seq<real>)
    requires Holds(cores, inputs, shares[..], bs)
    modifies shares
    ensures |shares[..]| == |inputs|
    ensures forall k :: 0 <= k < |inputs| ==> shares[k] == FinalShare(cores, inputs[k], bs[k])
  {
    assert forall k :: 0 <= k < |inputs| ==> shares[..][k] == shares[k];
    for i := 0 to |inputs|
      invariant forall k :: 0 <= k < i ==> shares[k] == FinalShare(cores, inputs[k], bs[k])
      invariant forall k :: i <= k < |inputs| ==> shares[k] == Staged(cores, inputs[k], bs[k])
    {
      var total := shares[i].guaranteedCores + shares[i].burstCores;
      if inputs[i].maxBurstPercent > 0 {
        var cap := Percent(cores, inputs[i].maxBurstPercent);
        if total > cap {
          shares[i] := shares[i].(burstCores := cap - shares[i].guaranteedCores);
          if shares[i].burstCores < 0.0 {
            shares[i] := shares[i].(burstCores := 0.0);
          }
          total := shares[i].guaranteedCores + shares[i].burstCores;
        }
        shares[i] := shares[i].(maxCores := cap);
      } else {
        shares[i] := shares[i].(maxCores := cores);
      }
      shares[i] := shares[i].(totalCores := total);
    }
  }
}

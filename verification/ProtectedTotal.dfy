/** What all attributed commands of one attempt protect together, against the amount of the payment. */
module ProtectedTotal {
  import opened Common
  import opened Money
  import opened VersionedRows
  import opened AttributionLedger
  import opened AttributionHistory

  // ---------------------------------------------------------------------------
  // Shares of one amount
  // ---------------------------------------------------------------------------

  /** The baseline risk and the confidence of one attribution. */
  datatype Share = Share(p: real, alpha: real) {
    /** What an ATTRIBUTED result can carry. */
    predicate Valid() {
      0.0 <= p <= 1.0 && CONFIDENCE_FLOOR <= alpha <= 1.0
    }
  }

  function ProtectedSum(amount: int, shares: seq<Share>): int {
    if shares == [] then 0
    else
      var n := |shares| - 1;
      ProtectedSum(amount, shares[..n]) + Protected(amount, shares[n].p, shares[n].alpha)
  }

  lemma SumAppends(amount: int, shares: seq<Share>, share: Share)
    ensures ProtectedSum(amount, shares + [share]) == ProtectedSum(amount, shares) + Protected(amount, share.p, share.alpha)
  {
    assert (shares + [share])[..|shares|] == shares;
  }

  function WeightSum(shares: seq<Share>): real {
    if shares == [] then 0.0
    else
      var n := |shares| - 1;
      WeightSum(shares[..n]) + shares[n].p * shares[n].alpha
  }

  /** A rounded sum of n terms against the exact product. */
  predicate IsNear(sum: int, amount: int, weight: real, n: nat) {
    -0.5 * n as real <= sum as real - amount as real * weight <= 0.5 * n as real
  }

  lemma OneIsNear(amount: int, share: Share)
    ensures IsNear(Protected(amount, share.p, share.alpha), amount, share.p * share.alpha, 1)
  {
    RoundingIsNearest(amount, share.p, share.alpha);
    assert amount as real * (share.p * share.alpha) == amount as real * share.p * share.alpha;
  }

  lemma NearAdds(sum: int, one: int, amount: int, weight: real, more: real, n: nat)
    requires IsNear(sum, amount, weight, n) && IsNear(one, amount, more, 1)
    ensures IsNear(sum + one, amount, weight + more, n + 1)
  {
    assert amount as real * (weight + more) == amount as real * weight + amount as real * more;
  }

  /** The sum is within half a minor unit per share of the amount times the summed weights. */
  lemma {:induction false} SumIsNearest(amount: int, shares: seq<Share>)
    ensures IsNear(ProtectedSum(amount, shares), amount, WeightSum(shares), |shares|)
  {
    if shares != [] {
      var front, last := shares[..|shares| - 1], shares[|shares| - 1];
      SumIsNearest(amount, front);
      OneIsNear(amount, last);
      NearAdds(ProtectedSum(amount, front), Protected(amount, last.p, last.alpha), amount, WeightSum(front),
               last.p * last.alpha, |front|);
    }
  }

  /** Half a minor unit for every share. */
  predicate WithinRounding(amount: int, shares: seq<Share>) {
    ProtectedSum(amount, shares) as real <= amount as real + 0.5 * |shares| as real
  }

  lemma LightIsWithin(sum: int, amount: nat, weight: real, n: nat)
    requires IsNear(sum, amount, weight, n) && weight <= 1.0
    ensures sum as real <= amount as real + 0.5 * n as real
  {
    assert amount as real * (1.0 - weight) >= 0.0;
    assert amount as real * (1.0 - weight) == amount as real - amount as real * weight;
  }

  lemma HeavyIsOver(sum: int, amount: nat, weight: real, n: nat)
    requires IsNear(sum, amount, weight, n) && amount as real * (weight - 1.0) > n as real
    ensures sum as real > amount as real + 0.5 * n as real
  {
    assert amount as real * (weight - 1.0) == amount as real * weight - amount as real;
  }

  /** An amount large enough for an excess weight to show. */
  lemma LargeAmount(excess: real, n: nat) returns (amount: nat)
    requires excess > 0.0
    ensures amount as real * excess > n as real
  {
    amount := (n as real / excess).Floor + 1;
    var q := n as real / excess;
    assert amount as real > q;
    Exceeds(amount as real, q, excess);
    assert q * excess == n as real;
  }

  lemma Exceeds(x: real, y: real, z: real)
    requires x > y && z > 0.0
    ensures x * z > y * z
  {
    assert (x - y) * z > 0.0;
    assert (x - y) * z == x * z - y * z;
  }

  /**
   * The revenue protected together stays within the amount, up to half a minor unit per share, for every
   * amount exactly when the weights, risk times confidence, add up to at most one.
   */
  lemma WeightsDecide(shares: seq<Share>)
    ensures (forall amount: nat :: WithinRounding(amount, shares)) <==> WeightSum(shares) <= 1.0
  {
    if WeightSum(shares) <= 1.0 {
      forall amount: nat
        ensures WithinRounding(amount, shares)
      {
        SumIsNearest(amount, shares);
        LightIsWithin(ProtectedSum(amount, shares), amount, WeightSum(shares), |shares|);
      }
    } else {
      var amount := LargeAmount(WeightSum(shares) - 1.0, |shares|);
      SumIsNearest(amount, shares);
      HeavyIsOver(ProtectedSum(amount, shares), amount, WeightSum(shares), |shares|);
      assert !WithinRounding(amount, shares);
    }
  }

  /** k attributions never protect more than the amount together, whatever their shares. */
  ghost predicate AlwaysWithinAmount(k: nat) {
    forall amount: nat, shares: seq<Share> ::
      |shares| == k && (forall share <- shares :: share.Valid()) ==> ProtectedSum(amount, shares) <= amount
  }

  lemma OneShare(amount: nat, shares: seq<Share>)
    requires |shares| <= 1 && forall share <- shares :: share.Valid()
    ensures 0 <= ProtectedSum(amount, shares) <= amount
  {
    if shares != [] {
      assert shares[0] in shares && shares[..0] == [];
      RoundingKeepsOrder(amount, shares[0].p, shares[0].alpha);
    }
  }

  lemma {:induction false} EqualShares(k: nat) returns (shares: seq<Share>)
    ensures |shares| == k && forall share <- shares :: share == Share(0.95, 0.6)
    ensures ProtectedSum(1000, shares) == 570 * k
  {
    shares := [];
    if k > 0 {
      var front := EqualShares(k - 1);
      shares := front + [Share(0.95, 0.6)];
      assert shares[..k - 1] == front;
      assert 1000.0 * 0.95 * 0.6 == 570.0;
    }
  }

  /** Only a single attribution is bounded by the amount for every amount and every share. */
  lemma AtMostOneIsBounded(k: nat)
    ensures AlwaysWithinAmount(k) <==> k <= 1
  {
    if k <= 1 {
      forall amount: nat, shares: seq<Share> | |shares| == k && forall share <- shares :: share.Valid()
        ensures ProtectedSum(amount, shares) <= amount
      {
        OneShare(amount, shares);
      }
    } else {
      var shares := EqualShares(k);
      assert ProtectedSum(1000, shares) > 1000;
    }
  }

  // ---------------------------------------------------------------------------
  // The commands of one attempt
  // ---------------------------------------------------------------------------

  /** Stored probabilities are probabilities, and stored amounts are not negative. */
  ghost predicate InRange(s: Store) {
    && (forall e <- s.events :: e.amount >= 0)
    && (forall i <- s.predictions :: s.predictions[i].probability.Some? ==> 0.0 <= s.predictions[i].probability.value <= 1.0)
  }

  /** Distinct commands of the attempt with the key. */
  predicate CommandsOf(s: Store, key: string, ids: seq<DecisionId>) {
    && (forall id <- ids :: id in s.cases && s.cases[id].key == key)
    && (forall i, j :: 0 <= i < j < |ids| ==> ids[i] != ids[j])
  }

  /** What one command contributes: its protected revenue and, when it is attributed, its share. */
  datatype Line = Line(protectedGmv: int, share: Option<Share>)

  function LineOf(s: Store, id: DecisionId, asOf: int): Line {
    match Evaluate(s, id, asOf)
    case Err(_) => Line(0, None)
    case Ok(e) =>
      Line(e.result.protectedGmv,
           if e.result.status == Attributed && e.p0.Some? then Some(Share(FourPlaces(e.p0.value), e.result.confidence))
           else None)
  }

  function Lines(s: Store, ids: seq<DecisionId>, asOf: int): seq<Line> {
    seq(|ids|, i requires 0 <= i < |ids| => LineOf(s, ids[i], asOf))
  }

  function Total(lines: seq<Line>): int {
    if lines == [] then 0 else Total(lines[..|lines| - 1]) + lines[|lines| - 1].protectedGmv
  }

  function Shares(lines: seq<Line>): seq<Share> {
    if lines == [] then []
    else
      var n := |lines| - 1;
      Shares(lines[..n]) + (if lines[n].share.Some? then [lines[n].share.value] else [])
  }

  predicate LineFits(line: Line, amount: int) {
    if line.share.Some? then
      line.share.value.Valid() && line.protectedGmv == Protected(amount, line.share.value.p, line.share.value.alpha)
    else line.protectedGmv == 0
  }

  /** The total is the protected sum of the attributed commands' shares. */
  lemma {:induction false} TotalIsSum(lines: seq<Line>, amount: int)
    requires forall line <- lines :: LineFits(line, amount)
    ensures Total(lines) == ProtectedSum(amount, Shares(lines))
    ensures forall share <- Shares(lines) :: share.Valid()
  {
    if lines != [] {
      var front, last := lines[..|lines| - 1], lines[|lines| - 1];
      assert lines == front + [last] && last in lines && forall line <- front :: line in lines;
      TotalIsSum(front, amount);
      if last.share.Some? {
        SumAppends(amount, Shares(front), last.share.value);
      } else {
        assert Shares(lines) == Shares(front);
      }
    }
  }

  lemma {:induction false} TriggerAmount(events: seq<StoredEvent>, source: Option<string>, key: string, cutoff: int)
    requires forall e <- events :: e.amount >= 0
    ensures AmountOf(LatestTrigger(events, source, key, cutoff)) >= 0
  {
    if events != [] {
      TriggerAmount(events[..|events| - 1], source, key, cutoff);
    }
  }

  /** One command: it has a share exactly when it is attributed, and protects that share of its amount. */
  lemma AttributedShare(s: Store, id: DecisionId, asOf: int)
    requires Inv(s) && InRange(s) && id in s.cases
    ensures Evaluate(s, id, asOf).Ok? && Evaluate(s, id, asOf).value.amount >= 0
    ensures LineOf(s, id, asOf).share.Some? <==> Evaluate(s, id, asOf).value.result.status == Attributed
    ensures LineFits(LineOf(s, id, asOf), Evaluate(s, id, asOf).value.amount)
  {
    EvaluationSucceeds(s, id, asOf);
    AttributedExactlyWhenEarned(s, id, asOf);
    var c, d := s.cases[id], s.decisions[id];
    TriggerAmount(s.events, Some(c.source), c.key, Min(d.at, asOf));
    var e, prediction := Evaluate(s, id, asOf).value, PredictionOf(s, d);
    if e.result.status == Attributed {
      var o := LatestObservation(c, asOf);
      FourPlacesStaysInUnit(prediction.value.probability.value);
      FourPlacesStaysInUnit(e.p0.value);
      AttributedMoney(e.amount, e.p0.value, e.treatment, e.outcome, ClassifyProvenance(prediction.value.model),
                      prediction.value.status, d.diagnosis, TimingDelta(LatestAttempt(c, asOf), o), e.result);
    }
  }

  /** All commands are evaluated from the same amount. */
  predicate OneAmount(s: Store, ids: seq<DecisionId>, asOf: int, amount: int) {
    forall id <- ids :: Evaluate(s, id, asOf).Ok? ==> Evaluate(s, id, asOf).value.amount == amount
  }

  /**
   * The commands of an attempt, evaluated from one amount, together protect at most the amount when at most
   * one of them is attributed; in general they protect the amount times their summed weights, up to half a
   * minor unit per attributed command, and so at most the amount, up to that, when the weights add up to at
   * most one.
   */
  lemma ProtectedPerAttempt(s: Store, key: string, ids: seq<DecisionId>, asOf: int, amount: nat)
    requires Inv(s) && InRange(s) && CommandsOf(s, key, ids) && OneAmount(s, ids, asOf, amount)
    ensures var lines := Lines(s, ids, asOf);
            && (|Shares(lines)| <= 1 ==> 0 <= Total(lines) <= amount)
            && IsNear(Total(lines), amount, WeightSum(Shares(lines)), |Shares(lines)|)
            && (WeightSum(Shares(lines)) <= 1.0 ==> Total(lines) as real <= amount as real + 0.5 * |Shares(lines)| as real)
  {
    var lines := Lines(s, ids, asOf);
    var shares := Shares(lines);
    forall line | line in lines
      ensures LineFits(line, amount)
    {
      var i :| 0 <= i < |lines| && lines[i] == line;
      assert ids[i] in ids;
      AttributedShare(s, ids[i], asOf);
    }
    TotalIsSum(lines, amount);
    SumIsNearest(amount, shares);
    if |shares| <= 1 {
      OneShare(amount, shares);
    }
    if WeightSum(shares) <= 1.0 {
      LightIsWithin(Total(lines), amount, WeightSum(shares), |shares|);
    }
  }
}

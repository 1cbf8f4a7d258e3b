/** Half-even rounding and the Stage 8 money arithmetic built on it. */
module Money {
  import opened Common

  /** Decimal.quantize(Decimal("1"), ROUND_HALF_EVEN): the nearest integer, ties to the even one. */
  function HalfEven(x: real): int {
    var below := x.Floor;
    var rest := x - below as real;
    if rest < 0.5 || (rest == 0.5 && below % 2 == 0) then below else below + 1
  }

  predicate IsHalfEven(x: real, r: int) {
    && -0.5 <= r as real - x <= 0.5
    && (r as real - x == 0.5 || r as real - x == -0.5 ==> r % 2 == 0)
  }

  /** The two clauses of IsHalfEven leave exactly one integer. */
  lemma HalfEvenIsUnique(x: real, r: int)
    ensures IsHalfEven(x, r) <==> r == HalfEven(x)
  {
    var h := HalfEven(x);
    assert IsHalfEven(x, h);
    if IsHalfEven(x, r) {
      assert -1.0 <= r as real - h as real <= 1.0;
      assert -1 <= r - h <= 1;
    }
  }

  lemma HalfEvenMonotone(x: real, y: real)
    requires x <= y
    ensures HalfEven(x) <= HalfEven(y)
  {
  }

  lemma HalfEvenOfInteger(n: int)
    ensures HalfEven(n as real) == n
  {
    HalfEvenIsUnique(n as real, n);
  }

  /** Decimal.quantize(Decimal("0.0001"), ROUND_HALF_EVEN). */
  function FourPlaces(x: real): real {
    HalfEven(x * 10000.0) as real / 10000.0
  }

  lemma FourPlacesMonotone(x: real, y: real)
    requires x <= y
    ensures FourPlaces(x) <= FourPlaces(y)
  {
    HalfEvenMonotone(x * 10000.0, y * 10000.0);
  }

  lemma FourPlacesStaysInUnit(x: real)
    requires 0.0 <= x <= 1.0
    ensures 0.0 <= FourPlaces(x) <= 1.0
  {
    HalfEvenOfInteger(0);
    HalfEvenOfInteger(10000);
    HalfEvenMonotone(0.0, x * 10000.0);
    HalfEvenMonotone(x * 10000.0, 10000.0);
  }

  lemma ProductMonotone(a: real, b: real, c: real, d: real)
    requires 0.0 <= a <= c && 0.0 <= b <= d
    ensures 0.0 <= a * b <= c * d
  {
    assert a * b <= c * b;
    assert c * b <= c * d;
  }

  lemma ProductWithinUnit(a: real, b: real)
    requires 0.0 <= a && 0.0 <= b <= 1.0
    ensures 0.0 <= a * b <= a
  {
  }

  /** The amount at risk: the exact product rounded half-even to whole minor units. */
  function Exposure(amount: int, p: real): int {
    HalfEven(amount as real * p)
  }

  /** The risk-weighted and confidence-weighted amount, rounded once. */
  function Protected(amount: int, p: real, alpha: real): int {
    HalfEven(amount as real * p * alpha)
  }

  lemma HalfEvenOrder(z: real, y: real, n: int)
    requires 0.0 <= z <= y <= n as real
    ensures 0 <= HalfEven(z) <= HalfEven(y) <= n
  {
    HalfEvenOfInteger(0);
    HalfEvenOfInteger(n);
    HalfEvenMonotone(0.0, z);
    HalfEvenMonotone(z, y);
    HalfEvenMonotone(y, n as real);
  }

  lemma ProductsOrdered(amount: int, p: real, alpha: real)
    requires 0 <= amount && 0.0 <= p <= 1.0 && 0.0 <= alpha <= 1.0
    ensures 0.0 <= amount as real * p * alpha <= amount as real * p <= amount as real
  {
    ProductWithinUnit(amount as real, p);
    ProductWithinUnit(amount as real * p, alpha);
  }

  /** Rounding alone orders the three amounts: the clamps around it never change a result. */
  lemma RoundingKeepsOrder(amount: int, p: real, alpha: real)
    requires 0 <= amount && 0.0 <= p <= 1.0 && 0.0 <= alpha <= 1.0
    ensures 0 <= Protected(amount, p, alpha) <= Exposure(amount, p) <= amount
  {
    ProductsOrdered(amount, p, alpha);
    HalfEvenOrder(amount as real * p * alpha, amount as real * p, amount);
  }

  lemma ProductsMonotone(amount: int, p: real, amount': int, p': real, alpha: real)
    requires 0 <= amount <= amount' && 0.0 <= p <= p' && 0.0 <= alpha
    ensures amount as real * p <= amount' as real * p'
    ensures amount as real * p * alpha <= amount' as real * p' * alpha
  {
    ProductMonotone(amount as real, p, amount' as real, p');
    ProductMonotone(amount as real * p, alpha, amount' as real * p', alpha);
  }

  /** Both results are monotone in the amount and in the baseline risk. */
  lemma RoundingMonotone(amount: int, p: real, amount': int, p': real, alpha: real)
    requires 0 <= amount <= amount' && 0.0 <= p <= p' && 0.0 <= alpha
    ensures Exposure(amount, p) <= Exposure(amount', p')
    ensures Protected(amount, p, alpha) <= Protected(amount', p', alpha)
  {
    ProductsMonotone(amount, p, amount', p', alpha);
    var y, z := amount as real * p, amount as real * p * alpha;
    var y', z' := amount' as real * p', amount' as real * p' * alpha;
    HalfEvenMonotone(y, y');
    HalfEvenMonotone(z, z');
    assert Exposure(amount, p) == HalfEven(y) && Exposure(amount', p') == HalfEven(y');
    assert Protected(amount, p, alpha) == HalfEven(z) && Protected(amount', p', alpha) == HalfEven(z');
  }

  /** Each result is within half a minor unit of the exact product, and even when it is a tie. */
  lemma RoundingIsNearest(amount: int, p: real, alpha: real)
    ensures IsHalfEven(amount as real * p, Exposure(amount, p))
    ensures IsHalfEven(amount as real * p * alpha, Protected(amount, p, alpha))
  {
    var y, z := amount as real * p, amount as real * p * alpha;
    HalfEvenIsUnique(y, HalfEven(y));
    HalfEvenIsUnique(z, HalfEven(z));
  }

  // ---------------------------------------------------------------------------
  // Stage 8 calculator
  // ---------------------------------------------------------------------------

  datatype TreatmentStatus = Treated | ExecutionFailed | Untreated

  datatype PaymentOutcome = Captured | Failed | UnknownInFlight

  datatype Provenance = EmpiricalProduction | SyntheticDevelopment | Unknown

  datatype PredictionStatus = Predicted | NotEligible | InsufficientData

  datatype EvidenceStrength = Strong | Moderate | Weak

  datatype AttributionStatus =
    | Attributed
    | UnattributedPaymentFailed
    | UnattributedExecutionFailed
    | UnattributedUntreated
    | UnresolvedInFlight
    | IndeterminateInsufficientEvidence

  datatype Attribution = Attribution(
    status: AttributionStatus,
    exposure: int,
    naturalSuccess: int,
    protectedGmv: int,
    confidence: real)

  const CONFIDENCE_FLOOR: real := 0.25

  function ProvenanceWeight(p: Provenance): real {
    match p
    case EmpiricalProduction => 1.0
    case SyntheticDevelopment => 0.6
    case Unknown => 0.3
  }

  function DiagnosisWeight(d: Option<EvidenceStrength>): real {
    match d
    case Some(Strong) => 1.0
    case Some(Moderate) => 0.85
    case Some(Weak) => 0.7
    case None => 0.6
  }

  /** Evidence from the delay, in microseconds, between execution and the terminal event. */
  function TimingWeight(delta: Option<int>): real {
    match delta
    case None => 0.6
    case Some(d) => if d <= 60 * SECOND then 1.0 else if d <= 300 * SECOND then 0.85 else 0.6
  }

  function Confidence(provenance: real, diagnosis: real, timing: real): real {
    FourPlaces(FourPlaces(provenance) * diagnosis * timing)
  }

  function Alpha(provenance: Provenance, diagnosis: Option<EvidenceStrength>, delta: Option<int>): real {
    Confidence(ProvenanceWeight(provenance), DiagnosisWeight(diagnosis), TimingWeight(delta))
  }

  /** x is a whole number of ten-thousandths, the nearest one to y, and an even one on a tie. */
  predicate IsFourPlaces(y: real, x: real) {
    var n := (x * 10000.0).Floor;
    n as real == x * 10000.0 && IsHalfEven(y * 10000.0, n)
  }

  lemma FourPlacesIsNearest(y: real, x: real)
    ensures IsFourPlaces(y, x) <==> x == FourPlaces(y)
  {
    var n := HalfEven(y * 10000.0);
    HalfEvenIsUnique(y * 10000.0, n);
    assert FourPlaces(y) * 10000.0 == n as real;
    HalfEvenIsUnique(y * 10000.0, (x * 10000.0).Floor);
  }

  lemma ConfidenceIsNearest(w: real, d: real, u: real)
    requires FourPlaces(w) == w
    ensures IsFourPlaces(w * d * u, Confidence(w, d, u))
  {
    FourPlacesIsNearest(w * d * u, FourPlaces(w * d * u));
  }

  /**
   * The confidence is the four-place rounding of the product of three discounts: for the model's provenance,
   * the diagnosis, and the delay between execution and outcome.
   */
  lemma ConfidenceMeaning(
    provenance: Provenance, diagnosis: Option<EvidenceStrength>, delta: Option<int>, w: real, d: real, u: real)
    requires w == (if provenance == EmpiricalProduction then 1.0 else if provenance == SyntheticDevelopment then 0.6 else 0.3)
    requires d == (if diagnosis == Some(Strong) then 1.0 else if diagnosis == Some(Moderate) then 0.85
                   else if diagnosis == Some(Weak) then 0.7 else 0.6)
    requires u == (if delta.None? || delta.value > 300 * SECOND then 0.6 else if delta.value > 60 * SECOND then 0.85 else 1.0)
    ensures IsFourPlaces(w * d * u, Alpha(provenance, diagnosis, delta))
  {
    assert w == ProvenanceWeight(provenance) && FourPlaces(w) == w;
    assert d == DiagnosisWeight(diagnosis) && u == TimingWeight(delta);
    ConfidenceIsNearest(w, d, u);
  }

  function NoMoney(status: AttributionStatus, confidence: real): Attribution {
    Attribution(status, 0, 0, 0, confidence)
  }

  /** calculate_attribution, clamps included. */
  function CalculateAttribution(
    amount: int, p0: Option<real>, treatment: TreatmentStatus, outcome: PaymentOutcome,
    provenance: Provenance, predictionStatus: PredictionStatus,
    diagnosis: Option<EvidenceStrength>, delta: Option<int>): Attribution
  {
    if outcome == UnknownInFlight then NoMoney(UnresolvedInFlight, 0.0)
    else if treatment == Untreated then NoMoney(UnattributedUntreated, 0.0)
    else if treatment == ExecutionFailed then NoMoney(UnattributedExecutionFailed, 0.0)
    else if outcome != Captured then NoMoney(UnattributedPaymentFailed, 0.0)
    else if p0.None? || predictionStatus != Predicted then NoMoney(IndeterminateInsufficientEvidence, 0.0)
    else
      var alpha := Alpha(provenance, diagnosis, delta);
      if alpha < CONFIDENCE_FLOOR then NoMoney(IndeterminateInsufficientEvidence, alpha)
      else
        var p := FourPlaces(p0.value);
        var exposure := Max(0, Min(Exposure(amount, p), amount));
        Attribution(Attributed, exposure, Max(0, amount - exposure),
                    Max(0, Min(Protected(amount, p, alpha), Min(exposure, amount))), alpha)
  }

  lemma UnitPair(a: real, b: real)
    requires 0.0 <= a <= 1.0 && 0.0 <= b <= 1.0
    ensures 0.0 <= a * b <= 1.0
  {
    ProductWithinUnit(a, b);
  }

  lemma UnitTriple(a: real, b: real, c: real)
    requires 0.0 <= a <= 1.0 && 0.0 <= b <= 1.0 && 0.0 <= c <= 1.0
    ensures 0.0 <= a * b * c <= 1.0
  {
    UnitPair(a, b);
    UnitPair(a * b, c);
  }

  lemma ConfidenceStaysInUnit(a: real, b: real, c: real)
    requires 0.0 <= a <= 1.0 && 0.0 <= b <= 1.0 && 0.0 <= c <= 1.0
    ensures 0.0 <= Confidence(a, b, c) <= 1.0
  {
    FourPlacesStaysInUnit(a);
    UnitTriple(FourPlaces(a), b, c);
    FourPlacesStaysInUnit(FourPlaces(a) * b * c);
  }

  lemma AlphaStaysInUnit(provenance: Provenance, diagnosis: Option<EvidenceStrength>, delta: Option<int>)
    ensures 0.0 <= Alpha(provenance, diagnosis, delta) <= 1.0
  {
    ConfidenceStaysInUnit(ProvenanceWeight(provenance), DiagnosisWeight(diagnosis), TimingWeight(delta));
  }

  /**
   * The money of an attributed payment, for any amount and any probability: the ordering invariant,
   * conservation of the amount, no result further than half a minor unit from the exact product,
   * and clamps that never bite.
   */
  lemma AttributedMoney(
    amount: int, p0: real, treatment: TreatmentStatus, outcome: PaymentOutcome, provenance: Provenance,
    predictionStatus: PredictionStatus, diagnosis: Option<EvidenceStrength>, delta: Option<int>, a: Attribution)
    requires 0 <= amount && 0.0 <= p0 <= 1.0
    requires a == CalculateAttribution(amount, Some(p0), treatment, outcome, provenance, predictionStatus,
                                       diagnosis, delta)
    requires a.status == Attributed
    ensures 0 <= a.protectedGmv <= a.exposure <= amount
    ensures a.exposure + a.naturalSuccess == amount
    ensures a.exposure == Exposure(amount, FourPlaces(p0))
    ensures a.protectedGmv == Protected(amount, FourPlaces(p0), a.confidence)
    ensures CONFIDENCE_FLOOR <= a.confidence <= 1.0
  {
    AlphaStaysInUnit(provenance, diagnosis, delta);
    FourPlacesStaysInUnit(p0);
    RoundingKeepsOrder(amount, FourPlaces(p0), a.confidence);
  }

  /**
   * The status, from the evidence alone: no outcome yet, no treatment, a failed execution, a failed payment,
   * a missing prediction or too little confidence, in this order; money goes with ATTRIBUTED only.
   */
  lemma StatusMeaning(
    amount: int, p0: Option<real>, treatment: TreatmentStatus, outcome: PaymentOutcome, provenance: Provenance,
    predictionStatus: PredictionStatus, diagnosis: Option<EvidenceStrength>, delta: Option<int>, a: Attribution)
    requires a == CalculateAttribution(amount, p0, treatment, outcome, provenance, predictionStatus, diagnosis, delta)
    ensures a.status == UnresolvedInFlight <==> outcome == UnknownInFlight
    ensures a.status == UnattributedUntreated <==> outcome != UnknownInFlight && treatment == Untreated
    ensures a.status == UnattributedExecutionFailed <==> outcome != UnknownInFlight && treatment == ExecutionFailed
    ensures a.status == UnattributedPaymentFailed <==> outcome == Failed && treatment == Treated
    ensures var measured := outcome == Captured && treatment == Treated && p0.Some? && predictionStatus == Predicted;
            && (a.status == Attributed <==> measured && Alpha(provenance, diagnosis, delta) >= 0.25)
            && (a.status == IndeterminateInsufficientEvidence <==>
                  outcome == Captured && treatment == Treated && a.status != Attributed)
            && a.confidence == (if measured then Alpha(provenance, diagnosis, delta) else 0.0)
    ensures a.status != Attributed ==> a.exposure == 0 && a.naturalSuccess == 0 && a.protectedGmv == 0
  {
  }

  /** The result's money is that of the amount, the risk and the confidence, rounded once each. */
  predicate IsMoneyOf(amount: int, risk: real, a: Attribution) {
    && IsHalfEven(amount as real * risk, a.exposure)
    && a.naturalSuccess == amount - a.exposure
    && IsHalfEven(amount as real * risk * a.confidence, a.protectedGmv)
  }

  lemma AttributedRounds(amount: int, risk: real, a: Attribution)
    requires a.exposure == Exposure(amount, risk) && a.protectedGmv == Protected(amount, risk, a.confidence)
    requires a.exposure + a.naturalSuccess == amount
    ensures IsMoneyOf(amount, risk, a)
  {
    RoundingIsNearest(amount, risk, a.confidence);
  }

  /**
   * The money of an attributed payment from its evidence: the exposure is the rounded product of amount and
   * risk, the protected revenue the rounded product of amount, risk and confidence, the risk being the
   * probability to four places.
   */
  lemma MoneyMeaning(
    amount: int, p0: real, risk: real, treatment: TreatmentStatus, outcome: PaymentOutcome, provenance: Provenance,
    predictionStatus: PredictionStatus, diagnosis: Option<EvidenceStrength>, delta: Option<int>, a: Attribution)
    requires 0 <= amount && 0.0 <= p0 <= 1.0 && IsFourPlaces(p0, risk)
    requires a == CalculateAttribution(amount, Some(p0), treatment, outcome, provenance, predictionStatus,
                                       diagnosis, delta)
    requires a.status == Attributed
    ensures IsMoneyOf(amount, risk, a) && a.confidence == Alpha(provenance, diagnosis, delta)
  {
    FourPlacesIsNearest(p0, risk);
    AttributedMoney(amount, p0, treatment, outcome, provenance, predictionStatus, diagnosis, delta, a);
    AttributedRounds(amount, risk, a);
  }

  /** How much a diagnosis says; none at all says least. */
  function Strength(d: Option<EvidenceStrength>): nat {
    match d case Some(Strong) => 3 case Some(Moderate) => 2 case Some(Weak) => 1 case None => 0
  }

  lemma TripleGrows(v: real, d: real, u: real, d': real, u': real)
    requires 0.0 <= v && 0.0 <= d <= d' && 0.0 <= u <= u'
    ensures v * d * u <= v * d' * u'
  {
    ProductMonotone(v, d, v, d');
    ProductMonotone(v * d, u, v * d', u');
  }

  lemma RoundedTripleGrows(v: real, d: real, u: real, d': real, u': real)
    requires 0.0 <= v && 0.0 <= d <= d' && 0.0 <= u <= u'
    ensures FourPlaces(v * d * u) <= FourPlaces(v * d' * u')
  {
    TripleGrows(v, d, u, d', u');
    var x, y := v * d * u, v * d' * u';
    FourPlacesMonotone(x, y);
  }

  lemma ConfidenceIs(w: real, d: real, u: real)
    requires FourPlaces(w) == w
    ensures Confidence(w, d, u) == FourPlaces(w * d * u)
  {
    ConfidenceIsNearest(w, d, u);
    FourPlacesIsNearest(w * d * u, Confidence(w, d, u));
  }

  lemma ConfidenceGrows(w: real, d: real, u: real, d': real, u': real)
    requires FourPlaces(w) == w && 0.0 <= w && 0.0 <= d <= d' && 0.0 <= u <= u'
    ensures Confidence(w, d, u) <= Confidence(w, d', u')
  {
    ConfidenceIs(w, d, u);
    ConfidenceIs(w, d', u');
    RoundedTripleGrows(w, d, u, d', u');
  }

  lemma ConfidenceMonotone(
    provenance: Provenance, diagnosis: Option<EvidenceStrength>, delta: int, diagnosis': Option<EvidenceStrength>,
    delta': int)
    requires Strength(diagnosis') <= Strength(diagnosis) && delta <= delta'
    ensures Alpha(provenance, diagnosis', Some(delta')) <= Alpha(provenance, diagnosis, Some(delta))
  {
    ConfidenceGrows(ProvenanceWeight(provenance), DiagnosisWeight(diagnosis'), TimingWeight(Some(delta')),
                    DiagnosisWeight(diagnosis), TimingWeight(Some(delta)));
  }

  lemma SharesOrdered(amount: int, p: real, alpha: real, alpha': real)
    requires 0 <= amount && 0.0 <= p && 0.0 <= alpha' <= alpha
    ensures amount as real * p * alpha' <= amount as real * p * alpha
  {
    ProductMonotone(0.0, 0.0, amount as real, p);
    ProductMonotone(amount as real * p, alpha', amount as real * p, alpha);
  }

  lemma ProtectedMonotone(amount: int, p: real, alpha: real, alpha': real)
    requires 0 <= amount && 0.0 <= p && 0.0 <= alpha' <= alpha
    ensures Protected(amount, p, alpha') <= Protected(amount, p, alpha)
  {
    SharesOrdered(amount, p, alpha, alpha');
    HalfEvenMonotone(amount as real * p * alpha', amount as real * p * alpha);
  }

  /** A weaker diagnosis or a later outcome never raises the confidence or the protected revenue. */
  lemma WeakerEvidence(
    amount: int, p0: real, provenance: Provenance, diagnosis: Option<EvidenceStrength>, delta: int,
    diagnosis': Option<EvidenceStrength>, delta': int, a: Attribution, a': Attribution)
    requires 0 <= amount && 0.0 <= p0 <= 1.0 && Strength(diagnosis') <= Strength(diagnosis) && delta <= delta'
    requires a == CalculateAttribution(amount, Some(p0), Treated, Captured, provenance, Predicted, diagnosis, Some(delta))
    requires a' == CalculateAttribution(amount, Some(p0), Treated, Captured, provenance, Predicted, diagnosis', Some(delta'))
    ensures a'.confidence <= a.confidence && a'.protectedGmv <= a.protectedGmv
    ensures a'.status == Attributed ==> a.status == Attributed && a'.exposure == a.exposure
  {
    ConfidenceMonotone(provenance, diagnosis, delta, diagnosis', delta');
    if a'.status == Attributed {
      AttributedMoney(amount, p0, Treated, Captured, provenance, Predicted, diagnosis, Some(delta), a);
      AttributedMoney(amount, p0, Treated, Captured, provenance, Predicted, diagnosis', Some(delta'), a');
      FourPlacesStaysInUnit(p0);
      ProtectedMonotone(amount, FourPlaces(p0), a.confidence, a'.confidence);
    } else if a.status == Attributed {
      AttributedMoney(amount, p0, Treated, Captured, provenance, Predicted, diagnosis, Some(delta), a);
    }
  }

  /** A larger amount or a higher baseline risk never lowers the exposure or the protected revenue. */
  lemma AttributedMoneyMonotone(
    amount: int, p0: real, amount': int, p0': real, provenance: Provenance,
    diagnosis: Option<EvidenceStrength>, delta: Option<int>, a: Attribution, a': Attribution)
    requires 0 <= amount <= amount' && 0.0 <= p0 <= p0' <= 1.0
    requires a == CalculateAttribution(amount, Some(p0), Treated, Captured, provenance, Predicted, diagnosis, delta)
    requires a' == CalculateAttribution(amount', Some(p0'), Treated, Captured, provenance, Predicted, diagnosis, delta)
    ensures a.status == a'.status && a.confidence == a'.confidence
    ensures a.exposure <= a'.exposure && a.protectedGmv <= a'.protectedGmv
  {
    if a.status == Attributed {
      AlphaStaysInUnit(provenance, diagnosis, delta);
      AttributedMoney(amount, p0, Treated, Captured, provenance, Predicted, diagnosis, delta, a);
      AttributedMoney(amount', p0', Treated, Captured, provenance, Predicted, diagnosis, delta, a');
      FourPlacesStaysInUnit(p0);
      FourPlacesMonotone(p0, p0');
      RoundingMonotone(amount, FourPlaces(p0), amount', FourPlaces(p0'), a.confidence);
    }
  }
}

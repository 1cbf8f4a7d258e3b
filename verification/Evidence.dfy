/** What an evaluation of Stage 8 says, from the stored evidence alone: treatment, outcome, status, money. */
module Evidence {
  import opened Common
  import opened Attempts
  import Execution
  import opened Money
  import opened VersionedRows
  import opened AttributionLedger
  import opened AttributionHistory
  import opened ProtectedTotal
  import Decisioning

  /** The attempt row is visible at the cutoff. */
  predicate Attempted(c: Case, asOf: int, a: Execution.ExecutionAttempt) {
    a in c.attempts && a.createdAt <= asOf
  }

  /** The newest observation visible at the cutoff is of this terminal event. */
  ghost predicate Settled(c: Case, asOf: int, e: StoredEvent) {
    exists o :: IsLatest(c.observations, ObservationVersion, ObservationStamp, asOf, o) && o.terminal == Some(e)
  }

  /** The executor succeeded, and the outcome, when there is one, did not come before it was done. */
  ghost predicate Treats(d: Decisioning.Decision, c: Case, asOf: int, a: Execution.ExecutionAttempt) {
    && d.IsAct() && Attempted(c, asOf, a) && a.status == Execution.SUCCESS
    && forall e :: Settled(c, asOf, e) ==> e.timestamp >= a.completedAt
  }

  lemma LatestSettles(c: Case, asOf: int, e: StoredEvent)
    requires RowsFit(c)
    ensures Settled(c, asOf, e) <==>
              LatestObservation(c, asOf).Some? && LatestObservation(c, asOf).value.terminal == Some(e)
  {
    LatestByFinds(c.observations, ObservationVersion, ObservationStamp, asOf);
    if o :| IsLatest(c.observations, ObservationVersion, ObservationStamp, asOf, o) && o.terminal == Some(e) {
      LatestByMeaning(c.observations, ObservationVersion, ObservationStamp, asOf, o);
    }
  }

  /** The outcome is that of the terminal event the newest visible observation selected. */
  lemma OutcomeMeaning(s: Store, id: DecisionId, asOf: int)
    requires Inv(s) && id in s.cases
    ensures id in s.decisions && Evaluate(s, id, asOf).Ok?
    ensures var e := Evaluate(s, id, asOf).value;
            && (e.outcome == UnknownInFlight <==> forall t :: !Settled(s.cases[id], asOf, t))
            && (e.outcome == Captured <==> exists t :: Settled(s.cases[id], asOf, t) && t.event.kind == PaymentCaptured)
            && (e.outcome == Failed <==> exists t :: Settled(s.cases[id], asOf, t) && t.event.kind == PaymentFailed)
  {
    EvaluationSucceeds(s, id, asOf);
    var c := s.cases[id];
    var o := LatestObservation(c, asOf);
    LatestByFinds(c.observations, ObservationVersion, ObservationStamp, asOf);
    assert o.Some? ==> ObservationFits(o.value, c.source, c.key);
    forall t
      ensures Settled(c, asOf, t) <==> o.Some? && o.value.terminal == Some(t)
    {
      LatestSettles(c, asOf, t);
    }
    assert o.Some? && o.value.terminal.Some? ==> Settled(c, asOf, o.value.terminal.value);
  }

  /** Treated exactly by a visible successful attempt in time, and failed exactly by a visible unsuccessful one. */
  lemma TreatmentMeaning(s: Store, id: DecisionId, asOf: int)
    requires Inv(s) && id in s.cases
    ensures id in s.decisions && Evaluate(s, id, asOf).Ok?
    ensures var c, d, e := s.cases[id], s.decisions[id], Evaluate(s, id, asOf).value;
            && (e.treatment == Treated <==> exists a :: Treats(d, c, asOf, a))
            && (e.treatment == ExecutionFailed <==>
                  d.IsAct() && exists a :: Attempted(c, asOf, a) && a.status != Execution.SUCCESS)
            && (forall a :: Attempted(c, asOf, a) ==> e.simulatedExecution == a.simulated)
            && ((forall a :: !Attempted(c, asOf, a)) ==> e.simulatedExecution)
  {
    EvaluationSucceeds(s, id, asOf);
    var c, d := s.cases[id], s.decisions[id];
    var attempt, o := LatestAttempt(c, asOf), LatestObservation(c, asOf);
    StatusIsRedundant(c, d, asOf, o);
    forall a
      ensures Attempted(c, asOf, a) <==> attempt == Some(a)
    {
      LatestOfOne(c, asOf, a);
    }
    forall t
      ensures Settled(c, asOf, t) <==> o.Some? && o.value.terminal == Some(t)
    {
      LatestSettles(c, asOf, t);
    }
    if attempt.Some? {
      assert Attempted(c, asOf, attempt.value);
      TreatsExactly(d, c, asOf, attempt.value, o);
    }
  }

  lemma TreatsExactly(d: Decisioning.Decision, c: Case, asOf: int, a: Execution.ExecutionAttempt, o: Option<Observation>)
    requires Attempted(c, asOf, a)
    requires forall t :: Settled(c, asOf, t) <==> o.Some? && o.value.terminal == Some(t)
    ensures Treats(d, c, asOf, a) <==> Treatment(d, Execution.EXECUTING, Some(a), o) == Treated
  {
    if o.Some? && o.value.terminal.Some? {
      assert Settled(c, asOf, o.value.terminal.value);
    }
  }

  /** The probability on record, to four places. */
  lemma RiskMeaning(s: Store, id: DecisionId, asOf: int)
    requires Inv(s) && id in s.cases
    ensures id in s.decisions && Evaluate(s, id, asOf).Ok?
    ensures var p, p0 := PredictionOf(s, s.decisions[id]), Evaluate(s, id, asOf).value.p0;
            if p.Some? && p.value.probability.Some? then p0.Some? && IsFourPlaces(p.value.probability.value, p0.value)
            else p0 == None
  {
    EvaluationSucceeds(s, id, asOf);
    var p := PredictionOf(s, s.decisions[id]);
    if p.Some? && p.value.probability.Some? {
      FourPlacesIsNearest(p.value.probability.value, FourPlaces(p.value.probability.value));
    }
  }

  /** The decision cites a stored prediction with a probability. */
  predicate HasRisk(s: Store, d: Decisioning.Decision) {
    && d.predictionId.Some? && d.predictionId.value in s.predictions
    && s.predictions[d.predictionId.value].status == Predicted
    && s.predictions[d.predictionId.value].probability.Some?
  }

  /**
   * Which status an evaluation gets, from the evidence visible at the cutoff: the first that applies of no
   * outcome, no treatment, a failed execution and a failed payment; a treated and captured payment is
   * ATTRIBUTED exactly with a prediction and enough confidence.
   */
  lemma StatusFromEvidence(s: Store, id: DecisionId, asOf: int)
    requires Inv(s) && id in s.cases
    ensures id in s.decisions && Evaluate(s, id, asOf).Ok?
    ensures var c, d, r := s.cases[id], s.decisions[id], Evaluate(s, id, asOf).value.result;
            var treated := exists a :: Treats(d, c, asOf, a);
            var failed := d.IsAct() && exists a :: Attempted(c, asOf, a) && a.status != Execution.SUCCESS;
            var captured := exists t :: Settled(c, asOf, t) && t.event.kind == PaymentCaptured;
            && (r.status == UnresolvedInFlight <==> forall t :: !Settled(c, asOf, t))
            && (r.status == UnattributedUntreated <==> (exists t :: Settled(c, asOf, t)) && !treated && !failed)
            && (r.status == UnattributedExecutionFailed <==> (exists t :: Settled(c, asOf, t)) && failed)
            && (r.status == UnattributedPaymentFailed <==> (exists t :: Settled(c, asOf, t)) && treated && !captured)
            && (r.status == Attributed || r.status == IndeterminateInsufficientEvidence <==> treated && captured)
            && (r.status == Attributed <==> treated && captured && HasRisk(s, d) && r.confidence >= 0.25)
            && (r.confidence > 0.0 ==> treated && captured && HasRisk(s, d))
  {
    EvaluationSucceeds(s, id, asOf);
    OutcomeMeaning(s, id, asOf);
    TreatmentMeaning(s, id, asOf);
    var c, d, e := s.cases[id], s.decisions[id], Evaluate(s, id, asOf).value;
    var p, attempt := PredictionOf(s, d), LatestAttempt(c, asOf);
    StatusMeaning(e.amount, e.p0, e.treatment, e.outcome,
                  if p.Some? then ClassifyProvenance(p.value.model) else Provenance.Unknown,
                  if p.Some? then p.value.status else NotEligible, d.diagnosis,
                  TimingDelta(attempt, LatestObservation(c, asOf)), e.result);
  }

  // ---------------------------------------------------------------------------
  // Confidence and money
  // ---------------------------------------------------------------------------

  predicate OccursAt(s: string, part: string, i: nat) {
    i + |part| <= |s| && s[i..i + |part|] == part
  }

  /** "synthetic" from position i on, in letters of either case. */
  predicate SpellsSynthetic(s: string, i: nat) {
    i + 9 <= |s| && forall k :: 0 <= k < 9 ==> s[i + k] == "synthetic"[k] || s[i + k] == "SYNTHETIC"[k]
  }

  lemma SpelledInLowerCase(s: string, i: nat)
    ensures SpellsSynthetic(s, i) <==> OccursAt(LowerCase(s), "synthetic", i)
  {
    if i + 9 <= |s| {
      var lower := LowerCase(s);
      forall k | 0 <= k < 9
        ensures lower[i..i + 9][k] == "synthetic"[k] <==> s[i + k] == "synthetic"[k] || s[i + k] == "SYNTHETIC"[k]
      {
        assert lower[i + k] == if 'A' <= s[i + k] <= 'Z' then s[i + k] - 'A' + 'a' else s[i + k];
      }
      assert OccursAt(lower, "synthetic", i) <==> forall k :: 0 <= k < 9 ==> lower[i..i + 9][k] == "synthetic"[k];
    }
  }

  lemma {:induction false} ContainsMeaning(s: string, part: string)
    ensures Contains(s, part) <==> exists i: nat :: OccursAt(s, part, i)
  {
    if part <= s {
      assert OccursAt(s, part, 0);
    } else if s != "" {
      ContainsMeaning(s[1..], part);
      if i: nat :| OccursAt(s[1..], part, i) {
        assert s[i + 1..i + 1 + |part|] == s[1..][i..i + |part|];
        assert OccursAt(s, part, i + 1);
      }
      if i: nat :| OccursAt(s, part, i) {
        LaterOccurs(s, part, i);
      }
    }
  }

  lemma LaterOccurs(s: string, part: string, i: nat)
    requires OccursAt(s, part, i) && !(part <= s)
    ensures i > 0 && OccursAt(s[1..], part, i - 1)
  {
    assert OccursAt(s, part, 0) ==> part <= s;
    assert s[1..][i - 1..i - 1 + |part|] == s[i..i + |part|];
  }

  /** A development model is the baseline model or one whose name spells "synthetic"; no model is a verified one. */
  lemma ProvenanceMeaning(model: string)
    ensures ClassifyProvenance(model) == SyntheticDevelopment <==> IsDevelopment(model)
    ensures ClassifyProvenance(model) != EmpiricalProduction
  {
    ContainsMeaning(LowerCase(model), "synthetic");
    forall i: nat
      ensures SpellsSynthetic(model, i) <==> OccursAt(LowerCase(model), "synthetic", i)
    {
      SpelledInLowerCase(model, i);
    }
  }

  ghost predicate IsDevelopment(model: string) {
    model == "DeterministicBaselineModel" || exists i: nat :: SpellsSynthetic(model, i)
  }

  /** The discounts of an earned attribution: model, diagnosis, delay from completion to outcome. */
  ghost predicate Discounts(
    model: string, diagnosis: Option<EvidenceStrength>, delay: int, w: real, d: real, u: real)
  {
    && w == (if IsDevelopment(model) then 0.6 else 0.3)
    && d == (if diagnosis == Some(Strong) then 1.0 else if diagnosis == Some(Moderate) then 0.85
             else if diagnosis == Some(Weak) then 0.7 else 0.6)
    && u == (if delay <= 60 * SECOND then 1.0 else if delay <= 300 * SECOND then 0.85 else 0.6)
  }

  lemma DiscountsDecide(model: string, diagnosis: Option<EvidenceStrength>, delay: int, w: real, d: real, u: real)
    requires Discounts(model, diagnosis, delay, w, d, u)
    ensures IsFourPlaces(w * d * u, Alpha(ClassifyProvenance(model), diagnosis, Some(delay)))
  {
    ProvenanceMeaning(model);
    ConfidenceMeaning(ClassifyProvenance(model), diagnosis, Some(delay), w, d, u);
  }

  lemma FourPlacesTwice(x: real)
    ensures FourPlaces(FourPlaces(x)) == FourPlaces(x)
  {
    var n := HalfEven(x * 10000.0);
    assert FourPlaces(x) * 10000.0 == n as real;
    HalfEvenOfInteger(n);
  }

  /** The evaluation of an earned attribution. */
  lemma EarnedResult(s: Store, id: DecisionId, asOf: int, a: Execution.ExecutionAttempt, o: Observation)
    requires Inv(s) && id in s.cases && id in s.decisions && Earned(s, id, asOf, a, o)
    ensures Evaluate(s, id, asOf).Ok? && Evaluate(s, id, asOf).value.result.status == Attributed
    ensures var e, p := Evaluate(s, id, asOf).value, PredictionOf(s, s.decisions[id]).value;
            && e.p0 == Some(FourPlaces(p.probability.value))
            && e.result == CalculateAttribution(
                             e.amount, e.p0, Treated, Captured, ClassifyProvenance(p.model), Predicted,
                             s.decisions[id].diagnosis, Some(o.terminal.value.timestamp - a.completedAt))
  {
    EvaluationSucceeds(s, id, asOf);
    EarnedIsAttributed(s, id, asOf, a, o);
    var c := s.cases[id];
    LatestOfOne(c, asOf, a);
    LatestByMeaning(c.observations, ObservationVersion, ObservationStamp, asOf, o);
    assert ObservationFits(o, c.source, c.key);
  }

  lemma MoneyOfEvidence(
    amount: int, x: real, provenance: Provenance, diagnosis: Option<EvidenceStrength>, delay: int, r: Attribution)
    requires 0 <= amount && 0.0 <= x <= 1.0 && r.status == Attributed
    requires r == CalculateAttribution(amount, Some(FourPlaces(x)), Treated, Captured, provenance, Predicted, diagnosis,
                                       Some(delay))
    ensures IsFourPlaces(x, FourPlaces(x)) && IsMoneyOf(amount, FourPlaces(x), r)
    ensures r.confidence == Alpha(provenance, diagnosis, Some(delay))
  {
    FourPlacesStaysInUnit(x);
    FourPlacesIsNearest(x, FourPlaces(x));
    FourPlacesTwice(x);
    FourPlacesIsNearest(FourPlaces(x), FourPlaces(x));
    MoneyMeaning(amount, FourPlaces(x), FourPlaces(x), Treated, Captured, provenance, Predicted, diagnosis, Some(delay), r);
  }

  /**
   * The money of an earned attribution: the confidence is the rounded product of the three discounts, and the
   * protected revenue the rounded product of the amount, the probability to four places and that confidence.
   */
  lemma EarnedMoney(
    s: Store, id: DecisionId, asOf: int, a: Execution.ExecutionAttempt, o: Observation, w: real, d: real, u: real)
    returns (risk: real)
    requires Inv(s) && InRange(s) && id in s.cases && id in s.decisions && Earned(s, id, asOf, a, o)
    requires Discounts(PredictionOf(s, s.decisions[id]).value.model, s.decisions[id].diagnosis,
                       o.terminal.value.timestamp - a.completedAt, w, d, u)
    ensures Evaluate(s, id, asOf).Ok?
    ensures IsFourPlaces(PredictionOf(s, s.decisions[id]).value.probability.value, risk)
    ensures var e := Evaluate(s, id, asOf).value;
            && e.p0 == Some(risk) && e.result.status == Attributed
            && IsFourPlaces(w * d * u, e.result.confidence)
            && IsMoneyOf(e.amount, risk, e.result)
  {
    EarnedResult(s, id, asOf, a, o);
    AttributedShare(s, id, asOf);
    var e, p := Evaluate(s, id, asOf).value, PredictionOf(s, s.decisions[id]).value;
    risk := FourPlaces(p.probability.value);
    var delay := o.terminal.value.timestamp - a.completedAt;
    MoneyOfEvidence(e.amount, p.probability.value, ClassifyProvenance(p.model), s.decisions[id].diagnosis, delay, e.result);
    DiscountsDecide(p.model, s.decisions[id].diagnosis, delay, w, d, u);
  }
}

/** The queries of Stages 6 and 7 without a provider, against what the provider's own events say. */
module Sizing {
  import opened Common
  import opened Attempts
  import opened AttributionLedger
  import opened AttributionHistory
  import Decisioning
  import Execution

  // ---------------------------------------------------------------------------
  // Amounts
  // ---------------------------------------------------------------------------

  /** A trigger event in scope that is visible and ingested last. */
  ghost predicate Sizes(events: seq<StoredEvent>, source: Option<string>, key: string, cutoff: int, e: StoredEvent) {
    && e in events && InTriggerScope(e.event, source, key) && e.ingestedAt <= cutoff
    && forall x <- events :: InTriggerScope(x.event, source, key) && x.ingestedAt <= cutoff ==>
                               x.ingestedAt <= e.ingestedAt
  }

  lemma {:induction false} TriggerFound(events: seq<StoredEvent>, source: Option<string>, key: string, cutoff: int)
    ensures match LatestTrigger(events, source, key, cutoff)
            case Some(e) => Sizes(events, source, key, cutoff, e)
            case None => forall x <- events :: InTriggerScope(x.event, source, key) ==> x.ingestedAt > cutoff
  {
    if events != [] {
      assert events == events[..|events| - 1] + [events[|events| - 1]];
      TriggerFound(events[..|events| - 1], source, key, cutoff);
    }
  }

  /** No two trigger events in scope were ingested at the same time. */
  ghost predicate DistinctTriggers(events: seq<StoredEvent>, source: Option<string>, key: string) {
    forall i, j ::
      (0 <= i < j < |events| && InTriggerScope(events[i].event, source, key)
       && InTriggerScope(events[j].event, source, key)) ==> events[i].ingestedAt != events[j].ingestedAt
  }

  /** The amount is that of the one event that sizes, and zero without one. */
  lemma AmountMeaning(events: seq<StoredEvent>, source: Option<string>, key: string, cutoff: int, e: StoredEvent)
    requires DistinctTriggers(events, source, key)
    ensures LatestTrigger(events, source, key, cutoff) == Some(e) <==> Sizes(events, source, key, cutoff, e)
    ensures Sizes(events, source, key, cutoff, e) ==> AmountOf(LatestTrigger(events, source, key, cutoff)) == e.amount
    ensures (forall x <- events :: InTriggerScope(x.event, source, key) ==> x.ingestedAt > cutoff) ==>
              AmountOf(LatestTrigger(events, source, key, cutoff)) == 0
  {
    TriggerFound(events, source, key, cutoff);
    if Sizes(events, source, key, cutoff, e) {
      var found := LatestTrigger(events, source, key, cutoff).value;
      var i :| 0 <= i < |events| && events[i] == e;
      var j :| 0 <= j < |events| && events[j] == found;
    }
  }

  /** The latest visible trigger event of the key, whatever its provider, is the attempt's own. */
  predicate OwnIsLatest(events: seq<StoredEvent>, source: string, key: string, at: int) {
    var latest := LatestTrigger(events, None, key, at);
    latest.Some? ==> latest.value.event.source == source
  }

  lemma {:induction false} OwnWithinAll(events: seq<StoredEvent>, ref: AttemptRef, at: int)
    requires ref.Valid()
    ensures var all, own := LatestTrigger(events, None, ref.key, at), LatestTrigger(events, Some(ref.source), ref.key, at);
            && (own.Some? ==> own.value.event.source == ref.source)
            && (own.Some? ==> all.Some? && all.value.ingestedAt >= own.value.ingestedAt)
            && (all.Some? && all.value.event.source == ref.source ==> own == all)
  {
    if events != [] {
      var n := |events| - 1;
      OwnWithinAll(events[..n], ref, at);
      QueriesAgreeWithResolution(events[n].event, ref);
    }
  }

  /**
   * Stage 6 and Stage 8 read the same trigger event exactly when the latest visible one of the key is the
   * attempt's own, which for PayPal it always is.
   */
  lemma SameTrigger(events: seq<StoredEvent>, ref: AttemptRef, at: int)
    requires ref.Valid()
    ensures LatestTrigger(events, None, ref.key, at) == LatestTrigger(events, Some(ref.source), ref.key, at)
            <==> OwnIsLatest(events, ref.source, ref.key, at)
    ensures ref.source == PAYPAL ==> OwnIsLatest(events, ref.source, ref.key, at)
  {
    OwnWithinAll(events, ref, at);
    TriggerFound(events, None, ref.key, at);
    PayPalKeyRoundTrip(ref.reference);
  }

  /** A payment id shared by two providers: Stage 6 sizes from one authorization, Stage 8 attributes the other. */
  lemma SharedIdIsSizedTwice() returns (events: seq<StoredEvent>)
    ensures SizedAmount(events, "pay1", 3) == 900 && AmountAt(events, "razorpay", "pay1", 3) == 100
    ensures !OwnIsLatest(events, "razorpay", "pay1", 3)
  {
    var own := StoredEvent(Event(1, "razorpay", PaymentAuthorized, "pay1", None), 1, 100, 1);
    var foreign := StoredEvent(Event(2, "synthetic", PaymentAuthorized, "pay1", None), 2, 900, 2);
    events := [own, foreign];
    assert events[..1] == [own] && [own][..0] == [];
    assert !(PAYPAL_ATTEMPT_PREFIX <= "pay1");
    assert LatestTrigger([own], None, "pay1", 3) == Some(own);
    assert LatestTrigger([own], Some("razorpay"), "pay1", 3) == Some(own);
  }

  lemma {:induction false} TriggerStays(s: Store, ops: seq<Op>, source: Option<string>, key: string, at: int)
    requires forall op <- ops :: TriggerAfter(op, source, key, at)
    ensures LatestTrigger(ApplyAll(s, ops).events, source, key, at) == LatestTrigger(s.events, source, key, at)
  {
    if ops != [] {
      var n := |ops| - 1;
      assert forall op <- ops[..n] :: op in ops;
      TriggerStays(s, ops[..n], source, key, at);
      assert TriggerAfter(ops[n], source, key, at);
      StepKeepsTrigger(ApplyAll(s, ops[..n]), ops[n], source, key, at);
    }
  }

  /** The attempt of a command, rebuilt from its columns. */
  lemma CommandRef(s: Store, id: DecisionId) returns (ref: AttemptRef)
    requires Inv(s) && id in s.cases
    ensures ref.Valid() && ref.source == s.cases[id].source && ref.key == s.cases[id].key
    ensures ForKey(s.cases[id].source, s.cases[id].key) == Ok(ref)
    ensures id in s.decisions && s.decisions[id].attempt.source == ref.source && s.decisions[id].attempt.key == ref.key
  {
    assert Anchored(s, id, s.cases[id]);
    ref := ForKey(s.cases[id].source, s.cases[id].key).value;
    ForKeyIsExact(s.cases[id].source, s.cases[id].key, ref);
  }

  /**
   * A request sized from the store at its decision time, and whatever happens to the store afterwards: every
   * attribution from the decision on reads the event the decision was sized from exactly when that event was
   * the attempt's own, and then attributes the amount the decision was sized from. Trigger events stamped at
   * or before the decision must not arrive after it.
   */
  lemma SizedLikeDecision(s: Store, ops: seq<Op>, id: DecisionId, r: Decisioning.Request, asOf: int)
    requires Inv(s) && r.context.amount == SizedAmount(s.events, r.attempt.key, r.at)
    requires forall op <- ops :: TriggerAfter(op, None, r.attempt.key, r.at)
    requires id in ApplyAll(s, ops).cases && id in ApplyAll(s, ops).decisions && r.at <= asOf
    requires ApplyAll(s, ops).decisions[id].attempt == r.attempt && ApplyAll(s, ops).decisions[id].at == r.at
    ensures var s', own := ApplyAll(s, ops), OwnIsLatest(s.events, r.attempt.source, r.attempt.key, r.at);
            && Evaluate(s', id, asOf).Ok?
            && Evaluate(s', id, asOf).value.amount
               == AmountOf(LatestTrigger(s'.events, Some(r.attempt.source), r.attempt.key, r.at))
            && (own <==> LatestTrigger(s'.events, Some(r.attempt.source), r.attempt.key, r.at)
                         == LatestTrigger(s.events, None, r.attempt.key, r.at))
            && (own ==> Evaluate(s', id, asOf).value.amount == r.context.amount)
  {
    var s' := ApplyAll(s, ops);
    RunsKeepInv(s, ops);
    EvaluationSucceeds(s', id, asOf);
    var ref := CommandRef(s', id);
    forall op | op in ops
      ensures TriggerAfter(op, Some(ref.source), ref.key, r.at)
    {
      assert TriggerAfter(op, None, ref.key, r.at);
      if op.Ingest? {
        QueriesAgreeWithResolution(op.stored.event, ref);
      }
    }
    TriggerStays(s, ops, Some(ref.source), ref.key, r.at);
    SameTrigger(s.events, ref, r.at);
  }

  // ---------------------------------------------------------------------------
  // The pre-execution barrier
  // ---------------------------------------------------------------------------

  /** The event is resolved to the command's attempt as a terminal one. */
  predicate IsOwnTerminal(c: Case, e: StoredEvent) {
    var ref := ForKey(c.source, c.key);
    ref.Ok? && ResolvePipelineAttempt(e.event) == Ok(Some(PipelineAttempt(Terminal, ref.value)))
  }

  lemma OwnTerminalIsSeen(s: Store, id: DecisionId, claim: int, e: StoredEvent)
    requires Inv(s) && id in s.cases && e in s.events && e.ingestedAt <= claim
    requires IsOwnTerminal(s.cases[id], e)
    ensures TerminalSeen(s.events, s.cases[id].key, claim)
    ensures Known(s.registry, s.cases[id].source, s.cases[id].key).Ok?
  {
    assert Anchored(s, id, s.cases[id]);
    var ref := CommandRef(s, id);
    QueriesAgreeWithResolution(e.event, ref);
  }

  lemma SeenIsBarred(s: Store, id: DecisionId, claim: int, result: Execution.ExecutionResult)
    requires id in s.cases && s.cases[id].life.status == Execution.PENDING && TerminalSeen(s.events, s.cases[id].key, claim)
    requires Known(s.registry, s.cases[id].source, s.cases[id].key).Ok?
    ensures var s' := Executed(s, id, claim, result).0;
            && id in s'.cases && s'.cases[id].attempts == s.cases[id].attempts
            && s'.cases[id].life.status == (if claim >= s.cases[id].life.expiresAt then Execution.EXPIRED else Execution.NOT_NEEDED)
  {
  }

  /** A terminal event of the attempt that was ingested by the claim time stops the dispatch for good. */
  lemma BarrierStopsDispatch(
    s: Store, id: DecisionId, claim: int, result: Execution.ExecutionResult, e: StoredEvent, ops: seq<Op>)
    requires Inv(s) && id in s.cases && s.cases[id].life.status == Execution.PENDING
    requires e in s.events && e.ingestedAt <= claim && IsOwnTerminal(s.cases[id], e)
    ensures var s' := ApplyAll(Executed(s, id, claim, result).0, ops);
            && id in s'.cases && s'.cases[id].attempts == []
            && s'.cases[id].life.status == (if claim >= s.cases[id].life.expiresAt then Execution.EXPIRED else Execution.NOT_NEEDED)
  {
    assert RowsFit(s.cases[id]);
    OwnTerminalIsSeen(s, id, claim, e);
    SeenIsBarred(s, id, claim, result);
    FinalStays(Executed(s, id, claim, result).0, ops, id);
  }

  /** A terminal event of another non-PayPal provider with the payment id of the command. */
  predicate IsForeignTerminal(c: Case, e: StoredEvent) {
    var ref := ForKey(c.source, c.key);
    ref.Ok? && IsForeign(e.event, ref.value) && IsTerminal(e.event.kind)
  }

  lemma SeenDecides(s: Store, id: DecisionId, claim: int, result: Execution.ExecutionResult)
    requires id in s.cases && s.cases[id].life.status == Execution.PENDING && claim < s.cases[id].life.expiresAt
    requires Known(s.registry, s.cases[id].source, s.cases[id].key).Ok?
    ensures var s' := Executed(s, id, claim, result).0;
            id in s'.cases && (s'.cases[id].life.status == Execution.NOT_NEEDED <==> TerminalSeen(s.events, s.cases[id].key, claim))
  {
  }

  /**
   * Before its expiry a pending command ends as NOT_NEEDED exactly when a terminal event of its attempt, or of
   * another non-PayPal provider with the same payment id, was ingested by the claim time.
   */
  lemma BarrierExactly(s: Store, id: DecisionId, claim: int, result: Execution.ExecutionResult)
    requires Inv(s) && id in s.cases && s.cases[id].life.status == Execution.PENDING && claim < s.cases[id].life.expiresAt
    ensures id in Executed(s, id, claim, result).0.cases
    ensures Executed(s, id, claim, result).0.cases[id].life.status == Execution.NOT_NEEDED <==>
              exists e <- s.events ::
                e.ingestedAt <= claim && (IsOwnTerminal(s.cases[id], e) || IsForeignTerminal(s.cases[id], e))
  {
    var c := s.cases[id];
    assert Anchored(s, id, c);
    var ref := CommandRef(s, id);
    forall e | e in s.events
      ensures IsTerminalForKey(e.event, c.key) <==> IsOwnTerminal(c, e) || IsForeignTerminal(c, e)
    {
      QueriesAgreeWithResolution(e.event, ref);
    }
    SeenDecides(s, id, claim, result);
  }
}

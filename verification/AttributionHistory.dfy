/** Whole runs of Stages 7 and 8 on one store: what stays true, and what a cutoff hides. */
module AttributionHistory {
  import opened Common
  import opened Attempts
  import opened Execution
  import opened Money
  import opened VersionedRows
  import opened AttributionLedger
  import Decisioning
  import Ranking

  /** Everything that changes the store. Events, attempts, predictions and decisions come from other stages. */
  datatype Op =
    | Ingest(stored: StoredEvent)
    | Register(event: Event)
    | Predict(id: nat, prediction: Prediction)
    | Record(decision: Decisioning.Decision)
    | Create(decision: Decisioning.Decision, expiresIn: int, now: int)
    | Run(command: DecisionId, claim: int, result: ExecutionResult)
    | Watch(command: DecisionId, asOf: int)
    | Attribute(command: DecisionId, asOf: int)

  /** Stage 6 decides on a registered attempt and cites a stored prediction of the same provider. */
  predicate MayRecord(s: Store, d: Decisioning.Decision) {
    && IdOf(d) !in s.decisions
    && Known(s.registry, d.attempt.source, d.attempt.key).Ok?
    && (d.predictionId.Some? ==>
          d.predictionId.value in s.predictions && s.predictions[d.predictionId.value].source == d.attempt.source)
  }

  function Apply(s: Store, op: Op): Store {
    match op
    case Ingest(e) => s.(events := s.events + [e])
    case Register(e) => s.(registry := Registered(s.registry, e))
    case Predict(id, p) => if id in s.predictions then s else s.(predictions := s.predictions[id := p])
    case Record(d) => if MayRecord(s, d) then s.(decisions := s.decisions[IdOf(d) := d]) else s
    case Create(d, expiresIn, now) => Created(s, d, expiresIn, now).0
    case Run(id, claim, result) => Executed(s, id, claim, result).0
    case Watch(id, asOf) => Observed(s, id, asOf).0
    case Attribute(id, asOf) => AttributedTo(s, id, asOf).0
  }

  function ApplyAll(s: Store, ops: seq<Op>): Store {
    if ops == [] then s else Apply(ApplyAll(s, ops[..|ops| - 1]), ops[|ops| - 1])
  }

  // ---------------------------------------------------------------------------
  // What every operation keeps
  // ---------------------------------------------------------------------------

  predicate ObservationFits(o: Observation, source: string, key: string) {
    && o.source == source && o.key == key
    && (o.terminal.None? <==> o.outcome == UnknownInFlight)
    && (o.terminal.Some? ==>
          && IsTerminalFor(o.terminal.value.event, source, key)
          && o.terminal.value.ingestedAt <= o.asOf
          && (o.outcome == Captured <==> o.terminal.value.event.kind == PaymentCaptured))
  }

  ghost predicate RowsFit(c: Case) {
    && WellRecorded(c.life, c.attempts)
    && (forall a <- c.attempts :: a.source == c.source)
    && Dense(c.observations, ObservationVersion, ObservationStamp)
    && (forall o <- c.observations :: ObservationFits(o, c.source, c.key))
    && Dense(c.attributions, RowVersion, RowStamp)
  }

  /** The foreign keys of a command. */
  predicate Anchored(s: Store, id: DecisionId, c: Case) {
    && id in s.decisions && s.decisions[id].attempt.source == c.source && s.decisions[id].attempt.key == c.key
    && Known(s.registry, c.source, c.key).Ok?
  }

  predicate DecisionFits(s: Store, id: DecisionId, d: Decisioning.Decision) {
    && IdOf(d) == id
    && (d.predictionId.Some? ==>
          d.predictionId.value in s.predictions && s.predictions[d.predictionId.value].source == d.attempt.source)
  }

  ghost predicate Inv(s: Store) {
    && (forall id <- s.decisions :: DecisionFits(s, id, s.decisions[id]))
    && (forall id <- s.cases :: Anchored(s, id, s.cases[id]))
    && (forall id <- s.cases :: RowsFit(s.cases[id]))
  }

  lemma {:induction false} TerminalsMeaning(
    events: seq<StoredEvent>, source: string, key: string, asOf: int, e: StoredEvent)
    ensures e in Terminals(events, source, key, asOf) <==>
              e in events && IsTerminalFor(e.event, source, key) && e.ingestedAt <= asOf
  {
    if events != [] {
      var n := |events| - 1;
      assert events == events[..n] + [events[n]];
      TerminalsMeaning(events[..n], source, key, asOf, e);
    }
  }

  lemma InOrderMeaning(events: seq<StoredEvent>, source: string, key: string, asOf: int, e: StoredEvent)
    ensures e in TerminalsInOrder(events, source, key, asOf) <==>
              e in events && IsTerminalFor(e.event, source, key) && e.ingestedAt <= asOf
  {
    var found := Terminals(events, source, key, asOf);
    TerminalsMeaning(events, source, key, asOf, e);
    Ranking.SortSorts(IngestedFirst, found);
    assert e in TerminalsInOrder(events, source, key, asOf) <==> e in multiset(found);
  }

  lemma NewObservationFits(events: seq<StoredEvent>, c: Case, asOf: int)
    requires RowsFit(c) && !HasCutoff(c, asOf)
    ensures RowsFit(c.(observations := c.observations + [ObservationOf(events, c, asOf)]))
  {
    var o := ObservationOf(events, c, asOf);
    DenseAppend(c.observations, ObservationVersion, ObservationStamp, o);
    if o.terminal.Some? {
      InOrderMeaning(events, c.source, c.key, asOf, o.terminal.value);
    }
  }

  lemma {:induction false} RowAtMeaning(rows: seq<AttributionRow>, asOf: int)
    ensures match RowAt(rows, asOf)
            case Some(row) => row in rows && row.asOf == asOf
            case None => forall r <- rows :: r.asOf != asOf
  {
    if rows != [] && rows[0].asOf != asOf {
      RowAtMeaning(rows[1..], asOf);
    }
  }

  lemma NewAttributionFits(c: Case, asOf: int, evaluation: Evaluation)
    requires RowsFit(c) && RowAt(c.attributions, asOf).None?
    ensures RowsFit(c.(attributions := c.attributions +
                       [AttributionRow(TopVersion(c.attributions, RowVersion) + 1, asOf, evaluation)]))
  {
    RowAtMeaning(c.attributions, asOf);
    DenseAppend(c.attributions, RowVersion, RowStamp,
                AttributionRow(TopVersion(c.attributions, RowVersion) + 1, asOf, evaluation));
  }

  lemma RegistrationStays(registry: Registry, e: Event, source: string, key: string)
    requires Known(registry, source, key).Ok?
    ensures Known(Registered(registry, e), source, key) == Known(registry, source, key)
  {
  }

  /** One command's rows change, and nothing else. */
  predicate Touches(s: Store, s': Store, id: DecisionId) {
    && s'.events == s.events && s'.registry == s.registry && s'.predictions == s.predictions
    && s'.decisions == s.decisions && id in s'.cases
    && s'.cases == s.cases[id := s'.cases[id]]
  }

  lemma TouchKeepsInv(s: Store, s': Store, id: DecisionId)
    requires Inv(s) && Touches(s, s', id) && Anchored(s, id, s'.cases[id]) && RowsFit(s'.cases[id])
    ensures Inv(s')
  {
  }

  lemma CaseKeepsInv(s: Store, id: DecisionId, c: Case)
    requires Inv(s) && id in s.cases && RowsFit(c) && c.source == s.cases[id].source && c.key == s.cases[id].key
    ensures Inv(s.(cases := s.cases[id := c]))
  {
    assert Anchored(s, id, s.cases[id]);
    TouchKeepsInv(s, s.(cases := s.cases[id := c]), id);
  }

  lemma CreateKeepsInv(s: Store, d: Decisioning.Decision, expiresIn: int, now: int)
    requires Inv(s)
    ensures Inv(Created(s, d, expiresIn, now).0)
  {
    var s' := Created(s, d, expiresIn, now).0;
    if s' != s {
      assert DecisionFits(s, IdOf(d), s.decisions[IdOf(d)]);
      TouchKeepsInv(s, s', IdOf(d));
    }
  }

  lemma RunKeepsInv(s: Store, id: DecisionId, claim: int, result: ExecutionResult)
    requires Inv(s)
    ensures Inv(Executed(s, id, claim, result).0)
  {
    var s' := Executed(s, id, claim, result).0;
    if Executed(s, id, claim, result).1.Ok? {
      var c := s.cases[id];
      assert Anchored(s, id, c) && RowsFit(c);
      ExecuteKeepsRecord(c.life, c.attempts, DispatchOf(s, c, claim, result));
      TouchKeepsInv(s, s', id);
    }
  }

  lemma WatchKeepsInv(s: Store, id: DecisionId, asOf: int)
    requires Inv(s)
    ensures Inv(Observed(s, id, asOf).0)
  {
    var s' := Observed(s, id, asOf).0;
    if Observed(s, id, asOf).1.Ok? {
      assert Anchored(s, id, s.cases[id]) && RowsFit(s.cases[id]);
      NewObservationFits(s.events, s.cases[id], asOf);
      TouchKeepsInv(s, s', id);
    }
  }

  /** The store with one more attribution of the command. */
  predicate AddsRow(s: Store, s': Store, id: DecisionId, asOf: int, evaluation: Evaluation) {
    && id in s.cases && RowAt(s.cases[id].attributions, asOf).None?
    && var c := s.cases[id];
       var row := AttributionRow(TopVersion(c.attributions, RowVersion) + 1, asOf, evaluation);
       s' == s.(cases := s.cases[id := c.(attributions := c.attributions + [row])])
  }

  lemma AddedRowKeepsInv(s: Store, s': Store, id: DecisionId, asOf: int, evaluation: Evaluation)
    requires Inv(s) && AddsRow(s, s', id, asOf, evaluation)
    ensures Inv(s')
  {
    var c := s.cases[id];
    var row := AttributionRow(TopVersion(c.attributions, RowVersion) + 1, asOf, evaluation);
    var c' := c.(attributions := c.attributions + [row]);
    assert RowsFit(c) && Anchored(s, id, c);
    NewAttributionFits(c, asOf, evaluation);
    assert s'.cases[id] == c' && Touches(s, s', id);
    TouchKeepsInv(s, s', id);
  }

  /** An attribution changes nothing or adds one row, whatever its evaluation. */
  lemma AttributedAddsRow(s: Store, id: DecisionId, asOf: int) returns (evaluation: Option<Evaluation>)
    ensures var s' := AttributedTo(s, id, asOf).0;
            if evaluation.None? then s' == s else AddsRow(s, s', id, asOf, evaluation.value)
  {
    evaluation := None;
    if id in s.cases && RowAt(s.cases[id].attributions, asOf).None? && Evaluate(s, id, asOf).Ok? {
      evaluation := Some(Evaluate(s, id, asOf).value);
    }
  }

  lemma AttributeKeepsInv(s: Store, id: DecisionId, asOf: int)
    requires Inv(s)
    ensures Inv(AttributedTo(s, id, asOf).0)
  {
    var evaluation := AttributedAddsRow(s, id, asOf);
    if evaluation.Some? {
      AddedRowKeepsInv(s, AttributedTo(s, id, asOf).0, id, asOf, evaluation.value);
    }
  }

  lemma RegisterKeepsInv(s: Store, e: Event)
    requires Inv(s)
    ensures Inv(s.(registry := Registered(s.registry, e)))
  {
    var s' := s.(registry := Registered(s.registry, e));
    forall id | id in s.cases
      ensures Anchored(s', id, s.cases[id])
    {
      assert Anchored(s, id, s.cases[id]);
      RegistrationStays(s.registry, e, s.cases[id].source, s.cases[id].key);
    }
    assert forall id <- s.decisions :: DecisionFits(s, id, s.decisions[id]) ==> DecisionFits(s', id, s.decisions[id]);
  }

  /** Registrations, predictions and decisions are only added. */
  predicate Grows(s: Store, s': Store) {
    && (forall i <- s.predictions :: i in s'.predictions && s'.predictions[i] == s.predictions[i])
    && (forall id <- s.decisions :: id in s'.decisions && s'.decisions[id] == s.decisions[id])
  }

  lemma GrowthKeepsInv(s: Store, s': Store)
    requires Inv(s) && Grows(s, s') && s'.cases == s.cases && s'.registry == s.registry
    requires forall id <- s'.decisions :: id in s.decisions || DecisionFits(s', id, s'.decisions[id])
    ensures Inv(s')
  {
    forall id | id in s.decisions
      ensures DecisionFits(s', id, s'.decisions[id])
    {
      assert DecisionFits(s, id, s.decisions[id]);
    }
    forall id | id in s.cases
      ensures Anchored(s', id, s.cases[id])
    {
      assert Anchored(s, id, s.cases[id]);
    }
  }

  lemma IngestKeepsInv(s: Store, e: StoredEvent)
    requires Inv(s)
    ensures Inv(s.(events := s.events + [e]))
  {
    GrowthKeepsInv(s, s.(events := s.events + [e]));
  }

  lemma PredictKeepsInv(s: Store, id: nat, p: Prediction)
    requires Inv(s) && id !in s.predictions
    ensures Inv(s.(predictions := s.predictions[id := p]))
  {
    GrowthKeepsInv(s, s.(predictions := s.predictions[id := p]));
  }

  lemma RecordKeepsInv(s: Store, d: Decisioning.Decision)
    requires Inv(s) && MayRecord(s, d)
    ensures Inv(s.(decisions := s.decisions[IdOf(d) := d]))
  {
    GrowthKeepsInv(s, s.(decisions := s.decisions[IdOf(d) := d]));
  }

  /** Every operation keeps the store consistent. */
  lemma ApplyKeepsInv(s: Store, op: Op)
    requires Inv(s)
    ensures Inv(Apply(s, op))
  {
    match op
    case Ingest(e) => IngestKeepsInv(s, e);
    case Register(e) => RegisterKeepsInv(s, e);
    case Predict(id, p) => if id !in s.predictions { PredictKeepsInv(s, id, p); }
    case Record(d) => if MayRecord(s, d) { RecordKeepsInv(s, d); }
    case Create(d, expiresIn, now) => CreateKeepsInv(s, d, expiresIn, now);
    case Run(id, claim, result) => RunKeepsInv(s, id, claim, result);
    case Watch(id, asOf) => WatchKeepsInv(s, id, asOf);
    case Attribute(id, asOf) => AttributeKeepsInv(s, id, asOf);
  }

  /** Every store that any sequence of operations builds is consistent. */
  lemma {:induction false} RunsKeepInv(s: Store, ops: seq<Op>)
    requires Inv(s)
    ensures Inv(ApplyAll(s, ops))
  {
    if ops != [] {
      RunsKeepInv(s, ops[..|ops| - 1]);
      ApplyKeepsInv(ApplyAll(s, ops[..|ops| - 1]), ops[|ops| - 1]);
    }
  }

  // ---------------------------------------------------------------------------
  // A cutoff hides the future
  // ---------------------------------------------------------------------------

  /** Trigger events in scope that the operation ingests are stamped after the time. */
  predicate TriggerAfter(op: Op, source: Option<string>, key: string, at: int) {
    op.Ingest? && InTriggerScope(op.stored.event, source, key) ==> op.stored.ingestedAt > at
  }

  /**
   * What the operation adds to the command of the decision is stamped after the cutoff, and a trigger event of
   * its attempt after the earlier of decision and cutoff. Operations on other commands and attempts are free.
   */
  predicate After(op: Op, d: Decisioning.Decision, cutoff: int) {
    match op
    case Ingest(_) => TriggerAfter(op, Some(d.attempt.source), d.attempt.key, Min(d.at, cutoff))
    case Run(command, claim, result) => command == IdOf(d) ==> claim + result.durationMs * 1000 > cutoff
    case Watch(command, asOf) => command == IdOf(d) ==> asOf > cutoff
    case _ => true
  }

  /** The current status adds nothing to the attempt rows visible at the cutoff. */
  lemma StatusIsRedundant(c: Case, d: Decisioning.Decision, asOf: int, observation: Option<Observation>)
    requires WellRecorded(c.life, c.attempts)
    ensures Treatment(d, c.life.status, LatestAttempt(c, asOf), observation)
            == Treatment(d, EXECUTING, LatestAttempt(c, asOf), observation)
  {
    LatestByFinds(c.attempts, AttemptNumber, AttemptStamp, asOf);
  }

  /** The rows of a command look the same at the cutoff. */
  predicate SameRows(c: Case, c': Case, cutoff: int) {
    && c'.source == c.source && c'.key == c.key
    && LatestAttempt(c', cutoff) == LatestAttempt(c, cutoff)
    && LatestObservation(c', cutoff) == LatestObservation(c, cutoff)
  }

  lemma AppendedLater<T>(rows: seq<T>, version: T -> nat, stamp: T -> int, cutoff: int, row: T)
    requires stamp(row) > cutoff
    ensures LatestBy(rows + [row], version, stamp, cutoff) == LatestBy(rows, version, stamp, cutoff)
  {
    assert (rows + [row])[..|rows|] == rows;
  }

  lemma RunKeepsRows(s: Store, id: DecisionId, claim: int, result: ExecutionResult, cutoff: int)
    requires id in s.cases && claim + result.durationMs * 1000 > cutoff
    ensures var s' := Executed(s, id, claim, result).0;
            id in s'.cases && SameRows(s.cases[id], s'.cases[id], cutoff)
  {
    var c := s.cases[id];
    var d := DispatchOf(s, c, claim, result);
    AppendedLater(c.attempts, AttemptNumber, AttemptStamp, cutoff, AttemptFor(d, MaxNumber(c.attempts) + 1));
  }

  lemma WatchKeepsRows(s: Store, id: DecisionId, asOf: int, cutoff: int)
    requires id in s.cases && asOf > cutoff
    ensures var s' := Observed(s, id, asOf).0;
            id in s'.cases && SameRows(s.cases[id], s'.cases[id], cutoff)
  {
    var c := s.cases[id];
    AppendedLater(c.observations, ObservationVersion, ObservationStamp, cutoff, ObservationOf(s.events, c, asOf));
  }

  lemma StepKeepsRows(s: Store, op: Op, id: DecisionId, d: Decisioning.Decision, cutoff: int)
    requires id in s.cases && IdOf(d) == id && After(op, d, cutoff)
    ensures id in Apply(s, op).cases && SameRows(s.cases[id], Apply(s, op).cases[id], cutoff)
  {
    if op.Run? && op.command == id {
      RunKeepsRows(s, id, op.claim, op.result, cutoff);
    } else if op.Watch? && op.command == id {
      WatchKeepsRows(s, id, op.asOf, cutoff);
    }
  }

  lemma LaterTrigger(events: seq<StoredEvent>, more: seq<StoredEvent>, source: Option<string>, key: string, at: int)
    requires |more| <= 1 && forall e <- more :: InTriggerScope(e.event, source, key) ==> e.ingestedAt > at
    ensures LatestTrigger(events + more, source, key, at) == LatestTrigger(events, source, key, at)
  {
    if more == [] {
      assert events + more == events;
    } else {
      assert (events + more)[..|events|] == events;
    }
  }

  /** Only the commands of the store may differ. */
  predicate OnlyCases(s: Store, s': Store) {
    s' == s.(cases := s'.cases)
  }

  lemma CommandsStepKeepsRest(s: Store, op: Op)
    requires op.Create? || op.Run? || op.Watch? || op.Attribute?
    ensures OnlyCases(s, Apply(s, op))
  {
  }

  lemma StepGrows(s: Store, op: Op)
    ensures Grows(s, Apply(s, op))
    ensures Apply(s, op).registry == if op.Register? then Registered(s.registry, op.event) else s.registry
    ensures Apply(s, op).events == s.events + (if op.Ingest? then [op.stored] else [])
  {
    if op.Create? || op.Run? || op.Watch? || op.Attribute? {
      CommandsStepKeepsRest(s, op);
    }
  }

  /** One operation keeps the trigger event visible at a time. */
  lemma StepKeepsTrigger(s: Store, op: Op, source: Option<string>, key: string, at: int)
    requires TriggerAfter(op, source, key, at)
    ensures LatestTrigger(Apply(s, op).events, source, key, at) == LatestTrigger(s.events, source, key, at)
  {
    StepGrows(s, op);
    LaterTrigger(s.events, if op.Ingest? then [op.stored] else [], source, key, at);
  }

  lemma StepKeepsContext(s: Store, op: Op, s': Store, id: DecisionId)
    requires Inv(s) && id in s.cases
    requires Grows(s, s')
    requires s'.registry == if op.Register? then Registered(s.registry, op.event) else s.registry
    ensures id in s.decisions && id in s'.decisions && s'.decisions[id] == s.decisions[id]
    ensures PredictionOf(s', s.decisions[id]) == PredictionOf(s, s.decisions[id])
    ensures Known(s'.registry, s.cases[id].source, s.cases[id].key)
            == Known(s.registry, s.cases[id].source, s.cases[id].key)
  {
    assert Anchored(s, id, s.cases[id]) && DecisionFits(s, id, s.decisions[id]);
    if op.Register? {
      RegistrationStays(s.registry, op.event, s.cases[id].source, s.cases[id].key);
    }
  }

  /** On a consistent store the evaluation never fails. */
  lemma EvaluationSucceeds(s: Store, id: DecisionId, asOf: int)
    requires Inv(s) && id in s.cases
    ensures id in s.decisions
    ensures var c, d := s.cases[id], s.decisions[id];
            && RowsFit(c)
            && Evaluate(s, id, asOf)
               == Ok(Measure(d, c.life.status, LatestAttempt(c, asOf), LatestObservation(c, asOf), PredictionOf(s, d),
                             AmountAt(s.events, c.source, c.key, Min(d.at, asOf))))
  {
    var c := s.cases[id];
    assert Anchored(s, id, c) && RowsFit(c) && DecisionFits(s, id, s.decisions[id]);
    LatestByFinds(c.attempts, AttemptNumber, AttemptStamp, asOf);
    LatestByFinds(c.observations, ObservationVersion, ObservationStamp, asOf);
    assert LatestObservation(c, asOf).Some? ==> ObservationFits(LatestObservation(c, asOf).value, c.source, c.key);
  }

  /** The stores show the same evidence on a command at the cutoff. */
  ghost predicate SameEvidence(s: Store, s': Store, id: DecisionId, cutoff: int) {
    && id in s.cases && id in s'.cases && SameRows(s.cases[id], s'.cases[id], cutoff)
    && id in s.decisions && id in s'.decisions && s'.decisions[id] == s.decisions[id]
    && PredictionOf(s', s.decisions[id]) == PredictionOf(s, s.decisions[id])
    && var c, at := s.cases[id], Min(s.decisions[id].at, cutoff);
       LatestTrigger(s'.events, Some(c.source), c.key, at) == LatestTrigger(s.events, Some(c.source), c.key, at)
  }

  lemma EvidenceDecides(s: Store, s': Store, id: DecisionId, cutoff: int)
    requires Inv(s) && Inv(s') && SameEvidence(s, s', id, cutoff)
    ensures Evaluate(s', id, cutoff) == Evaluate(s, id, cutoff)
  {
    var c, c', d := s.cases[id], s'.cases[id], s.decisions[id];
    EvaluationSucceeds(s, id, cutoff);
    EvaluationSucceeds(s', id, cutoff);
    StatusIsRedundant(c, d, cutoff, LatestObservation(c, cutoff));
    StatusIsRedundant(c', d, cutoff, LatestObservation(c, cutoff));
  }

  lemma StepKeepsEvidence(s: Store, op: Op, id: DecisionId, cutoff: int)
    requires Inv(s) && id in s.cases && id in s.decisions && After(op, s.decisions[id], cutoff)
    ensures SameEvidence(s, Apply(s, op), id, cutoff)
  {
    var c, d := s.cases[id], s.decisions[id];
    assert Anchored(s, id, c) && DecisionFits(s, id, d);
    StepKeepsRows(s, op, id, d, cutoff);
    StepGrows(s, op);
    StepKeepsContext(s, op, Apply(s, op), id);
    StepKeepsTrigger(s, op, Some(c.source), c.key, Min(d.at, cutoff));
  }

  lemma {:induction false} RunsKeepEvidence(s: Store, ops: seq<Op>, id: DecisionId, cutoff: int)
    requires Inv(s) && id in s.cases && id in s.decisions
    requires forall op <- ops :: After(op, s.decisions[id], cutoff)
    ensures SameEvidence(s, ApplyAll(s, ops), id, cutoff)
  {
    if ops != [] {
      var n := |ops| - 1;
      assert forall op <- ops[..n] :: op in ops;
      RunsKeepEvidence(s, ops[..n], id, cutoff);
      RunsKeepInv(s, ops[..n]);
      assert After(ops[n], s.decisions[id], cutoff);
      StepKeepsEvidence(ApplyAll(s, ops[..n]), ops[n], id, cutoff);
    }
  }

  /**
   * Whatever happens to the store afterwards, evaluating a command as of a cutoff gives the same treatment,
   * outcome, money and confidence, as long as nothing of the command itself is stamped at or before the
   * cutoff and no trigger event of its attempt arrives late. This holds although the evaluation reads the
   * command's current status.
   */
  lemma {:induction false} AsOfIgnoresFuture(s: Store, ops: seq<Op>, id: DecisionId, cutoff: int)
    requires Inv(s) && id in s.cases && id in s.decisions
    requires forall op <- ops :: After(op, s.decisions[id], cutoff)
    ensures id in ApplyAll(s, ops).cases
    ensures Evaluate(ApplyAll(s, ops), id, cutoff) == Evaluate(s, id, cutoff)
  {
    RunsKeepInv(s, ops);
    RunsKeepEvidence(s, ops, id, cutoff);
    EvidenceDecides(s, ApplyAll(s, ops), id, cutoff);
  }

  lemma {:induction false} RowAtOfAppend(rows: seq<AttributionRow>, asOf: int, row: AttributionRow)
    ensures RowAt(rows + [row], asOf)
            == if RowAt(rows, asOf).Some? then RowAt(rows, asOf)
               else if row.asOf == asOf then Some(row) else None
  {
    if rows != [] {
      assert (rows + [row])[1..] == rows[1..] + [row];
      RowAtOfAppend(rows[1..], asOf, row);
    }
  }

  lemma StepKeepsAttribution(s: Store, op: Op, id: DecisionId, asOf: int)
    requires id in s.cases && RowAt(s.cases[id].attributions, asOf).Some?
    ensures id in Apply(s, op).cases
    ensures RowAt(Apply(s, op).cases[id].attributions, asOf) == RowAt(s.cases[id].attributions, asOf)
  {
    if op.Attribute? && op.command == id && Apply(s, op) != s {
      var rows := s.cases[id].attributions;
      RowAtOfAppend(rows, asOf, AttributionRow(TopVersion(rows, RowVersion) + 1, op.asOf, Evaluate(s, id, op.asOf).value));
    }
  }

  lemma {:induction false} RunsKeepAttribution(s: Store, ops: seq<Op>, id: DecisionId, asOf: int)
    requires id in s.cases && RowAt(s.cases[id].attributions, asOf).Some?
    ensures id in ApplyAll(s, ops).cases
    ensures RowAt(ApplyAll(s, ops).cases[id].attributions, asOf) == RowAt(s.cases[id].attributions, asOf)
  {
    if ops != [] {
      RunsKeepAttribution(s, ops[..|ops| - 1], id, asOf);
      StepKeepsAttribution(ApplyAll(s, ops[..|ops| - 1]), ops[|ops| - 1], id, asOf);
    }
  }

  /** A row that was not stored before holds the evaluation and comes last. */
  lemma NewRow(s: Store, id: DecisionId, cutoff: int, row: AttributionRow)
    requires id in s.cases && RowAt(s.cases[id].attributions, cutoff).None?
    requires AttributedTo(s, id, cutoff).1 == Ok(row)
    ensures var s1 := AttributedTo(s, id, cutoff).0;
            id in s1.cases && s1.cases[id].attributions == s.cases[id].attributions + [row]
    ensures row.asOf == cutoff && Evaluate(s, id, cutoff) == Ok(row.evaluation)
  {
  }

  lemma StoredRowStays(s: Store, id: DecisionId, cutoff: int, row: AttributionRow, ops: seq<Op>)
    requires id in s.cases && RowAt(s.cases[id].attributions, cutoff).None?
    requires AttributedTo(s, id, cutoff).1 == Ok(row)
    ensures var s' := ApplyAll(AttributedTo(s, id, cutoff).0, ops);
            id in s'.cases && RowAt(s'.cases[id].attributions, cutoff) == Some(row)
  {
    NewRow(s, id, cutoff, row);
    RowAtOfAppend(s.cases[id].attributions, cutoff, row);
    RunsKeepAttribution(AttributedTo(s, id, cutoff).0, ops, id, cutoff);
  }

  lemma AskedAgain(s: Store, id: DecisionId, cutoff: int, row: AttributionRow)
    requires id in s.cases && RowAt(s.cases[id].attributions, cutoff) == Some(row)
    ensures AttributedTo(s, id, cutoff) == (s, Ok(row))
  {
  }

  lemma StoringKeepsEvidence(s: Store, id: DecisionId, cutoff: int)
    requires Inv(s) && id in s.cases && id in s.decisions
    ensures var s1 := AttributedTo(s, id, cutoff).0; Inv(s1) && SameEvidence(s, s1, id, cutoff)
  {
    AttributeKeepsInv(s, id, cutoff);
    StepKeepsEvidence(s, Attribute(id, cutoff), id, cutoff);
  }

  /** Neither storing an attribution nor what is stamped later changes the evaluation. */
  lemma StoringKeepsEvaluation(s: Store, id: DecisionId, cutoff: int, ops: seq<Op>)
    requires Inv(s) && id in s.cases && id in s.decisions
    requires forall op <- ops :: After(op, s.decisions[id], cutoff)
    ensures Evaluate(ApplyAll(AttributedTo(s, id, cutoff).0, ops), id, cutoff) == Evaluate(s, id, cutoff)
  {
    var s1 := AttributedTo(s, id, cutoff).0;
    StoringKeepsEvidence(s, id, cutoff);
    RunsKeepInv(s1, ops);
    RunsKeepEvidence(s1, ops, id, cutoff);
    EvidenceDecides(s, ApplyAll(s1, ops), id, cutoff);
  }

  lemma StoredRowIsFresh(s: Store, id: DecisionId, cutoff: int, row: AttributionRow, ops: seq<Op>)
    requires Inv(s) && id in s.cases && id in s.decisions && RowAt(s.cases[id].attributions, cutoff).None?
    requires AttributedTo(s, id, cutoff).1 == Ok(row)
    requires forall op <- ops :: After(op, s.decisions[id], cutoff)
    ensures Evaluate(ApplyAll(AttributedTo(s, id, cutoff).0, ops), id, cutoff) == Ok(row.evaluation)
  {
    NewRow(s, id, cutoff, row);
    StoringKeepsEvaluation(s, id, cutoff, ops);
  }

  /**
   * An attribution stored for a cutoff is never rewritten, and asking again returns that row; it still
   * equals a fresh evaluation while only later-stamped records of the command and its attempt arrive.
   */
  lemma StoredAttributionStaysCorrect(s: Store, id: DecisionId, cutoff: int, row: AttributionRow, ops: seq<Op>)
    requires Inv(s) && id in s.cases && id in s.decisions && RowAt(s.cases[id].attributions, cutoff).None?
    requires AttributedTo(s, id, cutoff).1 == Ok(row)
    ensures var s' := ApplyAll(AttributedTo(s, id, cutoff).0, ops);
            && AttributedTo(s', id, cutoff) == (s', Ok(row))
            && ((forall op <- ops :: After(op, s.decisions[id], cutoff)) ==>
                  Evaluate(s', id, cutoff) == Ok(row.evaluation))
  {
    var s' := ApplyAll(AttributedTo(s, id, cutoff).0, ops);
    StoredRowStays(s, id, cutoff, row, ops);
    AskedAgain(s', id, cutoff, row);
    if forall op <- ops :: After(op, s.decisions[id], cutoff) {
      StoredRowIsFresh(s, id, cutoff, row, ops);
    }
  }

  // ---------------------------------------------------------------------------
  // Where commands come from
  // ---------------------------------------------------------------------------

  /** The immutable columns of a command. */
  predicate SameCommand(c: Case, c': Case) {
    && c'.source == c.source && c'.key == c.key && c'.route == c.route
    && c'.life.createdAt == c.life.createdAt && c'.life.expiresAt == c.life.expiresAt
  }

  lemma RunKeepsCommand(s: Store, command: DecisionId, claim: int, result: ExecutionResult, id: DecisionId)
    requires id in s.cases
    ensures var s' := Executed(s, command, claim, result).0; id in s'.cases && SameCommand(s.cases[id], s'.cases[id])
  {
  }

  lemma StepKeepsCommand(s: Store, op: Op, id: DecisionId)
    requires id in s.cases
    ensures id in Apply(s, op).cases && SameCommand(s.cases[id], Apply(s, op).cases[id])
  {
    match op
    case Create(d, expiresIn, now) => CreatedExactly(s, d, expiresIn, now);
    case Run(command, claim, result) => RunKeepsCommand(s, command, claim, result, id);
    case Ingest(_) =>
    case Register(_) =>
    case Predict(_, _) =>
    case Record(_) =>
    case Watch(_, _) =>
    case Attribute(_, _) =>
  }

  /** The i-th operation creates the command c for an executable, stored decision. */
  predicate Creates(s: Store, ops: seq<Op>, i: nat, id: DecisionId, c: Case)
    requires i < |ops|
  {
    && ops[i].Create? && IdOf(ops[i].decision) == id
    && Executable(ApplyAll(s, ops[..i]), ops[i].decision) && HasDecision(ApplyAll(s, ops[..i]), ops[i].decision)
    && c.source == ops[i].decision.attempt.source && Some(c.route) == ops[i].decision.judgement.route
    && c.life.createdAt == ops[i].now && c.life.expiresAt == ops[i].now + ops[i].expiresIn * SECOND
  }

  lemma StepMakesCommand(s: Store, op: Op, id: DecisionId)
    requires id in Apply(s, op).cases && id !in s.cases
    ensures op.Create? && IdOf(op.decision) == id && Executable(s, op.decision) && HasDecision(s, op.decision)
    ensures var c := Apply(s, op).cases[id];
            && c.source == op.decision.attempt.source && Some(c.route) == op.decision.judgement.route
            && c.life.createdAt == op.now && c.life.expiresAt == op.now + op.expiresIn * SECOND
  {
    if op.Create? {
      CreatedExactly(s, op.decision, op.expiresIn, op.now);
    }
  }

  /** Every command of a run was created, and never changed since, by a create_command of a passed ACT decision. */
  lemma {:induction false} CommandOrigin(s: Store, ops: seq<Op>, id: DecisionId) returns (i: nat)
    requires id in ApplyAll(s, ops).cases && id !in s.cases
    ensures i < |ops| && Creates(s, ops, i, id, ApplyAll(s, ops).cases[id])
  {
    var n := |ops| - 1;
    var before := ApplyAll(s, ops[..n]);
    if id in before.cases {
      i := CommandOrigin(s, ops[..n], id);
      StepKeepsCommand(before, ops[n], id);
      assert ops[..n][..i] == ops[..i];
    } else {
      i := n;
      StepMakesCommand(before, ops[n], id);
    }
  }

  // ---------------------------------------------------------------------------
  // Final commands
  // ---------------------------------------------------------------------------

  lemma StepKeepsFinal(s: Store, op: Op, id: DecisionId)
    requires id in s.cases && IsFinal(s.cases[id].life.status)
    ensures var s' := Apply(s, op);
            id in s'.cases && s'.cases[id].life == s.cases[id].life && s'.cases[id].attempts == s.cases[id].attempts
  {
  }

  /** No sequence of operations changes a final command or its attempts. */
  lemma {:induction false} FinalStays(s: Store, ops: seq<Op>, id: DecisionId)
    requires id in s.cases && IsFinal(s.cases[id].life.status)
    ensures var s' := ApplyAll(s, ops);
            id in s'.cases && s'.cases[id].life == s.cases[id].life && s'.cases[id].attempts == s.cases[id].attempts
  {
    if ops != [] {
      FinalStays(s, ops[..|ops| - 1], id);
      StepKeepsFinal(ApplyAll(s, ops[..|ops| - 1]), ops[|ops| - 1], id);
    }
  }

  // ---------------------------------------------------------------------------
  // When money is attributed
  // ---------------------------------------------------------------------------

  /** The evidence that earns an attribution: every condition of Stages 5 to 8 at once. */
  ghost predicate Earned(s: Store, id: DecisionId, asOf: int, a: ExecutionAttempt, o: Observation)
    requires id in s.cases && id in s.decisions
  {
    var c, d, p := s.cases[id], s.decisions[id], PredictionOf(s, s.decisions[id]);
    && d.IsAct()
    && a in c.attempts && a.createdAt <= asOf && a.status == SUCCESS
    && IsLatest(c.observations, ObservationVersion, ObservationStamp, asOf, o)
    && o.terminal.Some? && o.terminal.value.event.kind == PaymentCaptured
    && o.terminal.value.timestamp >= a.completedAt
    && p.Some? && p.value.status == Predicted && p.value.probability.Some?
    && Alpha(ClassifyProvenance(p.value.model), d.diagnosis, Some(o.terminal.value.timestamp - a.completedAt))
       >= CONFIDENCE_FLOOR
  }

  lemma LatestOfOne(c: Case, asOf: int, a: ExecutionAttempt)
    requires WellRecorded(c.life, c.attempts)
    ensures LatestAttempt(c, asOf) == Some(a) <==> a in c.attempts && a.createdAt <= asOf
    ensures a in c.attempts && a.status == SUCCESS ==> c.life.status == SUCCEEDED
  {
    LatestByFinds(c.attempts, AttemptNumber, AttemptStamp, asOf);
  }

  lemma AttributedIsEarned(s: Store, id: DecisionId, asOf: int)
    requires Inv(s) && id in s.cases
    requires Evaluate(s, id, asOf).Ok? && Evaluate(s, id, asOf).value.result.status == Attributed
    ensures id in s.decisions && s.cases[id].life.status == SUCCEEDED
    ensures exists a, o :: Earned(s, id, asOf, a, o)
  {
    EvaluationSucceeds(s, id, asOf);
    var c := s.cases[id];
    var attempt, observation := LatestAttempt(c, asOf), LatestObservation(c, asOf);
    LatestByFinds(c.observations, ObservationVersion, ObservationStamp, asOf);
    LatestOfOne(c, asOf, attempt.value);
    assert ObservationFits(observation.value, c.source, c.key);
    assert Earned(s, id, asOf, attempt.value, observation.value);
  }

  lemma EarnedIsAttributed(s: Store, id: DecisionId, asOf: int, a: ExecutionAttempt, o: Observation)
    requires Inv(s) && id in s.cases && id in s.decisions && Earned(s, id, asOf, a, o)
    ensures Evaluate(s, id, asOf).Ok? && Evaluate(s, id, asOf).value.result.status == Attributed
  {
    EvaluationSucceeds(s, id, asOf);
    var c := s.cases[id];
    LatestOfOne(c, asOf, a);
    LatestByMeaning(c.observations, ObservationVersion, ObservationStamp, asOf, o);
    assert ObservationFits(o, c.source, c.key);
  }

  /**
   * Money is attributed exactly when every piece of evidence is there; in every other case all money fields
   * are zero.
   */
  lemma AttributedExactlyWhenEarned(s: Store, id: DecisionId, asOf: int)
    requires Inv(s) && id in s.cases
    ensures id in s.decisions && Evaluate(s, id, asOf).Ok?
    ensures var r := Evaluate(s, id, asOf).value.result;
            && (r.status == Attributed <==> exists a, o :: Earned(s, id, asOf, a, o))
            && (r.status != Attributed ==> r.exposure == 0 && r.naturalSuccess == 0 && r.protectedGmv == 0)
  {
    EvaluationSucceeds(s, id, asOf);
    if Evaluate(s, id, asOf).value.result.status == Attributed {
      AttributedIsEarned(s, id, asOf);
    }
    if a, o :| Earned(s, id, asOf, a, o) {
      EarnedIsAttributed(s, id, asOf, a, o);
    }
  }

  lemma AlphaFloor(p: Provenance, diagnosis: Option<EvidenceStrength>, delta: int)
    requires p == SyntheticDevelopment || p == Provenance.Unknown
    ensures Alpha(p, diagnosis, Some(delta)) >= CONFIDENCE_FLOOR <==>
              if p == SyntheticDevelopment then diagnosis.Some? || delta <= 300 * SECOND
              else (diagnosis == Some(Strong) && delta <= 300 * SECOND)
                   || (diagnosis == Some(Moderate) && delta <= 60 * SECOND)
    ensures Alpha(p, diagnosis, Some(delta)) <= 0.6
  {
  }

  /**
   * Which evidence reaches the confidence floor. A development model fails it only without a diagnosis more
   * than 300 seconds after execution; an unknown model needs a strong diagnosis within 300 seconds or a
   * moderate one within 60.
   */
  lemma FloorReached(model: string, diagnosis: Option<EvidenceStrength>, delta: int)
    ensures Alpha(ClassifyProvenance(model), diagnosis, Some(delta)) >= CONFIDENCE_FLOOR <==>
              if ClassifyProvenance(model) == SyntheticDevelopment then diagnosis.Some? || delta <= 300 * SECOND
              else (diagnosis == Some(Strong) && delta <= 300 * SECOND)
                   || (diagnosis == Some(Moderate) && delta <= 60 * SECOND)
    ensures Alpha(ClassifyProvenance(model), diagnosis, Some(delta)) <= 0.6
  {
    AlphaFloor(ClassifyProvenance(model), diagnosis, delta);
  }

  // ---------------------------------------------------------------------------
  // Outcomes are sticky
  // ---------------------------------------------------------------------------

  /** No two terminal events of the attempt were ingested at the same time. */
  ghost predicate DistinctTimes(events: seq<StoredEvent>, source: string, key: string) {
    forall i, j ::
      (0 <= i < j < |events| && IsTerminalFor(events[i].event, source, key)
       && IsTerminalFor(events[j].event, source, key)) ==> events[i].ingestedAt != events[j].ingestedAt
  }

  /** The earliest visible terminal event of the attempt. */
  ghost predicate IsFirst(events: seq<StoredEvent>, source: string, key: string, asOf: int, e: StoredEvent) {
    && e in events && IsTerminalFor(e.event, source, key) && e.ingestedAt <= asOf
    && forall x <- events :: IsTerminalFor(x.event, source, key) ==> e.ingestedAt <= x.ingestedAt
  }

  /** The head of the ordered terminal events is the earliest visible one. */
  lemma HeadIsFirst(events: seq<StoredEvent>, source: string, key: string, asOf: int)
    requires TerminalsInOrder(events, source, key, asOf) != []
    ensures IsFirst(events, source, key, asOf, TerminalsInOrder(events, source, key, asOf)[0])
  {
    var terminals := TerminalsInOrder(events, source, key, asOf);
    Ranking.SortSorts(IngestedFirst, Terminals(events, source, key, asOf));
    InOrderMeaning(events, source, key, asOf, terminals[0]);
    forall x | x in events && IsTerminalFor(x.event, source, key)
      ensures terminals[0].ingestedAt <= x.ingestedAt
    {
      InOrderMeaning(events, source, key, asOf, x);
      if x.ingestedAt <= asOf {
        var k :| 0 <= k < |terminals| && terminals[k] == x;
        assert k > 0 ==> IngestedFirst(terminals[0], terminals[k]);
      }
    }
  }

  lemma FirstIsUnique(events: seq<StoredEvent>, source: string, key: string, asOf: int, a: StoredEvent, b: StoredEvent)
    requires DistinctTimes(events, source, key)
    requires IsFirst(events, source, key, asOf, a) && IsFirst(events, source, key, asOf, b)
    ensures a == b
  {
    var i :| 0 <= i < |events| && events[i] == a;
    var j :| 0 <= j < |events| && events[j] == b;
  }

  lemma FirstDecides(events: seq<StoredEvent>, c: Case, asOf: int, e: StoredEvent)
    requires DistinctTimes(events, c.source, c.key)
    ensures ObservationOf(events, c, asOf).terminal == Some(e) <==> IsFirst(events, c.source, c.key, asOf, e)
  {
    var terminals := TerminalsInOrder(events, c.source, c.key, asOf);
    if terminals != [] {
      HeadIsFirst(events, c.source, c.key, asOf);
      if IsFirst(events, c.source, c.key, asOf, e) {
        FirstIsUnique(events, c.source, c.key, asOf, e, terminals[0]);
      }
    } else {
      InOrderMeaning(events, c.source, c.key, asOf, e);
    }
  }

  predicate Visible(events: seq<StoredEvent>, c: Case, asOf: int, e: StoredEvent) {
    e in events && IsTerminalFor(e.event, c.source, c.key) && e.ingestedAt <= asOf
  }

  /** The whole milliseconds from one time to another, none when it comes first. */
  predicate IsDelay(from: int, to: int, ms: int) {
    if to < from then ms == 0 else ms * 1000 <= to - from < (ms + 1) * 1000
  }

  /**
   * The columns of an observation: its version is the next one, its outcome the kind of the event it selected,
   * and its delay counts from the command's creation to that event.
   */
  lemma ObservationMeaning(events: seq<StoredEvent>, c: Case, asOf: int)
    ensures var o := ObservationOf(events, c, asOf);
            && o.source == c.source && o.key == c.key && o.asOf == asOf
            && o.version > 0 && (forall x <- c.observations :: x.version < o.version)
            && (o.version == 1 || exists x <- c.observations :: x.version + 1 == o.version)
            && (o.terminal == None <==> forall e :: !Visible(events, c, asOf, e))
            && (o.terminal == None ==> o.outcome == UnknownInFlight && o.timeToOutcomeMs == None)
            && (o.terminal != None ==>
                  var e := o.terminal.value;
                  && Visible(events, c, asOf, e)
                  && o.outcome == (if e.event.kind == PaymentCaptured then Captured else Failed)
                  && o.timeToOutcomeMs.Some? && IsDelay(c.life.createdAt, e.timestamp, o.timeToOutcomeMs.value))
  {
    var terminals := TerminalsInOrder(events, c.source, c.key, asOf);
    TopVersionMeaning(c.observations, ObservationVersion);
    forall e
      ensures e in terminals <==> Visible(events, c, asOf, e)
    {
      InOrderMeaning(events, c.source, c.key, asOf, e);
    }
    assert terminals != [] ==> terminals[0] in terminals;
  }

  /** The flag is set exactly when terminal events of both kinds are visible at the cutoff. */
  lemma ConflictMeaning(events: seq<StoredEvent>, c: Case, asOf: int)
    ensures ObservationOf(events, c, asOf).conflict <==>
              exists a, b :: Visible(events, c, asOf, a) && a.event.kind == PaymentCaptured
                             && Visible(events, c, asOf, b) && b.event.kind == PaymentFailed
  {
    var terminals := TerminalsInOrder(events, c.source, c.key, asOf);
    forall e
      ensures e in terminals <==> Visible(events, c, asOf, e)
    {
      InOrderMeaning(events, c.source, c.key, asOf, e);
    }
    if BothKinds(terminals) {
      var a :| a in terminals && a.event.kind == PaymentCaptured;
      var b :| b in terminals && b.event.kind == PaymentFailed;
      assert Visible(events, c, asOf, a) && Visible(events, c, asOf, b);
    }
  }

  /** Terminal events of the attempt that the operation ingests are stamped after the cutoff. */
  predicate TerminalAfter(op: Op, source: string, key: string, cutoff: int) {
    op.Ingest? && IsTerminalFor(op.stored.event, source, key) ==> op.stored.ingestedAt > cutoff
  }

  /** Events are only appended, and new terminal events of the attempt come after the cutoff. */
  lemma {:induction false} EventsGrow(s: Store, ops: seq<Op>, source: string, key: string, cutoff: int)
    requires forall op <- ops :: TerminalAfter(op, source, key, cutoff)
    ensures s.events <= ApplyAll(s, ops).events
    ensures forall e <- ApplyAll(s, ops).events ::
              e in s.events || !IsTerminalFor(e.event, source, key) || e.ingestedAt > cutoff
  {
    if ops != [] {
      assert forall op <- ops[..|ops| - 1] :: op in ops;
      EventsGrow(s, ops[..|ops| - 1], source, key, cutoff);
      StepGrows(ApplyAll(s, ops[..|ops| - 1]), ops[|ops| - 1]);
      assert TerminalAfter(ops[|ops| - 1], source, key, cutoff);
    }
  }

  lemma ConflictStays(events: seq<StoredEvent>, events': seq<StoredEvent>, c: Case, c': Case, cutoff: int, later: int)
    requires c'.source == c.source && c'.key == c.key && cutoff <= later
    requires forall e <- events :: e in events'
    ensures ObservationOf(events, c, cutoff).conflict ==> ObservationOf(events', c', later).conflict
  {
    ConflictMeaning(events, c, cutoff);
    ConflictMeaning(events', c', later);
    if ObservationOf(events, c, cutoff).conflict {
      var a, b :| Visible(events, c, cutoff, a) && a.event.kind == PaymentCaptured
                  && Visible(events, c, cutoff, b) && b.event.kind == PaymentFailed;
      assert Visible(events', c', later, a) && Visible(events', c', later, b);
    }
  }

  /**
   * Once an observation as of a cutoff is CAPTURED or FAILED, every observation at a later cutoff selects
   * the same event and the same outcome, and a conflict flag never clears, as long as no terminal event of
   * the attempt is ingested with a stamp at or before the cutoff and no two share one.
   */
  lemma StickyOutcome(s: Store, ops: seq<Op>, c: Case, c': Case, cutoff: int, later: int)
    requires forall op <- ops :: TerminalAfter(op, c.source, c.key, cutoff)
    requires DistinctTimes(ApplyAll(s, ops).events, c.source, c.key)
    requires c'.source == c.source && c'.key == c.key && cutoff <= later
    requires ObservationOf(s.events, c, cutoff).outcome != UnknownInFlight
    ensures var o, o' := ObservationOf(s.events, c, cutoff), ObservationOf(ApplyAll(s, ops).events, c', later);
            o'.outcome == o.outcome && o'.terminal == o.terminal && (o.conflict ==> o'.conflict)
  {
    EventsGrow(s, ops, c.source, c.key, cutoff);
    var events := ApplyAll(s, ops).events;
    assert s.events == events[..|s.events|];
    assert forall e <- s.events :: e in events;
    var first := ObservationOf(s.events, c, cutoff).terminal.value;
    FirstDecides(s.events, c, cutoff, first);
    FirstDecides(events, c', later, first);
    ConflictStays(s.events, events, c, c', cutoff, later);
  }
}

/** Stages 7, 7B and 8 on one store: commands, attempts, observations and attributions as of a cutoff. */
module AttributionLedger {
  import opened Common
  import opened Attempts
  import opened Execution
  import opened Money
  import opened VersionedRows
  import Decisioning
  import Ranking

  /** The pair hashed into a decision id; the command id is a hash of the decision id. */
  datatype DecisionId = DecisionId(key: string, version: nat)

  datatype StoredEvent = StoredEvent(event: Event, timestamp: int, amount: int, ingestedAt: int)

  datatype Prediction = Prediction(
    source: string, status: PredictionStatus, probability: Option<real>, model: string)

  datatype Observation = Observation(
    source: string, key: string, version: nat, asOf: int, outcome: PaymentOutcome, terminal: Option<StoredEvent>, conflict: bool,
    timeToOutcomeMs: Option<int>)

  datatype Evaluation = Evaluation(
    treatment: TreatmentStatus, outcome: PaymentOutcome, amount: int, p0: Option<real>, result: Attribution,
    simulatedExecution: bool)

  datatype AttributionRow = AttributionRow(version: nat, asOf: int, evaluation: Evaluation)

  /** A command and every row stored under its id. */
  datatype Case = Case(
    source: string, key: string, route: Decisioning.RouteKey, life: Life, attempts: seq<ExecutionAttempt>,
    observations: seq<Observation>, attributions: seq<AttributionRow>)

  datatype Store = Store(
    events: seq<StoredEvent>, registry: Registry, predictions: map<nat, Prediction>,
    decisions: map<DecisionId, Decisioning.Decision>, cases: map<DecisionId, Case>)

  datatype Problem = NotFound | InvalidDecision | DuplicateCutoff | Identity(error: IdentityError)

  function IdOf(d: Decisioning.Decision): DecisionId {
    DecisionId(d.attempt.key, d.version)
  }

  /** No two decisions of a log share an id, when their attempts are registered under distinct keys. */
  lemma DecisionIdsDiffer(policy: Decisioning.Policy, requests: seq<Decisioning.Request>, i: nat, j: nat)
    requires i < j < |Decisioning.DecideAll(policy, requests)|
    requires var log := Decisioning.DecideAll(policy, requests);
             log[i].attempt.key == log[j].attempt.key ==> log[i].attempt == log[j].attempt
    ensures var log := Decisioning.DecideAll(policy, requests); IdOf(log[i]) != IdOf(log[j])
  {
    var log := Decisioning.DecideAll(policy, requests);
    if log[i].attempt == log[j].attempt {
      Decisioning.VersionsGrow(policy, requests, i, j);
    }
  }

  /** for_key followed by require. */
  function Known(registry: Registry, source: string, key: string): Result<Registration, IdentityError> {
    match ForKey(source, key)
    case Err(error) => Err(error)
    case Ok(ref) => Require(registry, ref)
  }

  // ---------------------------------------------------------------------------
  // Rows of one command
  // ---------------------------------------------------------------------------

  function AttemptNumber(a: ExecutionAttempt): nat { a.number }

  function AttemptStamp(a: ExecutionAttempt): int { a.createdAt }

  function ObservationVersion(o: Observation): nat { o.version }

  function ObservationStamp(o: Observation): int { o.asOf }

  function RowVersion(r: AttributionRow): nat { r.version }

  function RowStamp(r: AttributionRow): int { r.asOf }

  function LatestAttempt(c: Case, asOf: int): Option<ExecutionAttempt> {
    LatestBy(c.attempts, AttemptNumber, AttemptStamp, asOf)
  }

  function LatestObservation(c: Case, asOf: int): Option<Observation> {
    LatestBy(c.observations, ObservationVersion, ObservationStamp, asOf)
  }

  // ---------------------------------------------------------------------------
  // Events of an attempt
  // ---------------------------------------------------------------------------

  /** The scope of get_canonical_terminal_events with a provider. */
  predicate IsTerminalFor(e: Event, source: string, key: string) {
    && IsTerminal(e.kind)
    && if source == PAYPAL
       then PayPalOrderId(key).Some? && e.source == PAYPAL && e.orderId == PayPalOrderId(key)
       else e.paymentId == key && e.source == source
  }

  /** The scope of the pre-execution barrier, which is given no provider. */
  predicate IsTerminalForKey(e: Event, key: string) {
    && IsTerminal(e.kind)
    && if PayPalOrderId(key).Some? then e.source == PAYPAL && e.orderId == PayPalOrderId(key)
       else e.paymentId == key && e.source != PAYPAL
  }

  predicate IsTriggerFor(e: Event, source: string, key: string) {
    if source == PAYPAL
    then PayPalOrderId(key).Some? && e.kind == OrderApproved && e.source == PAYPAL
         && Some(e.paymentId) == PayPalOrderId(key)
    else e.kind == PaymentAuthorized && e.paymentId == key && e.source == source
  }

  /** The scope of Stage 6's get_payment_event_by_id, which is given no provider. */
  predicate IsTriggerForKey(e: Event, key: string) {
    if PayPalOrderId(key).Some?
    then e.kind == OrderApproved && e.source == PAYPAL && Some(e.paymentId) == PayPalOrderId(key)
    else e.kind == PaymentAuthorized && e.paymentId == key && e.source != PAYPAL
  }

  /** An event of another non-PayPal provider that carries the payment id of the attempt. */
  predicate IsForeign(e: Event, ref: AttemptRef) {
    ref.source != PAYPAL && e.source != PAYPAL && e.source != ref.source && e.paymentId == ref.key
  }

  /**
   * The queries with a provider select exactly the events that the pipeline resolves to the attempt. The two
   * without one, the pre-execution barrier and Stage 6's trigger query, also take the events of another
   * non-PayPal provider with the same payment id, and nothing else.
   */
  lemma QueriesAgreeWithResolution(e: Event, ref: AttemptRef)
    requires ref.Valid()
    ensures IsTerminalFor(e, ref.source, ref.key) <==>
              ResolvePipelineAttempt(e) == Ok(Some(PipelineAttempt(Terminal, ref)))
    ensures IsTriggerFor(e, ref.source, ref.key) <==>
              ResolvePipelineAttempt(e) == Ok(Some(PipelineAttempt(Trigger, ref)))
    ensures IsTerminalForKey(e, ref.key) <==>
              IsTerminalFor(e, ref.source, ref.key) || (IsForeign(e, ref) && IsTerminal(e.kind))
    ensures IsTriggerForKey(e, ref.key) <==>
              IsTriggerFor(e, ref.source, ref.key) || (IsForeign(e, ref) && e.kind == PaymentAuthorized)
  {
    PayPalKeyRoundTrip(ref.reference);
    PayPalKeyRoundTrip(e.paymentId);
    if e.orderId.Some? {
      PayPalKeyRoundTrip(e.orderId.value);
    }
    ForKeyIsExact(e.source, ref.key, ref);
  }

  /** Visible terminal events of the attempt, in insertion order. */
  function Terminals(events: seq<StoredEvent>, source: string, key: string, asOf: int): seq<StoredEvent> {
    if events == [] then []
    else
      var n := |events| - 1;
      Terminals(events[..n], source, key, asOf)
      + (if IsTerminalFor(events[n].event, source, key) && events[n].ingestedAt <= asOf then [events[n]] else [])
  }

  predicate IngestedFirst(a: StoredEvent, b: StoredEvent) {
    a.ingestedAt <= b.ingestedAt
  }

  /** get_canonical_terminal_events. */
  function TerminalsInOrder(events: seq<StoredEvent>, source: string, key: string, asOf: int): seq<StoredEvent> {
    Ranking.Sort(IngestedFirst, Terminals(events, source, key, asOf))
  }

  /** check_terminal_event_exists_before without a provider. */
  predicate TerminalSeen(events: seq<StoredEvent>, key: string, asOf: int) {
    exists e <- events :: IsTerminalForKey(e.event, key) && e.ingestedAt <= asOf
  }

  predicate InTriggerScope(e: Event, source: Option<string>, key: string) {
    if source.Some? then IsTriggerFor(e, source.value, key) else IsTriggerForKey(e, key)
  }

  /** The latest trigger event ingested by the cutoff, of one provider or, as in Stage 6, of the key alone. */
  function LatestTrigger(
    events: seq<StoredEvent>, source: Option<string>, key: string, cutoff: int): Option<StoredEvent>
  {
    if events == [] then None
    else
      var n := |events| - 1;
      var before := LatestTrigger(events[..n], source, key, cutoff);
      if InTriggerScope(events[n].event, source, key) && events[n].ingestedAt <= cutoff
         && (before.None? || events[n].ingestedAt > before.value.ingestedAt)
      then Some(events[n]) else before
  }

  function AmountOf(trigger: Option<StoredEvent>): int {
    if trigger.Some? then trigger.value.amount else 0
  }

  /** get_canonical_payment_amount with a provider, as Stage 8 calls it. */
  function AmountAt(events: seq<StoredEvent>, source: string, key: string, cutoff: int): int {
    AmountOf(LatestTrigger(events, Some(source), key, cutoff))
  }

  /** The amount Stage 6 sizes a decision from. */
  function SizedAmount(events: seq<StoredEvent>, key: string, at: int): int {
    AmountOf(LatestTrigger(events, None, key, at))
  }

  // ---------------------------------------------------------------------------
  // Observation
  // ---------------------------------------------------------------------------

  predicate BothKinds(events: seq<StoredEvent>) {
    && (exists e <- events :: e.event.kind == PaymentCaptured)
    && (exists e <- events :: e.event.kind == PaymentFailed)
  }

  function ObservationOf(events: seq<StoredEvent>, c: Case, asOf: int): Observation {
    var terminals := TerminalsInOrder(events, c.source, c.key, asOf);
    var version := TopVersion(c.observations, ObservationVersion) + 1;
    if terminals == [] then Observation(c.source, c.key, version, asOf, UnknownInFlight, None, false, None)
    else
      Observation(c.source, c.key, version, asOf, if terminals[0].event.kind == PaymentCaptured then Captured else Failed,
                  Some(terminals[0]), BothKinds(terminals),
                  Some(Max(0, (terminals[0].timestamp - c.life.createdAt) / 1000)))
  }

  predicate HasCutoff(c: Case, asOf: int) {
    exists o <- c.observations :: o.asOf == asOf
  }

  function Observed(s: Store, id: DecisionId, asOf: int): (Store, Result<Observation, Problem>) {
    if id !in s.cases then (s, Err(NotFound))
    else
      var c := s.cases[id];
      match Known(s.registry, c.source, c.key)
      case Err(error) => (s, Err(Identity(error)))
      case Ok(_) =>
        if HasCutoff(c, asOf) then (s, Err(DuplicateCutoff))
        else
          var o := ObservationOf(s.events, c, asOf);
          (s.(cases := s.cases[id := c.(observations := c.observations + [o])]), Ok(o))
  }

  // ---------------------------------------------------------------------------
  // Attribution
  // ---------------------------------------------------------------------------

  function LowerCase(s: string): string {
    seq(|s|, i requires 0 <= i < |s| => if 'A' <= s[i] <= 'Z' then s[i] - 'A' + 'a' else s[i])
  }

  predicate Contains(s: string, part: string) {
    part <= s || (s != "" && Contains(s[1..], part))
  }

  /** The registry of verified empirical models is empty. */
  function ClassifyProvenance(model: string): Provenance {
    if model == "DeterministicBaselineModel" || Contains(LowerCase(model), "synthetic") then SyntheticDevelopment
    else Unknown
  }

  function Treatment(
    d: Decisioning.Decision, status: CommandStatus, attempt: Option<ExecutionAttempt>,
    observation: Option<Observation>): TreatmentStatus
  {
    if !d.IsAct() then Untreated
    else if status == NOT_NEEDED || status == EXPIRED || status == PENDING then Untreated
    else if attempt.None? then Untreated
    else if attempt.value.status != SUCCESS then ExecutionFailed
    else if observation.Some? && observation.value.terminal.Some?
            && observation.value.terminal.value.timestamp < attempt.value.completedAt then Untreated
    else Treated
  }

  function TimingDelta(attempt: Option<ExecutionAttempt>, observation: Option<Observation>): Option<int> {
    if attempt.Some? && observation.Some? && observation.value.terminal.Some?
    then Some(observation.value.terminal.value.timestamp - attempt.value.completedAt) else None
  }

  function Measure(
    d: Decisioning.Decision, status: CommandStatus, attempt: Option<ExecutionAttempt>,
    observation: Option<Observation>, prediction: Option<Prediction>, amount: int): Evaluation
  {
    var treatment := Treatment(d, status, attempt, observation);
    var outcome := if observation.Some? then observation.value.outcome else UnknownInFlight;
    var p0 := if prediction.Some? && prediction.value.probability.Some?
              then Some(FourPlaces(prediction.value.probability.value)) else None;
    var provenance := if prediction.Some? then ClassifyProvenance(prediction.value.model) else Provenance.Unknown;
    var predicted := if prediction.Some? then prediction.value.status else NotEligible;
    Evaluation(
      treatment, outcome, amount, p0,
      CalculateAttribution(amount, p0, treatment, outcome, provenance, predicted, d.diagnosis,
                           TimingDelta(attempt, observation)),
      if attempt.Some? then attempt.value.simulated else true)
  }

  function PredictionOf(s: Store, d: Decisioning.Decision): Option<Prediction> {
    if d.predictionId.Some? && d.predictionId.value in s.predictions
    then Some(s.predictions[d.predictionId.value]) else None
  }

  /** An upstream record of another provider or another attempt than the command's. */
  predicate Conflicts(
    c: Case, d: Decisioning.Decision, prediction: Option<Prediction>, attempt: Option<ExecutionAttempt>,
    observation: Option<Observation>)
  {
    || d.attempt.source != c.source || d.attempt.key != c.key
    || (prediction.Some? && prediction.value.source != c.source)
    || (attempt.Some? && attempt.value.source != c.source)
    || (observation.Some? && (observation.value.source != c.source || observation.value.key != c.key))
  }

  /** Everything attribute_payment_intervention derives from the store as of a cutoff. */
  function Evaluate(s: Store, id: DecisionId, asOf: int): Result<Evaluation, Problem> {
    if id !in s.cases || id !in s.decisions then Err(NotFound)
    else
      var c, d := s.cases[id], s.decisions[id];
      var prediction := PredictionOf(s, d);
      var attempt, observation := LatestAttempt(c, asOf), LatestObservation(c, asOf);
      match Known(s.registry, c.source, c.key)
      case Err(error) => Err(Identity(error))
      case Ok(_) =>
        if Conflicts(c, d, prediction, attempt, observation) then Err(Identity(ProviderConflict))
        else Ok(Measure(d, c.life.status, attempt, observation, prediction,
                        AmountAt(s.events, c.source, c.key, Min(d.at, asOf))))
  }

  /**
   * An evaluation fails exactly without the command, its decision or its registered attempt, or on a record of
   * another provider or attempt.
   */
  lemma EvaluateExactly(s: Store, id: DecisionId, asOf: int)
    ensures Evaluate(s, id, asOf).Ok? <==>
              && id in s.cases && id in s.decisions
              && var c, d := s.cases[id], s.decisions[id];
                 var prediction, attempt := PredictionOf(s, d), LatestAttempt(c, asOf);
                 var observation := LatestObservation(c, asOf);
                 && Known(s.registry, c.source, c.key).Ok?
                 && d.attempt.source == c.source && d.attempt.key == c.key
                 && (prediction == None || prediction.value.source == c.source)
                 && (attempt == None || attempt.value.source == c.source)
                 && (observation == None || (observation.value.source == c.source && observation.value.key == c.key))
    ensures Evaluate(s, id, asOf) == Err(NotFound) <==> id !in s.cases || id !in s.decisions
  {
  }

  function RowAt(rows: seq<AttributionRow>, asOf: int): Option<AttributionRow> {
    if rows == [] then None
    else if rows[0].asOf == asOf then Some(rows[0]) else RowAt(rows[1..], asOf)
  }

  function AttributedTo(s: Store, id: DecisionId, asOf: int): (Store, Result<AttributionRow, Problem>) {
    if id !in s.cases then (s, Err(NotFound))
    else
      var c := s.cases[id];
      var existing := RowAt(c.attributions, asOf);
      if existing.Some? then (s, Ok(existing.value))
      else
        match Evaluate(s, id, asOf)
        case Err(problem) => (s, Err(problem))
        case Ok(evaluation) =>
          var row := AttributionRow(TopVersion(c.attributions, RowVersion) + 1, asOf, evaluation);
          (s.(cases := s.cases[id := c.(attributions := c.attributions + [row])]), Ok(row))
  }

  // ---------------------------------------------------------------------------
  // Commands
  // ---------------------------------------------------------------------------

  function Created(s: Store, d: Decisioning.Decision, expiresIn: int, now: int): (Store, Result<Case, Problem>) {
    if !d.IsAct() || d.judgement.route.None? || d.judgement.gate != Decisioning.Passed then (s, Err(InvalidDecision))
    else
      match Known(s.registry, d.attempt.source, d.attempt.key)
      case Err(error) => (s, Err(Identity(error)))
      case Ok(_) =>
        var id := IdOf(d);
        if id in s.cases then
          (s, if s.cases[id].source != d.attempt.source then Err(Identity(ProviderConflict)) else Ok(s.cases[id]))
        else if id !in s.decisions || s.decisions[id].attempt.source != d.attempt.source then (s, Err(NotFound))
        else
          var c := Case(d.attempt.source, d.attempt.key, d.judgement.route.value,
                        Life(PENDING, None, now, now + expiresIn * SECOND, now), [], [], []);
          (s.(cases := s.cases[id := c]), Ok(c))
  }

  /** What the execution contract asks of a decision before a command may exist for it. */
  predicate Executable(s: Store, d: Decisioning.Decision) {
    && d.IsAct() && d.judgement.route.Some? && d.judgement.gate == Decisioning.Passed
    && Known(s.registry, d.attempt.source, d.attempt.key).Ok?
  }

  /** The stored decision of the same id and provider that the command refers to. */
  predicate HasDecision(s: Store, d: Decisioning.Decision) {
    IdOf(d) in s.decisions && s.decisions[IdOf(d)].attempt.source == d.attempt.source
  }

  /** Only the cases of a store may differ, and those there were stay as they are. */
  predicate OnlyAddsCases(s: Store, s': Store) {
    && s'.events == s.events && s'.registry == s.registry && s'.predictions == s.predictions
    && s'.decisions == s.decisions
    && forall id <- s.cases :: id in s'.cases && s'.cases[id] == s.cases[id]
  }

  /**
   * A command appears exactly for an executable decision that is stored and has none yet, it is that
   * decision's, pending and without rows, and it is the only change. An error leaves the store as it was, a
   * result is the stored command of the decision, and asking again adds nothing.
   */
  lemma CreatedExactly(s: Store, d: Decisioning.Decision, expiresIn: int, now: int)
    ensures var (s', r) := Created(s, d, expiresIn, now);
            var id := IdOf(d);
            && OnlyAddsCases(s, s')
            && (forall x :: x in s'.cases && x !in s.cases <==>
                  x == id && id !in s.cases && Executable(s, d) && HasDecision(s, d))
            && (id in s'.cases && id !in s.cases ==>
                  && s'.cases[id].life == Life(PENDING, None, now, now + expiresIn * SECOND, now)
                  && s'.cases[id].source == d.attempt.source && s'.cases[id].key == d.attempt.key
                  && Some(s'.cases[id].route) == d.judgement.route
                  && s'.cases[id].attempts == [] && s'.cases[id].observations == [] && s'.cases[id].attributions == [])
            && (r.Err? ==> s' == s)
            && (r.Ok? <==> Executable(s, d) && id in s'.cases && s'.cases[id].source == d.attempt.source)
            && (r.Ok? ==> r.value == s'.cases[id])
            && (r.Ok? ==> forall expiresIn', now' :: Created(s', d, expiresIn', now') == (s', r))
  {
  }

  function DispatchOf(s: Store, c: Case, claim: int, result: ExecutionResult): Dispatch {
    Dispatch(c.source, claim, TerminalSeen(s.events, c.key, claim), result)
  }

  function Executed(s: Store, id: DecisionId, claim: int, result: ExecutionResult): (Store, Result<Life, Problem>) {
    if id !in s.cases then (s, Err(NotFound))
    else
      var c := s.cases[id];
      match Known(s.registry, c.source, c.key)
      case Err(error) => (s, Err(Identity(error)))
      case Ok(_) =>
        var (life, attempts) := Execute(c.life, c.attempts, DispatchOf(s, c, claim, result));
        (s.(cases := s.cases[id := c.(life := life, attempts := attempts)]), Ok(life))
  }

  // ---------------------------------------------------------------------------
  // The services on a live session
  // ---------------------------------------------------------------------------

  class Session {
    var events: seq<StoredEvent>
    var registry: Registry
    var predictions: map<nat, Prediction>
    var decisions: map<DecisionId, Decisioning.Decision>
    var cases: map<DecisionId, Case>

    function Snapshot(): Store
      reads this
    {
      Store(events, registry, predictions, decisions, cases)
    }

    constructor (s: Store)
      ensures Snapshot() == s
    {
      events, registry, predictions, decisions, cases := s.events, s.registry, s.predictions, s.decisions, s.cases;
    }

    method CreateCommand(d: Decisioning.Decision, expiresIn: int, now: int) returns (r: Result<Case, Problem>)
      modifies this`cases
      ensures (Snapshot(), r) == Created(old(Snapshot()), d, expiresIn, now)
      ensures OnlyAddsCases(old(Snapshot()), Snapshot())
      ensures r.Err? ==> cases == old(cases)
      ensures r.Ok? <==> Executable(old(Snapshot()), d) && IdOf(d) in cases && cases[IdOf(d)].source == d.attempt.source
      ensures forall id :: id in cases && id !in old(cases) <==>
                id == IdOf(d) && id !in old(cases) && Executable(old(Snapshot()), d) && HasDecision(old(Snapshot()), d)
    {
      if !d.IsAct() || d.judgement.route.None? || d.judgement.gate != Decisioning.Passed {
        return Err(InvalidDecision);
      }
      var known := Known(registry, d.attempt.source, d.attempt.key);
      if known.Err? {
        return Err(Identity(known.error));
      }
      var id := IdOf(d);
      if id in cases {
        if cases[id].source != d.attempt.source {
          return Err(Identity(ProviderConflict));
        }
        return Ok(cases[id]);
      }
      if id !in decisions || decisions[id].attempt.source != d.attempt.source {
        return Err(NotFound);
      }
      var life := Life(PENDING, None, now, now + expiresIn * SECOND, now);
      var c := Case(d.attempt.source, d.attempt.key, d.judgement.route.value, life, [], [], []);
      cases := cases[id := c];
      r := Ok(c);
    }

    /** UPDATE ... WHERE command_id = id AND command_status = expected. */
    method UpdateStatusAtomic(
      id: DecisionId, expected: CommandStatus, target: CommandStatus, reason: Option<string>, at: int)
      returns (updated: bool)
      modifies this`cases
      ensures updated == (id in old(cases) && old(cases)[id].life.status == expected)
      ensures cases == if updated
                       then old(cases)[id := old(cases)[id].(life := Moved(old(cases)[id].life, target, reason, at))]
                       else old(cases)
    {
      updated := id in cases && cases[id].life.status == expected;
      if updated {
        var c := cases[id];
        cases := cases[id := c.(life := Moved(c.life, target, reason, at))];
      }
    }

    method InsertExecutionAttempt(id: DecisionId, a: ExecutionAttempt)
      requires id in cases
      modifies this`cases
      ensures cases == old(cases)[id := old(cases)[id].(attempts := old(cases)[id].attempts + [a])]
    {
      cases := cases[id := cases[id].(attempts := cases[id].attempts + [a])];
    }

    method FinalizeCommand(id: DecisionId, result: ExecutionResult, end: int)
      requires id in cases && cases[id].life.status == EXECUTING
      modifies this`cases
      ensures cases == old(cases)[id := old(cases)[id].(life := Concluded(old(cases)[id].life, result, end))]
    {
      if result.status == SUCCESS {
        assert MayBecome(EXECUTING, SUCCEEDED);
        var _ := UpdateStatusAtomic(id, EXECUTING, SUCCEEDED, None, end);
      } else {
        assert MayBecome(EXECUTING, FAILED);
        var reason := if result.status == TIMEOUT then "EXECUTOR_TIMEOUT"
                      else if result.error.Some? && result.error.value != "" then result.error.value
                      else "EXECUTOR_FAILURE";
        var _ := UpdateStatusAtomic(id, EXECUTING, FAILED, Some(reason), end);
      }
    }

    /** `result` is what the executor answers if it is called. */
    method ExecuteCommand(id: DecisionId, claim: int, result: ExecutionResult) returns (r: Result<Life, Problem>)
      modifies this`cases
      ensures (Snapshot(), r) == Executed(old(Snapshot()), id, claim, result)
    {
      if id !in cases {
        return Err(NotFound);
      }
      var c := cases[id];
      var known := Known(registry, c.source, c.key);
      if known.Err? {
        return Err(Identity(known.error));
      }
      if c.life.status != PENDING {
        assert cases == cases[id := c.(life := c.life, attempts := c.attempts)];
        return Ok(c.life);
      }
      if claim >= c.life.expiresAt {
        assert MayBecome(c.life.status, EXPIRED);
        var _ := UpdateStatusAtomic(id, PENDING, EXPIRED, Some("COMMAND_EXPIRED_BEFORE_DISPATCH"), claim);
        return Ok(cases[id].life);
      }
      if TerminalSeen(events, c.key, claim) {
        assert MayBecome(c.life.status, NOT_NEEDED);
        var _ := UpdateStatusAtomic(id, PENDING, NOT_NEEDED, Some("TERMINAL_OUTCOME_ALREADY_INGESTED"), claim);
        return Ok(cases[id].life);
      }
      assert MayBecome(c.life.status, EXECUTING);
      var claimed := UpdateStatusAtomic(id, PENDING, EXECUTING, None, claim);
      assert claimed;
      var number := MaxNumber(cases[id].attempts) + 1;
      var end := claim + result.durationMs * 1000;
      InsertExecutionAttempt(id, ExecutionAttempt(c.source, number, claim, end, result.status, result.simulated, end));
      FinalizeCommand(id, result, end);
      assert cases[id].attempts == c.attempts + [AttemptFor(DispatchOf(old(Snapshot()), c, claim, result), number)];
      assert cases == old(cases)[id := cases[id]];
      return Ok(cases[id].life);
    }

    method Observe(id: DecisionId, asOf: int) returns (r: Result<Observation, Problem>)
      modifies this`cases
      ensures (Snapshot(), r) == Observed(old(Snapshot()), id, asOf)
    {
      if id !in cases {
        return Err(NotFound);
      }
      var c := cases[id];
      var known := Known(registry, c.source, c.key);
      if known.Err? {
        return Err(Identity(known.error));
      }
      var terminals := TerminalsInOrder(events, c.source, c.key, asOf);
      var outcome, terminal, conflict, delay := UnknownInFlight, None, false, None;
      if terminals != [] {
        var first := terminals[0];
        conflict := BothKinds(terminals);
        outcome := if first.event.kind == PaymentCaptured then Captured else Failed;
        terminal := Some(first);
        delay := Some(Max(0, (first.timestamp - c.life.createdAt) / 1000));
      }
      var version := TopVersion(c.observations, ObservationVersion) + 1;
      var o := Observation(c.source, c.key, version, asOf, outcome, terminal, conflict, delay);
      if HasCutoff(c, asOf) {
        return Err(DuplicateCutoff);
      }
      cases := cases[id := c.(observations := c.observations + [o])];
      r := Ok(o);
    }

    method TreatmentStatusOf(
      d: Decisioning.Decision, status: CommandStatus, attempt: Option<ExecutionAttempt>,
      observation: Option<Observation>) returns (treatment: TreatmentStatus)
      ensures treatment == Treatment(d, status, attempt, observation)
    {
      treatment := Untreated;
      if d.IsAct() && status != NOT_NEEDED && status != EXPIRED && status != PENDING && attempt.Some? {
        if attempt.value.status != SUCCESS {
          treatment := ExecutionFailed;
        } else {
          var early := observation.Some? && observation.value.terminal.Some?
                       && observation.value.terminal.value.timestamp < attempt.value.completedAt;
          treatment := if early then Untreated else Treated;
        }
      }
    }

    method AttributePaymentIntervention(id: DecisionId, asOf: int) returns (r: Result<AttributionRow, Problem>)
      modifies this`cases
      ensures (Snapshot(), r) == AttributedTo(old(Snapshot()), id, asOf)
    {
      if id !in cases {
        return Err(NotFound);
      }
      var c := cases[id];
      var existing := RowAt(c.attributions, asOf);
      if existing.Some? {
        return Ok(existing.value);
      }
      var version := TopVersion(c.attributions, RowVersion) + 1;
      var attempt := LatestAttempt(c, asOf);
      var observation := LatestObservation(c, asOf);
      if id !in decisions {
        return Err(NotFound);
      }
      var d := decisions[id];
      var prediction := PredictionOf(Snapshot(), d);
      var known := Known(registry, c.source, c.key);
      if known.Err? {
        return Err(Identity(known.error));
      }
      if Conflicts(c, d, prediction, attempt, observation) {
        return Err(Identity(ProviderConflict));
      }
      var amount := AmountAt(events, c.source, c.key, Min(d.at, asOf));
      var treatment := TreatmentStatusOf(d, c.life.status, attempt, observation);
      var outcome := if observation.None? then UnknownInFlight else observation.value.outcome;
      var provenance, status, p0 := Provenance.Unknown, NotEligible, None;
      if prediction.Some? {
        status, provenance := prediction.value.status, ClassifyProvenance(prediction.value.model);
        if prediction.value.probability.Some? {
          p0 := Some(FourPlaces(prediction.value.probability.value));
        }
      }
      var result := CalculateAttribution(amount, p0, treatment, outcome, provenance, status, d.diagnosis,
                                         TimingDelta(attempt, observation));
      var simulated := if attempt.Some? then attempt.value.simulated else true;
      var row := AttributionRow(version, asOf, Evaluation(treatment, outcome, amount, p0, result, simulated));
      cases := cases[id := c.(attributions := c.attributions + [row])];
      r := Ok(row);
    }
  }
}

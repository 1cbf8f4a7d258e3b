/**
 * A run of the pipeline under the default policy in which two commands of one attempt protect more revenue
 * together than the payment was worth.
 */
module DoubleProtection {
  import opened Common
  import opened Attempts
  import opened Execution
  import opened Money
  import opened AttributionLedger
  import opened AttributionHistory
  import opened ProtectedTotal
  import Decisioning
  import Ranking
  import VersionedRows

  const ATTEMPT: AttemptRef := AttemptRef("razorpay", "pay1", "pay1")
  const REGISTRY: Registry := map["pay1" := Registration("razorpay", "pay1", 1)]
  const PREDICTION: Prediction := Prediction("razorpay", Predicted, Some(0.95), "DeterministicBaselineModel")
  const DONE: ExecutionResult := ExecutionResult(SUCCESS, 1, None, true)
  const CAPTURED: StoredEvent := StoredEvent(Event(3, "razorpay", PaymentCaptured, "pay1", None), 9000, 1000, 9000)

  /** The authorization, announced under two source event ids. */
  function Authorized(n: nat, at: int): StoredEvent {
    StoredEvent(Event(n, "razorpay", PaymentAuthorized, "pay1", None), at, 1000, at)
  }

  // ---------------------------------------------------------------------------
  // Stage 6 under the default policy
  // ---------------------------------------------------------------------------

  /** The n-th request: a strong diagnosis of the payment's bank and a failure probability of 0.95. */
  function Asking(n: nat, at: int): Decisioning.Request {
    Decisioning.Request(
      ATTEMPT, at,
      Decisioning.Context(
        1000, "INR", None, Some("BANK1"), false, Some(Decisioning.Stage5(n, Predicted, Some(0.95))), false, false,
        Some(Decisioning.SegmentSpecific), Some(Strong), Some(Decisioning.BankTarget), true),
      n)
  }

  function Requests(): seq<Decisioning.Request> {
    [Asking(1, 1), Asking(2, 2000)]
  }

  function Acting(n: nat, at: int, route: Decisioning.RouteKey): Decisioning.Decision {
    Decisioning.Decision(ATTEMPT, n, at, Decisioning.Judgement(Decisioning.Act, Some(route), Decisioning.Passed), Some(n),
                         Some(Strong), n)
  }

  function First(): Decisioning.Decision {
    Acting(1, 1, Decisioning.RetrySecondaryGateway)
  }

  function Second(): Decisioning.Decision {
    Acting(2, 2000, Decisioning.DynamicRetryBackoff)
  }

  /** What each route of the default policy is worth to the payment. */
  function Worth(key: Decisioning.RouteKey): int {
    match key
    case RetrySecondaryGateway => 372
    case PromptPaymentMethodSwitch => 318
    case DynamicRetryBackoff => 282
    case DegradationCircuitBypass => 212
    case FallbackPaymentLink => 228
  }

  lemma UtilityIsWorth(route: Decisioning.Route, c: Decisioning.Context)
    requires route in Decisioning.DefaultPolicy().routes && c.amount == 1000
    ensures Decisioning.Utility(route, c, 0.95) == Worth(route.key)
  {
    assert HalfEven(0.95 * 1000000.0) == 950000;
  }

  /** An eligible route that is at least as good as the best two is one of them. */
  lemma OnlyBest(
    policy: Decisioning.Policy, c: Decisioning.Context, best: Decisioning.Route, r: Decisioning.Route,
    cooling: set<Decisioning.RouteKey>)
    requires policy == Decisioning.DefaultPolicy() && c.amount == 1000 && cooling <= {Decisioning.RetrySecondaryGateway}
    requires c.candidateDimension == Some(Decisioning.BankTarget) && c.classification == Some(Decisioning.SegmentSpecific)
    requires best == policy.routes[if cooling == {} then 0 else 2]
    requires r in policy.routes && Decisioning.Eligible(r, c, r.key in cooling)
    requires Decisioning.ScoreLeq(Decisioning.ScoreOf(r, c, 0.95), Decisioning.ScoreOf(best, c, 0.95))
    ensures r.key == best.key
  {
    UtilityIsWorth(r, c);
    UtilityIsWorth(best, c);
  }

  lemma BestFits(
    policy: Decisioning.Policy, r: Decisioning.Request, cooling: set<Decisioning.RouteKey>, best: Decisioning.Route)
    requires policy == Decisioning.DefaultPolicy() && r == Asking(r.fingerprint, r.at)
    requires cooling <= {Decisioning.RetrySecondaryGateway} && best == policy.routes[if cooling == {} then 0 else 2]
    ensures policy.Valid() && Decisioning.PassesGates(policy, r.context)
    ensures best in policy.routes && Decisioning.Eligible(best, r.context, best.key in cooling)
    ensures Decisioning.Utility(best, r.context, 0.95) as real >= policy.minUtility
  {
    UtilityIsWorth(best, r.context);
  }

  /** With at most the best route on cooldown, the verdict is the better of the two best routes that is not. */
  lemma BestRemaining(policy: Decisioning.Policy, r: Decisioning.Request, cooling: set<Decisioning.RouteKey>)
    requires policy == Decisioning.DefaultPolicy() && r == Asking(r.fingerprint, r.at)
    requires cooling <= {Decisioning.RetrySecondaryGateway}
    ensures Decisioning.Judge(policy, r.context, cooling)
            == Decisioning.Judgement(
                 Decisioning.Act,
                 Some(if cooling == {} then Decisioning.RetrySecondaryGateway else Decisioning.DynamicRetryBackoff),
                 Decisioning.Passed)
  {
    var c, best := r.context, policy.routes[if cooling == {} then 0 else 2];
    BestFits(policy, r, cooling, best);
    forall other | other in policy.routes && Decisioning.Eligible(other, c, other.key in cooling)
                   && Decisioning.ScoreLeq(Decisioning.ScoreOf(other, c, 0.95), Decisioning.ScoreOf(best, c, 0.95))
      ensures other.key == best.key
    {
      OnlyBest(policy, c, best, other, cooling);
    }
    Decisioning.BestIsChosen(policy, c, cooling, 0.95, best);
  }

  lemma NothingLogged(log: Decisioning.Log, r: Decisioning.Request)
    requires log == [] && r == Asking(1, 1)
    ensures !Decisioning.IsRepeat(log, r) && Decisioning.RowFor(log, r, First().judgement) == First()
    ensures Decisioning.CountActs(log, r.at - 60 * SECOND) == 0
  {
  }

  lemma DecidesFirst(policy: Decisioning.Policy, log: Decisioning.Log, r: Decisioning.Request)
    requires policy == Decisioning.DefaultPolicy() && log == [] && r == Asking(1, 1)
    ensures Decisioning.Decide(policy, log, r) == [First()]
  {
    NothingLogged(log, r);
    assert Decisioning.Cooling(log, ATTEMPT, r.at, policy.routes) == {};
    BestRemaining(policy, r, {});
    Decisioning.DecidesAs(policy, log, r, {}, First().judgement);
  }

  /** What the second request finds in the log. */
  lemma OneLogged(log: Decisioning.Log, since: int)
    requires log == [First()]
    ensures Decisioning.Latest(log, ATTEMPT) == Some(First()) && Decisioning.MaxVersion(log, ATTEMPT) == 1
    ensures Decisioning.CountActs(log, since) <= 1
  {
    assert log[..0] == [];
  }

  lemma DecidesSecond(policy: Decisioning.Policy, log: Decisioning.Log, r: Decisioning.Request)
    requires policy == Decisioning.DefaultPolicy() && log == [First()] && r == Asking(2, 2000)
    ensures Decisioning.Decide(policy, log, r) == [First(), Second()]
  {
    OneLogged(log, r.at - 60 * SECOND);
    OneCooling(policy, log);
    BestRemaining(policy, r, {Decisioning.RetrySecondaryGateway});
    Decisioning.DecidesAs(policy, log, r, {Decisioning.RetrySecondaryGateway}, Second().judgement);
  }

  lemma TwoDecided(policy: Decisioning.Policy, requests: seq<Decisioning.Request>)
    requires policy == Decisioning.DefaultPolicy() && requests == Requests()
    ensures Decisioning.DecideAll(policy, requests) == [First(), Second()]
  {
    assert requests[..1] == [Asking(1, 1)] && requests[..1][..0] == [];
    assert Decisioning.DecideAll(policy, requests[..1][..0]) == [];
    DecidesFirst(policy, [], Asking(1, 1));
    DecidesSecond(policy, [First()], Asking(2, 2000));
  }

  lemma OneCooling(policy: Decisioning.Policy, log: Decisioning.Log)
    requires policy == Decisioning.DefaultPolicy() && log == [First()]
    ensures Decisioning.Cooling(log, ATTEMPT, 2000, policy.routes) == {Decisioning.RetrySecondaryGateway}
  {
    var route := policy.routes[0];
    assert First() in log && route in policy.routes;
    assert Decisioning.OnCooldown(log, ATTEMPT, route.key, 2000 - route.cooldown);
  }

  // ---------------------------------------------------------------------------
  // The run
  // ---------------------------------------------------------------------------

  /** Stages 5 to 7 for one trigger event: prediction, decision, command and its execution, all at one time. */
  function Handle(e: StoredEvent, d: Decisioning.Decision): seq<Op> {
    [Ingest(e), Register(e.event), Predict(d.version, PREDICTION), Record(d), Create(d, 300, d.at),
     Run(IdOf(d), d.at, DONE)]
  }

  function Ops(): seq<Op> {
    Handle(Authorized(1, 1), First()) + Handle(Authorized(2, 2000), Second())
    + [Ingest(CAPTURED), Watch(IdOf(First()), 9000), Watch(IdOf(Second()), 9000)]
  }

  function Empty(): Store {
    Store([], map[], map[], map[], map[])
  }

  function RouteOf(d: Decisioning.Decision): Decisioning.RouteKey {
    if d.judgement.route.Some? then d.judgement.route.value else Decisioning.FallbackPaymentLink
  }

  function Pending(d: Decisioning.Decision): Case {
    Case("razorpay", "pay1", RouteOf(d), Life(PENDING, None, d.at, d.at + 300 * SECOND, d.at), [], [], [])
  }

  function Dispatched(d: Decisioning.Decision): Case {
    Pending(d).(life := Life(SUCCEEDED, None, d.at, d.at + 300 * SECOND, d.at + 1000),
                attempts := [ExecutionAttempt("razorpay", 1, d.at, d.at + 1000, SUCCESS, true, d.at + 1000)])
  }

  /** The command after the observation of the capture. */
  function Finished(d: Decisioning.Decision): Case
    requires d.at <= 9000
  {
    Dispatched(d).(observations := [Observation("razorpay", "pay1", 1, 9000, Captured, Some(CAPTURED), false,
                                                Some((9000 - d.at) / 1000))])
  }

  /** The store after one trigger event is handled. */
  function Handled(s: Store, e: StoredEvent, d: Decisioning.Decision): Store {
    Store(s.events + [e], REGISTRY, s.predictions[d.version := PREDICTION], s.decisions[IdOf(d) := d],
          s.cases[IdOf(d) := Dispatched(d)])
  }

  lemma PlainKey()
    ensures ForKey("razorpay", "pay1") == Ok(ATTEMPT) && Known(REGISTRY, "razorpay", "pay1").Ok?
  {
    ForKeyIsExact("razorpay", "pay1", ATTEMPT);
  }

  /** The stores a list of operations goes through. */
  lemma {:induction false} Steps(s: Store, ops: seq<Op>, stores: seq<Store>)
    requires |stores| == |ops| + 1 && stores[0] == s
    requires forall i :: 0 <= i < |ops| ==> stores[i + 1] == Apply(stores[i], ops[i])
    ensures ApplyAll(s, ops) == stores[|ops|]
  {
    if ops != [] {
      Steps(s, ops[..|ops| - 1], stores[..|ops|]);
    }
  }

  lemma {:induction false} InTwoParts(s: Store, ops: seq<Op>, more: seq<Op>)
    ensures ApplyAll(s, ops + more) == ApplyAll(ApplyAll(s, ops), more)
  {
    if more == [] {
      assert ops + more == ops;
    } else {
      assert (ops + more)[..|ops + more| - 1] == ops + more[..|more| - 1];
      InTwoParts(s, ops, more[..|more| - 1]);
    }
  }

  lemma Recording(s: Store, d: Decisioning.Decision)
    requires (d == First() || d == Second()) && s.registry == REGISTRY && IdOf(d) !in s.decisions
    requires d.version in s.predictions && s.predictions[d.version] == PREDICTION
    ensures Apply(s, Record(d)) == s.(decisions := s.decisions[IdOf(d) := d])
  {
    PlainKey();
  }

  lemma Creating(s: Store, d: Decisioning.Decision)
    requires (d == First() || d == Second()) && s.registry == REGISTRY
    requires IdOf(d) !in s.cases && IdOf(d) in s.decisions && s.decisions[IdOf(d)] == d
    ensures Apply(s, Create(d, 300, d.at)) == s.(cases := s.cases[IdOf(d) := Pending(d)])
  {
    PlainKey();
  }

  lemma Running(s: Store, d: Decisioning.Decision)
    requires (d == First() || d == Second()) && s.registry == REGISTRY
    requires forall e <- s.events :: !IsTerminal(e.event.kind)
    requires IdOf(d) in s.cases && s.cases[IdOf(d)] == Pending(d)
    ensures Apply(s, Run(IdOf(d), d.at, DONE)) == s.(cases := s.cases[IdOf(d) := Dispatched(d)])
  {
    PlainKey();
    assert !TerminalSeen(s.events, "pay1", d.at);
    var c := Pending(d);
    assert [] + Dispatched(d).attempts == Dispatched(d).attempts;
    assert Execute(c.life, c.attempts, DispatchOf(s, c, d.at, DONE)) == (Dispatched(d).life, Dispatched(d).attempts);
  }

  lemma Handling(s: Store, e: StoredEvent, d: Decisioning.Decision)
    requires (d == First() || d == Second()) && e == Authorized(d.version, d.at)
    requires Registered(s.registry, e.event) == REGISTRY && forall x <- s.events :: !IsTerminal(x.event.kind)
    requires d.version !in s.predictions && IdOf(d) !in s.decisions && IdOf(d) !in s.cases
    ensures ApplyAll(s, Handle(e, d)) == Handled(s, e, d)
  {
    PlainKey();
    var ops := Handle(e, d);
    var s1 := s.(events := s.events + [e]);
    var s2 := s1.(registry := REGISTRY);
    var s3 := s2.(predictions := s.predictions[d.version := PREDICTION]);
    var s4 := s3.(decisions := s.decisions[IdOf(d) := d]);
    var s5 := s4.(cases := s.cases[IdOf(d) := Pending(d)]);
    Recording(s3, d);
    Creating(s4, d);
    Running(s5, d);
    assert s5.cases[IdOf(d) := Dispatched(d)] == s.cases[IdOf(d) := Dispatched(d)];
    Steps(s, ops, [s, s1, s2, s3, s4, s5, Handled(s, e, d)]);
  }

  lemma SortOne<T>(leq: (T, T) -> bool, x: T)
    ensures Ranking.Sort(leq, [x]) == [x]
  {
    assert [x][1..] == [];
  }

  /** The events when the payment is captured. */
  function Events(): seq<StoredEvent> {
    [Authorized(1, 1), Authorized(2, 2000), CAPTURED]
  }

  lemma CaptureIsFirst(events: seq<StoredEvent>)
    requires events == Events()
    ensures TerminalsInOrder(events, "razorpay", "pay1", 9000) == [CAPTURED]
  {
    var two := events[..2];
    assert two[..1][..0] == [];
    assert Terminals(two[..1], "razorpay", "pay1", 9000) == [];
    assert Terminals(two, "razorpay", "pay1", 9000) == [];
    assert Terminals(events, "razorpay", "pay1", 9000) == [CAPTURED];
    SortOne(IngestedFirst, CAPTURED);
  }

  lemma Watching(s: Store, d: Decisioning.Decision)
    requires (d == First() || d == Second()) && s.registry == REGISTRY && s.events == Events()
    requires IdOf(d) in s.cases && s.cases[IdOf(d)] == Dispatched(d)
    ensures Apply(s, Watch(IdOf(d), 9000)) == s.(cases := s.cases[IdOf(d) := Finished(d)])
  {
    PlainKey();
    CaptureIsFirst(s.events);
    assert ObservationOf(s.events, Dispatched(d), 9000) == Finished(d).observations[0];
    assert [] + Finished(d).observations == Finished(d).observations;
  }

  function Final(): Store {
    Store(Events(), REGISTRY, map[1 := PREDICTION, 2 := PREDICTION],
          map[IdOf(First()) := First(), IdOf(Second()) := Second()],
          map[IdOf(First()) := Finished(First()), IdOf(Second()) := Finished(Second())])
  }

  /** Both trigger events are handled. */
  function Both(): Store {
    Handled(Handled(Empty(), Authorized(1, 1), First()), Authorized(2, 2000), Second())
  }

  lemma HandlingBoth()
    ensures ApplyAll(Empty(), Handle(Authorized(1, 1), First()) + Handle(Authorized(2, 2000), Second())) == Both()
  {
    PlainKey();
    Handling(Empty(), Authorized(1, 1), First());
    Handling(Handled(Empty(), Authorized(1, 1), First()), Authorized(2, 2000), Second());
    InTwoParts(Empty(), Handle(Authorized(1, 1), First()), Handle(Authorized(2, 2000), Second()));
  }

  lemma Observing()
    ensures ApplyAll(Both(), [Ingest(CAPTURED), Watch(IdOf(First()), 9000), Watch(IdOf(Second()), 9000)]) == Final()
  {
    var s := Both().(events := Both().events + [CAPTURED]);
    assert s.events == Events();
    var half := s.(cases := s.cases[IdOf(First()) := Finished(First())]);
    Watching(s, First());
    Watching(half, Second());
    assert half.cases[IdOf(Second()) := Finished(Second())] == Final().cases;
    Steps(Both(), [Ingest(CAPTURED), Watch(IdOf(First()), 9000), Watch(IdOf(Second()), 9000)], [Both(), s, half, Final()]);
  }

  lemma RunReachesFinal()
    ensures ApplyAll(Empty(), Ops()) == Final()
  {
    HandlingBoth();
    Observing();
    InTwoParts(Empty(), Handle(Authorized(1, 1), First()) + Handle(Authorized(2, 2000), Second()),
               [Ingest(CAPTURED), Watch(IdOf(First()), 9000), Watch(IdOf(Second()), 9000)]);
  }

  lemma FinalIsConsistent()
    ensures AttributionHistory.Inv(Final()) && InRange(Final())
  {
    RunReachesFinal();
    AttributionHistory.RunsKeepInv(Empty(), Ops());
  }

  // ---------------------------------------------------------------------------
  // Both commands are attributed
  // ---------------------------------------------------------------------------

  lemma SixTenths(delta: int)
    requires 0 <= delta <= 60 * SECOND
    ensures Alpha(ClassifyProvenance(PREDICTION.model), Some(Strong), Some(delta)) == 0.6
    ensures FourPlaces(FourPlaces(0.95)) == 0.95 && FourPlaces(0.95) == 0.95
    ensures Protected(1000, 0.95, 0.6) == 570
  {
  }

  lemma MeasuredInFull(d: Decisioning.Decision, c: Case)
    requires (d == First() || d == Second()) && c == Finished(d)
    ensures Measure(d, c.life.status, Some(c.attempts[0]), Some(c.observations[0]), Some(PREDICTION), 1000)
            == Evaluation(Treated, Captured, 1000, Some(0.95), Attribution(Attributed, 950, 50, 570, 0.6), true)
  {
    SixTenths(8000 - d.at);
    assert Exposure(1000, 0.95) == 950;
  }

  /** The trigger events visible at the two decisions. */
  lemma Amounts(source: Option<string>)
    requires source == None || source == Some("razorpay")
    ensures LatestTrigger(Events(), source, "pay1", 1) == Some(Authorized(1, 1))
    ensures LatestTrigger(Events(), source, "pay1", 2000) == Some(Authorized(2, 2000))
  {
    var events := Events();
    assert !(PAYPAL_ATTEMPT_PREFIX <= "pay1");
    assert events[..2][..1] == [Authorized(1, 1)] && events[..2][..1][..0] == [];
    assert LatestTrigger(events[..2][..1], source, "pay1", 1) == Some(Authorized(1, 1));
    assert LatestTrigger(events[..2][..1], source, "pay1", 2000) == Some(Authorized(1, 1));
    assert LatestTrigger(events[..2], source, "pay1", 1) == Some(Authorized(1, 1));
    assert LatestTrigger(events[..2], source, "pay1", 2000) == Some(Authorized(2, 2000));
  }

  lemma OneRow<T>(rows: seq<T>, version: T -> nat, stamp: T -> int, cutoff: int, row: T)
    requires rows == [row] && stamp(row) <= cutoff
    ensures VersionedRows.LatestBy(rows, version, stamp, cutoff) == Some(row)
  {
    assert rows[..0] == [];
  }

  lemma RowsOf(c: Case, d: Decisioning.Decision)
    requires (d == First() || d == Second()) && c == Finished(d)
    ensures LatestAttempt(c, 9000) == Some(c.attempts[0]) && LatestObservation(c, 9000) == Some(c.observations[0])
  {
    OneRow(c.attempts, AttemptNumber, AttemptStamp, 9000, c.attempts[0]);
    OneRow(c.observations, ObservationVersion, ObservationStamp, 9000, c.observations[0]);
  }

  lemma FinalRows(d: Decisioning.Decision)
    requires d == First() || d == Second()
    ensures var s := Final();
            && IdOf(d) in s.cases && s.cases[IdOf(d)] == Finished(d)
            && IdOf(d) in s.decisions && s.decisions[IdOf(d)] == d && PredictionOf(s, d) == Some(PREDICTION)
            && AmountAt(s.events, "razorpay", "pay1", d.at) == 1000
  {
    Amounts(Some("razorpay"));
  }

  lemma EachProtects570(d: Decisioning.Decision)
    requires d == First() || d == Second()
    ensures LineOf(Final(), IdOf(d), 9000) == Line(570, Some(Share(0.95, 0.6)))
    ensures Evaluate(Final(), IdOf(d), 9000).Ok? && Evaluate(Final(), IdOf(d), 9000).value.amount == 1000
  {
    FinalIsConsistent();
    FinalRows(d);
    RowsOf(Finished(d), d);
    EvaluationSucceeds(Final(), IdOf(d), 9000);
    MeasuredInFull(d, Finished(d));
    SixTenths(8000 - d.at);
  }

  lemma TotalOfTwo(s: Store, a: DecisionId, b: DecisionId, asOf: int)
    requires a != b && a in s.cases && b in s.cases && s.cases[a].key == s.cases[b].key == "pay1"
    requires LineOf(s, a, asOf).protectedGmv == 570 && LineOf(s, b, asOf).protectedGmv == 570
    requires Evaluate(s, a, asOf).Ok? && Evaluate(s, a, asOf).value.amount == 1000
    requires Evaluate(s, b, asOf).Ok? && Evaluate(s, b, asOf).value.amount == 1000
    ensures CommandsOf(s, "pay1", [a, b]) && OneAmount(s, [a, b], asOf, 1000) && Total(Lines(s, [a, b], asOf)) == 1140
  {
    var lines := Lines(s, [a, b], asOf);
    assert lines[..1][..0] == [] && Total(lines[..1]) == 570;
  }

  lemma FinalTotal()
    ensures var s, ids := Final(), [IdOf(First()), IdOf(Second())];
            CommandsOf(s, "pay1", ids) && OneAmount(s, ids, 9000, 1000) && Total(Lines(s, ids, 9000)) == 1140
  {
    EachProtects570(First());
    EachProtects570(Second());
    FinalRows(First());
    FinalRows(Second());
    TotalOfTwo(Final(), IdOf(First()), IdOf(Second()), 9000);
  }

  predicate Stored(s: Store, id: DecisionId, d: Decisioning.Decision) {
    id == IdOf(d) && id in s.decisions && s.decisions[id] == d
  }

  /** What the request asks Stage 6 to decide on is what the store shows at its decision time. */
  predicate ReadsStore(s: Store, r: Decisioning.Request) {
    && r.context.amount == SizedAmount(s.events, r.attempt.key, r.at)
    && (r.context.terminalExists <==>
          exists e <- s.events :: IsTerminalFor(e.event, r.attempt.source, r.attempt.key) && e.ingestedAt <= r.at)
    && r.context.prediction.Some?
    && var p := r.context.prediction.value;
       p.id in s.predictions && s.predictions[p.id].source == r.attempt.source
       && s.predictions[p.id].status == p.status && s.predictions[p.id].probability == p.probability
  }

  lemma RequestsRead(s: Store, requests: seq<Decisioning.Request>)
    requires s == Final() && requests == Requests()
    ensures forall r <- requests :: ReadsStore(s, r)
  {
    Amounts(None);
  }

  /**
   * Two commands of one attempt, each decided by Stage 6 under the default policy and attributed in full,
   * together protect 1140 of a payment of 1000: nothing limits the revenue attributed to several commands of
   * one attempt.
   */
  lemma TwoCommandsProtectTooMuch()
    returns (requests: seq<Decisioning.Request>, log: Decisioning.Log, ops: seq<Op>, s: Store, ids: seq<DecisionId>)
    ensures log == Decisioning.DecideAll(Decisioning.DefaultPolicy(), requests)
    ensures forall r <- requests :: ReadsStore(s, r)
    ensures s == ApplyAll(Empty(), ops) && AttributionHistory.Inv(s) && InRange(s)
    ensures |ids| == |log| == 2 && Stored(s, ids[0], log[0]) && Stored(s, ids[1], log[1])
    ensures CommandsOf(s, "pay1", ids) && OneAmount(s, ids, 9000, 1000)
    ensures Total(Lines(s, ids, 9000)) == 1140
  {
    requests, ops, s := Requests(), Ops(), Final();
    log, ids := [First(), Second()], [IdOf(First()), IdOf(Second())];
    RunReachesFinal();
    FinalIsConsistent();
    TwoDecided(Decisioning.DefaultPolicy(), requests);
    RequestsRead(s, requests);
    FinalRows(First());
    FinalRows(Second());
    FinalTotal();
  }
}

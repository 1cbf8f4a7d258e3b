/** Stage 6: gates, route scoring, verdict and the append-only decision log of one sequential decider. */
module Decisioning {
  import opened Common
  import opened Attempts
  import opened Ranking
  import Money

  datatype RouteKey =
    | RetrySecondaryGateway
    | PromptPaymentMethodSwitch
    | DynamicRetryBackoff
    | DegradationCircuitBypass
    | FallbackPaymentLink

  /** Position of the key's value in alphabetical order. */
  function Alphabetical(k: RouteKey): nat {
    match k
    case DegradationCircuitBypass => 0
    case DynamicRetryBackoff => 1
    case FallbackPaymentLink => 2
    case PromptPaymentMethodSwitch => 3
    case RetrySecondaryGateway => 4
  }

  /** The values of InterventionRouteKey. */
  function RouteName(k: RouteKey): string {
    match k
    case RetrySecondaryGateway => "RETRY_SECONDARY_GATEWAY"
    case PromptPaymentMethodSwitch => "PROMPT_PAYMENT_METHOD_SWITCH"
    case DynamicRetryBackoff => "DYNAMIC_RETRY_BACKOFF"
    case DegradationCircuitBypass => "DEGRADATION_CIRCUIT_BYPASS"
    case FallbackPaymentLink => "FALLBACK_PAYMENT_LINK"
  }

  lemma AlphabeticalMeaning(a: RouteKey, b: RouteKey)
    ensures Alphabetical(a) <= Alphabetical(b) <==> StringLeq(RouteName(a), RouteName(b))
  {
    StringTotal(RouteName(a), RouteName(b));
  }

  datatype TargetDimension = GlobalTarget | BankTarget | PaymentMethodTarget | CurrencyTarget | WalletTarget

  datatype Route = Route(
    key: RouteKey,
    targets: set<TargetDimension>,
    recoveryRate: real,
    cost: int,
    cooldown: int,
    requiresDiagnosis: bool,
    requiresStrongRca: bool,
    enabled: bool)

  datatype Policy = Policy(
    killSwitch: bool,
    actThreshold: real,
    monitorThreshold: real,
    minUtility: real,
    rateLimit: nat,
    routes: seq<Route>,
    costCurrency: string)
  {
    /** The routes are the values of a dictionary. */
    ghost predicate Valid() {
      forall i, j :: 0 <= i < j < |routes| ==> routes[i].key != routes[j].key
    }
  }

  /** get_default_policy. */
  function DefaultPolicy(): Policy {
    Policy(false, 0.70, 0.35, 50.0, 100,
           [Route(RetrySecondaryGateway, {BankTarget, GlobalTarget}, 0.55, 150, 300 * SECOND, true, false, true),
            Route(PromptPaymentMethodSwitch, {PaymentMethodTarget}, 0.65, 300, 600 * SECOND, true, true, true),
            Route(DynamicRetryBackoff, {GlobalTarget, BankTarget, PaymentMethodTarget}, 0.35, 50, 180 * SECOND, false,
                  false, true),
            Route(DegradationCircuitBypass, {BankTarget, PaymentMethodTarget}, 0.75, 500, 900 * SECOND, true, true, true),
            Route(FallbackPaymentLink, {GlobalTarget}, 0.45, 200, 1800 * SECOND, false, false, true)],
           "INR")
  }

  datatype Classification = Systemic | SegmentSpecific | UnknownCause

  datatype Stage5 = Stage5(id: nat, status: Money.PredictionStatus, probability: Option<real>)

  /** Everything decide reads as of its decision time, apart from the decision table. */
  datatype Context = Context(
    amount: int,
    currency: string,
    paymentMethod: Option<string>,
    bank: Option<string>,
    terminalExists: bool,
    prediction: Option<Stage5>,
    episodeInvalidated: bool,
    unreliableDiagnosis: bool,
    classification: Option<Classification>,
    evidence: Option<Money.EvidenceStrength>,
    candidateDimension: Option<TargetDimension>,
    matchesSegment: bool)

  datatype DecisionType = NoAction | Monitor | Act

  datatype GateVerdict =
    | Passed
    | FailedKillSwitch
    | FailedInvalidAmount
    | FailedTerminalOutcomeIngested
    | FailedStage5Unavailable
    | FailedStage5Ineligible
    | FailedEpisodeInvalidated
    | FailedUnreliableDiagnosis
    | FailedNoEligibleRoutes
    | FailedUnsupportedCostCurrency
    | FailedGlobalRateLimit

  datatype Judgement = Judgement(kind: DecisionType, route: Option<RouteKey>, gate: GateVerdict)

  datatype Decision = Decision(
    attempt: AttemptRef,
    version: nat,
    at: int,
    judgement: Judgement,
    predictionId: Option<nat>,
    diagnosis: Option<Money.EvidenceStrength>,
    fingerprint: nat)
  {
    predicate IsAct() {
      judgement.kind == Act
    }
  }

  /** The fingerprint is opaque: a hash of the attempt, the time, the context and the policy version. */
  datatype Request = Request(attempt: AttemptRef, at: int, context: Context, fingerprint: nat)

  // ---------------------------------------------------------------------------
  // Gates and eligibility
  // ---------------------------------------------------------------------------

  /** The first hard gate that fails, or Passed. */
  function HardGate(policy: Policy, c: Context): GateVerdict {
    if policy.killSwitch then FailedKillSwitch
    else if c.amount <= 0 || |c.currency| != 3 then FailedInvalidAmount
    else if c.terminalExists then FailedTerminalOutcomeIngested
    else if c.prediction.None? then FailedStage5Unavailable
    else if c.prediction.value.status != Money.Predicted || c.prediction.value.probability.None? then
      FailedStage5Ineligible
    else if c.episodeInvalidated then FailedEpisodeInvalidated
    else if c.unreliableDiagnosis then FailedUnreliableDiagnosis
    else Passed
  }

  predicate Present(o: Option<string>) {
    o.Some? && o.value != ""
  }

  predicate Applicable(route: Route, c: Context) {
    if route.requiresDiagnosis then
      match c.classification
      case Some(SegmentSpecific) =>
        c.matchesSegment && (c.candidateDimension.Some? ==> c.candidateDimension.value in route.targets)
      case Some(Systemic) => GlobalTarget in route.targets
      case _ => false
    else
      || GlobalTarget in route.targets
      || (BankTarget in route.targets && Present(c.bank))
      || (PaymentMethodTarget in route.targets && Present(c.paymentMethod))
  }

  predicate Eligible(route: Route, c: Context, onCooldown: bool) {
    && route.enabled
    && !onCooldown
    && (route.requiresStrongRca ==> c.evidence == Some(Money.Strong) || c.evidence == Some(Money.Moderate))
    && Applicable(route, c)
  }

  // ---------------------------------------------------------------------------
  // Scoring and verdict
  // ---------------------------------------------------------------------------

  datatype Score = Score(key: RouteKey, utility: int, cost: int)

  /** Expected recovery benefit, rounded half-even to minor units, less the route's cost. */
  function Utility(route: Route, c: Context, probability: real): int {
    var p := Money.HalfEven(probability * 1000000.0) as real / 1000000.0;
    Money.HalfEven(p * c.amount as real * route.recoveryRate) - route.cost
  }

  function ScoreOf(route: Route, c: Context, probability: real): Score {
    Score(route.key, Utility(route, c, probability), route.cost)
  }

  /** Utility descending, cost ascending, key ascending. */
  predicate ScoreLeq(a: Score, b: Score) {
    if a.utility != b.utility then a.utility > b.utility
    else if a.cost != b.cost then a.cost < b.cost
    else Alphabetical(a.key) <= Alphabetical(b.key)
  }

  /** The eligible candidates in policy order; none when the costs are in another currency. */
  function Candidates(
    policy: Policy, c: Context, probability: real, cooling: set<RouteKey>, routes: seq<Route>): seq<Score>
  {
    if routes == [] then []
    else
      var n := |routes| - 1;
      var before := Candidates(policy, c, probability, cooling, routes[..n]);
      if c.currency == policy.costCurrency && Eligible(routes[n], c, routes[n].key in cooling)
      then before + [ScoreOf(routes[n], c, probability)] else before
  }

  function Verdict(policy: Policy, best: Option<Score>, probability: real): Judgement {
    if best.Some? && best.value.utility as real >= policy.minUtility && probability >= policy.actThreshold then
      Judgement(Act, Some(best.value.key), Passed)
    else if probability >= policy.monitorThreshold then Judgement(Monitor, None, Passed)
    else Judgement(NoAction, None, Passed)
  }

  /** The tentative verdict, given the routes that are on cooldown. */
  function Judge(policy: Policy, c: Context, cooling: set<RouteKey>): Judgement {
    var gate := HardGate(policy, c);
    if gate != Passed then Judgement(NoAction, None, gate)
    else
      var probability := c.prediction.value.probability.value;
      var ranked := Sort(ScoreLeq, Candidates(policy, c, probability, cooling, policy.routes));
      if ranked == [] && probability >= policy.actThreshold then
        Judgement(NoAction, None,
                  if c.currency == policy.costCurrency then FailedNoEligibleRoutes else FailedUnsupportedCostCurrency)
      else Verdict(policy, if ranked == [] then None else Some(ranked[0]), probability)
  }

  ghost predicate DistinctKeys(scores: seq<Score>) {
    forall i, j :: 0 <= i < j < |scores| ==> scores[i].key != scores[j].key
  }

  lemma ScoreRanks(scores: seq<Score>)
    requires DistinctKeys(scores)
    ensures Ranks(ScoreLeq, scores)
  {
  }

  /** The score of an eligible route. */
  ghost predicate IsScored(s: Score, routes: seq<Route>, c: Context, probability: real, cooling: set<RouteKey>) {
    exists r <- routes :: Eligible(r, c, r.key in cooling) && s == ScoreOf(r, c, probability)
  }

  lemma IsScoredMore(
    s: Score, routes: seq<Route>, route: Route, c: Context, probability: real, cooling: set<RouteKey>)
    requires IsScored(s, routes, c, probability, cooling)
    ensures IsScored(s, routes + [route], c, probability, cooling)
  {
    var r :| r in routes && Eligible(r, c, r.key in cooling) && s == ScoreOf(r, c, probability);
    assert r in routes + [route];
  }

  lemma DistinctMore(scores: seq<Score>, s: Score)
    requires DistinctKeys(scores) && forall x <- scores :: x.key != s.key
    ensures DistinctKeys(scores + [s])
  {
    assert forall i :: 0 <= i < |scores| ==> scores[i] in scores;
  }

  lemma {:induction false} CandidatesMeaning(
    policy: Policy, c: Context, probability: real, cooling: set<RouteKey>, routes: seq<Route>)
    requires forall i, j :: 0 <= i < j < |routes| ==> routes[i].key != routes[j].key
    ensures var scores := Candidates(policy, c, probability, cooling, routes);
            && (forall s <- scores :: IsScored(s, routes, c, probability, cooling))
            && (forall r <- routes :: c.currency == policy.costCurrency && Eligible(r, c, r.key in cooling) ==>
                  ScoreOf(r, c, probability) in scores)
            && DistinctKeys(scores)
  {
    if routes != [] {
      var n := |routes| - 1;
      var before := Candidates(policy, c, probability, cooling, routes[..n]);
      CandidatesMeaning(policy, c, probability, cooling, routes[..n]);
      assert routes == routes[..n] + [routes[n]] && routes[n] in routes;
      forall s | s in before
        ensures IsScored(s, routes, c, probability, cooling) && s.key != routes[n].key
      {
        IsScoredMore(s, routes[..n], routes[n], c, probability, cooling);
        var r :| r in routes[..n] && Eligible(r, c, r.key in cooling) && s == ScoreOf(r, c, probability);
      }
      DistinctMore(before, ScoreOf(routes[n], c, probability));
    }
  }

  /**
   * An ACT verdict passed every gate, is for a probability at or above the threshold, and its route is
   * eligible, of maximal utility among the eligible routes, at or above the policy minimum, and the
   * cheapest and then alphabetically first among those of that utility.
   */
  lemma ActIsBest(policy: Policy, c: Context, cooling: set<RouteKey>)
    requires policy.Valid() && Judge(policy, c, cooling).kind == Act
    ensures HardGate(policy, c) == Passed && c.currency == policy.costCurrency
    ensures c.prediction.value.probability.value >= policy.actThreshold
    ensures exists r <- policy.routes ::
              && Judge(policy, c, cooling).route == Some(r.key)
              && Eligible(r, c, r.key in cooling)
              && Utility(r, c, c.prediction.value.probability.value) as real >= policy.minUtility
              && forall other <- policy.routes :: Eligible(other, c, other.key in cooling) ==>
                   ScoreLeq(ScoreOf(r, c, c.prediction.value.probability.value),
                            ScoreOf(other, c, c.prediction.value.probability.value))
  {
    var p := c.prediction.value.probability.value;
    var scores := Candidates(policy, c, p, cooling, policy.routes);
    CandidatesMeaning(policy, c, p, cooling, policy.routes);
    ScoreRanks(scores);
    SortedHeadIsLeast(ScoreLeq, scores);
    var best := Sort(ScoreLeq, scores)[0];
    if c.currency != policy.costCurrency {
      OtherCurrencyScoresNothing(policy, c, p, cooling, policy.routes);
    }
    assert IsScored(best, policy.routes, c, p, cooling);
    var r :| r in policy.routes && Eligible(r, c, r.key in cooling) && best == ScoreOf(r, c, p);
  }

  /** What the hard gates demand. */
  predicate PassesHardGates(policy: Policy, c: Context) {
    && !policy.killSwitch
    && c.amount > 0 && |c.currency| == 3
    && !c.terminalExists
    && c.prediction.Some? && c.prediction.value.status == Money.Predicted && c.prediction.value.probability.Some?
    && !c.episodeInvalidated && !c.unreliableDiagnosis
  }

  /** What the hard gates and the currency gate demand. */
  predicate PassesGates(policy: Policy, c: Context) {
    PassesHardGates(policy, c) && c.currency == policy.costCurrency
  }

  /**
   * The tentative verdict is ACT exactly when every gate passes, the probability reaches the threshold and
   * some eligible route is worth at least the policy minimum.
   */
  lemma ActExactly(policy: Policy, c: Context, cooling: set<RouteKey>)
    requires policy.Valid()
    ensures Judge(policy, c, cooling).kind == Act <==>
              && PassesGates(policy, c)
              && c.prediction.value.probability.value >= policy.actThreshold
              && exists r <- policy.routes ::
                   && Eligible(r, c, r.key in cooling)
                   && Utility(r, c, c.prediction.value.probability.value) as real >= policy.minUtility
  {
    if Judge(policy, c, cooling).kind == Act {
      ActIsBest(policy, c, cooling);
    }
    if PassesGates(policy, c) {
      var p := c.prediction.value.probability.value;
      if r :| r in policy.routes && Eligible(r, c, r.key in cooling) && Utility(r, c, p) as real >= policy.minUtility {
        var scores := Candidates(policy, c, p, cooling, policy.routes);
        CandidatesMeaning(policy, c, p, cooling, policy.routes);
        ScoreRanks(scores);
        SortedHeadIsLeast(ScoreLeq, scores);
        assert ScoreOf(r, c, p) in scores && ScoreLeq(Sort(ScoreLeq, scores)[0], ScoreOf(r, c, p));
      }
    }
  }

  /** When every gate passes, a worthwhile eligible route that no other matches is the verdict. */
  lemma BestIsChosen(policy: Policy, c: Context, cooling: set<RouteKey>, p: real, best: Route)
    requires policy.Valid() && PassesGates(policy, c) && c.prediction.value.probability == Some(p)
    requires p >= policy.actThreshold && best in policy.routes && Eligible(best, c, best.key in cooling)
    requires Utility(best, c, p) as real >= policy.minUtility
    requires forall r <- policy.routes ::
               Eligible(r, c, r.key in cooling) && ScoreLeq(ScoreOf(r, c, p), ScoreOf(best, c, p)) ==> r.key == best.key
    ensures Judge(policy, c, cooling) == Judgement(Act, Some(best.key), Passed)
  {
    ActExactly(policy, c, cooling);
    ActIsBest(policy, c, cooling);
  }

  /** Utility and cost together are the expected benefit, half-even, of the probability at six places. */
  lemma UtilityIsNearest(route: Route, c: Context, probability: real) returns (micro: int)
    ensures Money.IsHalfEven(probability * 1000000.0, micro)
    ensures Money.IsHalfEven(micro as real / 1000000.0 * c.amount as real * route.recoveryRate,
                             Utility(route, c, probability) + route.cost)
  {
    micro := Money.HalfEven(probability * 1000000.0);
    var p := micro as real / 1000000.0;
    Money.HalfEvenIsUnique(probability * 1000000.0, micro);
    Money.HalfEvenIsUnique(p * c.amount as real * route.recoveryRate, Utility(route, c, probability) + route.cost);
  }

  lemma {:induction false} OtherCurrencyScoresNothing(
    policy: Policy, c: Context, probability: real, cooling: set<RouteKey>, routes: seq<Route>)
    requires c.currency != policy.costCurrency
    ensures Candidates(policy, c, probability, cooling, routes) == []
  {
    if routes != [] {
      OtherCurrencyScoresNothing(policy, c, probability, cooling, routes[..|routes| - 1]);
    }
  }

  // ---------------------------------------------------------------------------
  // Every verdict and its gate
  // ---------------------------------------------------------------------------

  /** The conditions under which a route may be chosen. */
  predicate Suits(route: Route, c: Context, cooling: set<RouteKey>) {
    && route.enabled && route.key !in cooling
    && (!route.requiresStrongRca || c.evidence == Some(Money.Strong) || c.evidence == Some(Money.Moderate))
    && (|| (route.requiresDiagnosis && c.classification == Some(SegmentSpecific) && c.matchesSegment
            && (c.candidateDimension == None || c.candidateDimension.value in route.targets))
        || (route.requiresDiagnosis && c.classification == Some(Systemic) && GlobalTarget in route.targets)
        || (!route.requiresDiagnosis && GlobalTarget in route.targets)
        || (!route.requiresDiagnosis && BankTarget in route.targets && c.bank != None && c.bank != Some(""))
        || (!route.requiresDiagnosis && PaymentMethodTarget in route.targets
            && c.paymentMethod != None && c.paymentMethod != Some("")))
  }

  lemma EligibleMeaning(route: Route, c: Context, cooling: set<RouteKey>)
    ensures Eligible(route, c, route.key in cooling) <==> Suits(route, c, cooling)
  {
  }

  /** The route costs are in the payment's currency and some route suits the payment. */
  ghost predicate HasRoute(policy: Policy, c: Context, cooling: set<RouteKey>) {
    c.currency == policy.costCurrency && exists r <- policy.routes :: Suits(r, c, cooling)
  }

  /** Some such route is worth the policy minimum, for a probability at or above the ACT threshold. */
  ghost predicate CallsForAct(policy: Policy, c: Context, cooling: set<RouteKey>) {
    && PassesHardGates(policy, c) && c.currency == policy.costCurrency
    && c.prediction.value.probability.value >= policy.actThreshold
    && exists r <- policy.routes ::
         Suits(r, c, cooling) && Utility(r, c, c.prediction.value.probability.value) as real >= policy.minUtility
  }

  /** A risk that calls for ACT and meets no route at all. */
  ghost predicate FindsNoRoute(policy: Policy, c: Context, cooling: set<RouteKey>) {
    && PassesHardGates(policy, c)
    && c.prediction.value.probability.value >= policy.actThreshold && !HasRoute(policy, c, cooling)
  }

  /** The one gate that a tentative verdict reports: the first in the order of the gates that fails. */
  ghost predicate ReportsGate(policy: Policy, c: Context, cooling: set<RouteKey>, gate: GateVerdict) {
    var amountFits := !policy.killSwitch && c.amount > 0 && |c.currency| == 3;
    var unfinished := amountFits && !c.terminalExists;
    var predicted := unfinished && c.prediction.Some? && c.prediction.value.status == Money.Predicted
                     && c.prediction.value.probability.Some?;
    match gate
    case FailedKillSwitch => policy.killSwitch
    case FailedInvalidAmount => !policy.killSwitch && (c.amount <= 0 || |c.currency| != 3)
    case FailedTerminalOutcomeIngested => amountFits && c.terminalExists
    case FailedStage5Unavailable => unfinished && c.prediction == None
    case FailedStage5Ineligible => unfinished && c.prediction != None && !predicted
    case FailedEpisodeInvalidated => predicted && c.episodeInvalidated
    case FailedUnreliableDiagnosis => predicted && !c.episodeInvalidated && c.unreliableDiagnosis
    case FailedNoEligibleRoutes => FindsNoRoute(policy, c, cooling) && c.currency == policy.costCurrency
    case FailedUnsupportedCostCurrency => FindsNoRoute(policy, c, cooling) && c.currency != policy.costCurrency
    case Passed => PassesHardGates(policy, c) && !FindsNoRoute(policy, c, cooling)
    case FailedGlobalRateLimit => false
  }

  /** No candidate is scored exactly when no route in the cost currency suits the payment. */
  lemma NoCandidates(policy: Policy, c: Context, p: real, cooling: set<RouteKey>)
    requires policy.Valid()
    ensures Candidates(policy, c, p, cooling, policy.routes) == [] <==> !HasRoute(policy, c, cooling)
  {
    var scores := Candidates(policy, c, p, cooling, policy.routes);
    CandidatesMeaning(policy, c, p, cooling, policy.routes);
    if c.currency != policy.costCurrency {
      OtherCurrencyScoresNothing(policy, c, p, cooling, policy.routes);
    }
    forall r: Route
      ensures Eligible(r, c, r.key in cooling) <==> Suits(r, c, cooling)
    {
      EligibleMeaning(r, c, cooling);
    }
    if scores != [] {
      assert IsScored(scores[0], policy.routes, c, p, cooling);
    }
  }

  /** ACT, MONITOR and NO_ACTION, each exactly when. */
  lemma VerdictMeaning(policy: Policy, c: Context, cooling: set<RouteKey>)
    requires policy.Valid()
    ensures var j := Judge(policy, c, cooling);
            && (j.kind == Act <==> CallsForAct(policy, c, cooling))
            && (j.kind == Monitor <==>
                  && PassesHardGates(policy, c) && c.prediction.value.probability.value >= policy.monitorThreshold
                  && !CallsForAct(policy, c, cooling) && !FindsNoRoute(policy, c, cooling))
            && (j.route.Some? <==> j.kind == Act)
  {
    ActExactly(policy, c, cooling);
    forall r: Route
      ensures Eligible(r, c, r.key in cooling) <==> Suits(r, c, cooling)
    {
      EligibleMeaning(r, c, cooling);
    }
    if PassesHardGates(policy, c) {
      var p := c.prediction.value.probability.value;
      NoCandidates(policy, c, p, cooling);
      SortIsEmpty(Candidates(policy, c, p, cooling, policy.routes));
    }
  }

  lemma SortIsEmpty(scores: seq<Score>)
    ensures Sort(ScoreLeq, scores) == [] <==> scores == []
  {
  }

  lemma GateMeaning(policy: Policy, c: Context, cooling: set<RouteKey>)
    requires policy.Valid()
    ensures ReportsGate(policy, c, cooling, Judge(policy, c, cooling).gate)
  {
    if PassesHardGates(policy, c) {
      var p := c.prediction.value.probability.value;
      NoCandidates(policy, c, p, cooling);
      SortIsEmpty(Candidates(policy, c, p, cooling, policy.routes));
    }
  }

  // ---------------------------------------------------------------------------
  // The decision log
  // ---------------------------------------------------------------------------

  type Log = seq<Decision>

  /** The decisions of one attempt, in insertion order. */
  function Of(log: Log, attempt: AttemptRef): Log {
    if log == [] then []
    else
      var n := |log| - 1;
      Of(log[..n], attempt) + (if log[n].attempt == attempt then [log[n]] else [])
  }

  function MaxVersion(log: Log, attempt: AttemptRef): nat {
    if log == [] then 0
    else
      var n := |log| - 1;
      var v := MaxVersion(log[..n], attempt);
      if log[n].attempt == attempt && log[n].version > v then log[n].version else v
  }

  /** The row of the highest version. */
  function Latest(log: Log, attempt: AttemptRef): Option<Decision> {
    if log == [] then None
    else
      var n := |log| - 1;
      var before := Latest(log[..n], attempt);
      if log[n].attempt == attempt && (before.None? || log[n].version > before.value.version)
      then Some(log[n]) else before
  }

  function CountActs(log: Log, since: int): nat {
    if log == [] then 0
    else
      var n := |log| - 1;
      CountActs(log[..n], since) + (if log[n].IsAct() && log[n].at >= since then 1 else 0)
  }

  predicate OnCooldown(log: Log, attempt: AttemptRef, key: RouteKey, since: int) {
    exists d <- log :: d.attempt == attempt && d.IsAct() && d.judgement.route == Some(key) && d.at >= since
  }

  /** The routes whose cooldown query finds a decision. */
  function Cooling(log: Log, attempt: AttemptRef, at: int, routes: seq<Route>): set<RouteKey> {
    set r <- routes | OnCooldown(log, attempt, r.key, at - r.cooldown) :: r.key
  }

  /** The global rate limit, applied to an ACT verdict only. */
  function Admit(policy: Policy, log: Log, at: int, j: Judgement): Judgement {
    if j.kind == Act && CountActs(log, at - 60 * SECOND) >= policy.rateLimit
    then Judgement(NoAction, None, FailedGlobalRateLimit) else j
  }

  predicate IsRepeat(log: Log, r: Request) {
    var latest := Latest(log, r.attempt);
    latest.Some? && latest.value.fingerprint == r.fingerprint
  }

  function RowFor(log: Log, r: Request, j: Judgement): Decision {
    Decision(r.attempt, MaxVersion(log, r.attempt) + 1, r.at, j,
             if r.context.prediction.Some? then Some(r.context.prediction.value.id) else None,
             r.context.evidence, r.fingerprint)
  }

  function NewDecision(policy: Policy, log: Log, r: Request): Decision {
    var tentative := Judge(policy, r.context, Cooling(log, r.attempt, r.at, policy.routes));
    RowFor(log, r, Admit(policy, log, r.at, tentative))
  }

  /** The log after one decide that runs alone. */
  function Decide(policy: Policy, log: Log, r: Request): Log {
    if IsRepeat(log, r) then log else log + [NewDecision(policy, log, r)]
  }

  /** A verdict that is admitted is appended. */
  lemma DecidesAs(policy: Policy, log: Log, r: Request, cooling: set<RouteKey>, j: Judgement)
    requires !IsRepeat(log, r) && Cooling(log, r.attempt, r.at, policy.routes) == cooling
    requires Judge(policy, r.context, cooling) == j && CountActs(log, r.at - 60 * SECOND) < policy.rateLimit
    ensures Decide(policy, log, r) == log + [RowFor(log, r, j)]
  {
  }

  function DecideAll(policy: Policy, requests: seq<Request>): Log {
    if requests == [] then []
    else Decide(policy, DecideAll(policy, requests[..|requests| - 1]), requests[|requests| - 1])
  }

  // What one decide appends

  predicate IsActSince(d: Decision, since: int) {
    d.judgement.kind == Act && d.at >= since
  }

  /** The number of ACT decisions in the log stamped at or after a time. */
  ghost function ActsSince(log: Log, since: int): nat {
    |ActPlaces(log, since)|
  }

  ghost function ActPlaces(log: Log, since: int): set<nat> {
    set i: nat | i < |log| && IsActSince(log[i], since)
  }

  lemma ActPlacesGrow(log: Log, d: Decision, since: int)
    ensures ActPlaces(log + [d], since) == ActPlaces(log, since) + (if IsActSince(d, since) then {|log|} else {})
  {
    forall i: nat | i < |log|
      ensures (log + [d])[i] == log[i]
    {
    }
  }

  lemma {:induction false} CountIsActsSince(log: Log, since: int)
    ensures CountActs(log, since) == ActsSince(log, since)
  {
    if log != [] {
      var n := |log| - 1;
      assert log == log[..n] + [log[n]];
      CountIsActsSince(log[..n], since);
      ActPlacesGrow(log[..n], log[n], since);
      assert n !in ActPlaces(log[..n], since);
    }
  }

  /** The routes an ACT of the attempt chose within their cooldown. */
  ghost predicate IsCooling(log: Log, attempt: AttemptRef, at: int, routes: seq<Route>, cooling: set<RouteKey>) {
    forall key :: key in cooling <==>
                    exists r, d :: r in routes && d in log && r.key == key && d.attempt == attempt
                                   && d.judgement.kind == Act && d.judgement.route == Some(key) && d.at >= at - r.cooldown
  }

  lemma CoolingMeaning(log: Log, attempt: AttemptRef, at: int, routes: seq<Route>)
    ensures IsCooling(log, attempt, at, routes, Cooling(log, attempt, at, routes))
  {
  }

  /** The row's columns come from the request, and its version is one above the highest of the attempt. */
  ghost predicate HasColumns(log: Log, r: Request, d: Decision) {
    && d.attempt == r.attempt && d.at == r.at && d.fingerprint == r.fingerprint && d.diagnosis == r.context.evidence
    && (r.context.prediction == None ==> d.predictionId == None)
    && (r.context.prediction != None ==> d.predictionId == Some(r.context.prediction.value.id))
    && d.version > 0 && (forall x <- log :: x.attempt == r.attempt ==> x.version < d.version)
    && (d.version == 1 || exists x <- log :: x.attempt == r.attempt && x.version + 1 == d.version)
  }

  /** The verdict, its gate and its route; `full` when the last minute has as many ACTs as the limit. */
  ghost predicate Settles(policy: Policy, c: Context, cooling: set<RouteKey>, full: bool, j: Judgement) {
    && (j.kind == Act <==> CallsForAct(policy, c, cooling) && !full)
    && (j.kind == Monitor <==>
          && PassesHardGates(policy, c) && c.prediction.value.probability.value >= policy.monitorThreshold
          && !CallsForAct(policy, c, cooling) && !FindsNoRoute(policy, c, cooling))
    && (j.route.Some? <==> j.kind == Act)
    && (if CallsForAct(policy, c, cooling) && full then j.gate == FailedGlobalRateLimit
        else ReportsGate(policy, c, cooling, j.gate))
    && (j.kind == Act ==> exists best <- policy.routes :: j.route == Some(best.key) && IsBest(policy, c, cooling, best))
  }

  ghost predicate IsBest(policy: Policy, c: Context, cooling: set<RouteKey>, best: Route) {
    && c.prediction.Some? && c.prediction.value.probability.Some? && Suits(best, c, cooling)
    && forall other <- policy.routes :: Suits(other, c, cooling) ==>
         NoBetter(other, best, c, c.prediction.value.probability.value)
  }

  /** The row answers the request: its columns, its version, and the verdict with its gate and route. */
  ghost predicate Justified(policy: Policy, log: Log, r: Request, cooling: set<RouteKey>, d: Decision) {
    && HasColumns(log, r, d)
    && Settles(policy, r.context, cooling, ActsSince(log, r.at - 60 * SECOND) >= policy.rateLimit, d.judgement)
  }

  /** Less useful, or as useful and dearer, or as useful and as dear and later in the alphabet, or the same route. */
  predicate NoBetter(other: Route, best: Route, c: Context, p: real) {
    || Utility(other, c, p) < Utility(best, c, p)
    || (Utility(other, c, p) == Utility(best, c, p) && other.cost > best.cost)
    || (Utility(other, c, p) == Utility(best, c, p) && other.cost == best.cost
        && StringLeq(RouteName(best.key), RouteName(other.key)))
  }

  lemma {:induction false} VersionIsNext(log: Log, attempt: AttemptRef)
    ensures forall x <- log :: x.attempt == attempt ==> x.version <= MaxVersion(log, attempt)
    ensures MaxVersion(log, attempt) == 0 || exists x <- log :: x.attempt == attempt && x.version == MaxVersion(log, attempt)
  {
    if log != [] {
      var n := |log| - 1;
      VersionIsNext(log[..n], attempt);
      assert log == log[..n] + [log[n]];
      assert log[n] in log;
    }
  }

  lemma ChosenIsBest(policy: Policy, c: Context, cooling: set<RouteKey>)
    requires policy.Valid() && Judge(policy, c, cooling).kind == Act
    ensures exists best <- policy.routes ::
              Judge(policy, c, cooling).route == Some(best.key) && IsBest(policy, c, cooling, best)
  {
    ActIsBest(policy, c, cooling);
    var p := c.prediction.value.probability.value;
    forall r: Route
      ensures Eligible(r, c, r.key in cooling) <==> Suits(r, c, cooling)
    {
      EligibleMeaning(r, c, cooling);
    }
    var best :| best in policy.routes && Judge(policy, c, cooling).route == Some(best.key)
                && Eligible(best, c, best.key in cooling)
                && forall other <- policy.routes :: Eligible(other, c, other.key in cooling) ==>
                     ScoreLeq(ScoreOf(best, c, p), ScoreOf(other, c, p));
    forall other | other in policy.routes && Suits(other, c, cooling)
      ensures NoBetter(other, best, c, p)
    {
      LeqIsNoBetter(best, other, c, p);
    }
    assert IsBest(policy, c, cooling, best);
  }

  lemma LeqIsNoBetter(best: Route, other: Route, c: Context, p: real)
    requires ScoreLeq(ScoreOf(best, c, p), ScoreOf(other, c, p))
    ensures NoBetter(other, best, c, p)
  {
    AlphabeticalMeaning(best.key, other.key);
  }

  lemma AdmittedVerdict(policy: Policy, log: Log, at: int, c: Context, cooling: set<RouteKey>)
    requires policy.Valid()
    ensures Settles(policy, c, cooling, ActsSince(log, at - 60 * SECOND) >= policy.rateLimit,
                    Admit(policy, log, at, Judge(policy, c, cooling)))
  {
    CountIsActsSince(log, at - 60 * SECOND);
    VerdictMeaning(policy, c, cooling);
    GateMeaning(policy, c, cooling);
    if Judge(policy, c, cooling).kind == Act {
      ChosenIsBest(policy, c, cooling);
    }
  }

  lemma RowHasColumns(log: Log, r: Request, j: Judgement)
    ensures HasColumns(log, r, RowFor(log, r, j))
  {
    VersionIsNext(log, r.attempt);
  }

  /** Every row a decide appends is justified by the request and the log it found. */
  lemma NewDecisionIsJustified(policy: Policy, log: Log, r: Request) returns (cooling: set<RouteKey>)
    requires policy.Valid()
    ensures IsCooling(log, r.attempt, r.at, policy.routes, cooling)
    ensures Justified(policy, log, r, cooling, NewDecision(policy, log, r))
  {
    cooling := Cooling(log, r.attempt, r.at, policy.routes);
    CoolingMeaning(log, r.attempt, r.at, policy.routes);
    AdmittedVerdict(policy, log, r.at, r.context, cooling);
    RowHasColumns(log, r, Admit(policy, log, r.at, Judge(policy, r.context, cooling)));
  }

  ghost predicate Explained(policy: Policy, log: Log, r: Request, d: Decision) {
    exists cooling :: IsCooling(log, r.attempt, r.at, policy.routes, cooling) && Justified(policy, log, r, cooling, d)
  }

  class InterventionDecisionService {
    const policy: Policy
    var decisions: Log
    var registry: Registry

    constructor (policy: Policy, registry: Registry)
      ensures this.policy == policy && this.registry == registry && decisions == []
    {
      this.policy, this.registry, decisions := policy, registry, [];
    }

    method ScoreRoutes(r: Request, probability: real) returns (scores: seq<Score>)
      ensures scores == Candidates(policy, r.context, probability,
                                   Cooling(decisions, r.attempt, r.at, policy.routes), policy.routes)
      requires policy.Valid()
    {
      scores := [];
      ghost var cooling := Cooling(decisions, r.attempt, r.at, policy.routes);
      for i := 0 to |policy.routes|
        invariant scores == Candidates(policy, r.context, probability, cooling, policy.routes[..i])
      {
        assert policy.routes[..i + 1][..i] == policy.routes[..i];
        var route := policy.routes[i];
        if r.context.currency == policy.costCurrency {
          var onCooldown := OnCooldown(decisions, r.attempt, route.key, r.at - route.cooldown);
          assert route in policy.routes;
          assert onCooldown <==> route.key in cooling;
          if Eligible(route, r.context, onCooldown) {
            scores := scores + [ScoreOf(route, r.context, probability)];
          }
        }
      }
      assert policy.routes[..|policy.routes|] == policy.routes;
    }

    method AppendDecision(d: Decision)
      modifies this`decisions
      ensures decisions == old(decisions) + [d]
    {
      decisions := decisions + [d];
    }

    method DecideAttempt(r: Request) returns (result: Result<Decision, IdentityError>)
      requires policy.Valid()
      modifies this`decisions
      ensures match Require(registry, r.attempt)
              case Err(error) => result == Err(error) && decisions == old(decisions)
              case Ok(_) =>
                && decisions == Decide(policy, old(decisions), r)
                && (decisions != old(decisions) ==>
                      |decisions| == |old(decisions)| + 1 && decisions[..|old(decisions)|] == old(decisions)
                      && Explained(policy, old(decisions), r, decisions[|old(decisions)|]))
                && result.Ok? && result.value.fingerprint == r.fingerprint
                && Latest(decisions, r.attempt) == Some(result.value)
    {
      var registered := Require(registry, r.attempt);
      if registered.Err? {
        return Err(registered.error);
      }
      var latest := Latest(decisions, r.attempt);
      if latest.Some? && latest.value.fingerprint == r.fingerprint {
        return Ok(latest.value);
      }
      var c := r.context;
      var verdict := Judgement(NoAction, None, HardGate(policy, c));
      if verdict.gate == Passed {
        var probability := c.prediction.value.probability.value;
        var candidates := ScoreRoutes(r, probability);
        var ranked := Sort(ScoreLeq, candidates);
        if ranked == [] && probability >= policy.actThreshold {
          verdict := Judgement(NoAction, None,
                               if c.currency == policy.costCurrency then FailedNoEligibleRoutes
                               else FailedUnsupportedCostCurrency);
        } else {
          verdict := Verdict(policy, if ranked == [] then None else Some(ranked[0]), probability);
          if verdict.kind == Act {
            var recent := CountActs(decisions, r.at - 60 * SECOND);
            if recent >= policy.rateLimit {
              verdict := Judgement(NoAction, None, FailedGlobalRateLimit);
            }
          }
        }
      }
      assert verdict == Admit(policy, decisions, r.at, Judge(policy, c, Cooling(decisions, r.attempt, r.at, policy.routes)));
      var d := RowFor(decisions, r, verdict);
      AppendIsLatest(decisions, d);
      ghost var cooling := NewDecisionIsJustified(policy, decisions, r);
      AppendDecision(d);
      result := Ok(d);
    }
  }

  lemma {:induction false} LatestIsMax(log: Log, attempt: AttemptRef)
    ensures Latest(log, attempt).Some? ==> Latest(log, attempt).value.version <= MaxVersion(log, attempt)
    ensures Latest(log, attempt).Some? ==> Latest(log, attempt).value in log
    ensures forall d <- log :: d.attempt == attempt ==> d.version <= MaxVersion(log, attempt)
  {
    if log != [] {
      LatestIsMax(log[..|log| - 1], attempt);
    }
  }

  lemma AppendIsLatest(log: Log, d: Decision)
    requires d.version == MaxVersion(log, d.attempt) + 1
    ensures Latest(log + [d], d.attempt) == Some(d)
  {
    LatestIsMax(log, d.attempt);
    assert (log + [d])[..|log|] == log;
  }

  // ---------------------------------------------------------------------------
  // What every log keeps
  // ---------------------------------------------------------------------------

  /** The versions of an attempt are 1, 2, ..., n and neighbours differ in their fingerprints. */
  ghost predicate Dense(rows: Log) {
    && (forall k :: 0 <= k < |rows| ==> rows[k].version == k + 1)
    && (forall k :: 0 < k < |rows| ==> rows[k].fingerprint != rows[k - 1].fingerprint)
  }

  predicate FoundRoom(policy: Policy, log: Log, i: nat)
    requires i < |log|
  {
    log[i].IsAct() ==> CountActs(log[..i], log[i].at - 60 * SECOND) < policy.rateLimit
  }

  /** At its insertion, every ACT found fewer than the limit of ACTs in the minute before it or later. */
  ghost predicate Admitted(policy: Policy, log: Log) {
    forall i :: 0 <= i < |log| ==> FoundRoom(policy, log, i)
  }

  /** A later ACT of an attempt on the same route is strictly more than the cooldown after the earlier one. */
  ghost predicate Cooled(policy: Policy, log: Log) {
    forall i, j, r :: 0 <= i < j < |log| && r in policy.routes && log[i].attempt == log[j].attempt
                      && log[i].IsAct() && log[j].IsAct() && log[i].judgement.route == log[j].judgement.route == Some(r.key)
                      ==> log[j].at - log[i].at > r.cooldown
  }

  lemma DensePrefix(rows: Log, n: nat)
    requires Dense(rows) && n <= |rows|
    ensures Dense(rows[..n])
  {
    forall k | 0 <= k < n
      ensures rows[..n][k] == rows[k]
    {
    }
  }

  lemma {:induction false} DenseHistory(log: Log, attempt: AttemptRef)
    requires Dense(Of(log, attempt))
    ensures MaxVersion(log, attempt) == |Of(log, attempt)|
    ensures var rows := Of(log, attempt);
            Latest(log, attempt) == if rows == [] then None else Some(rows[|rows| - 1])
  {
    if log != [] {
      var n := |log| - 1;
      var rows := Of(log, attempt);
      var before := Of(log[..n], attempt);
      assert before == rows[..|before|];
      DensePrefix(rows, |before|);
      if log[n].attempt == attempt {
        assert rows[|before|] == log[n];
      }
      DenseHistory(log[..n], attempt);
    }
  }

  lemma {:induction false} LogsAreDense(policy: Policy, requests: seq<Request>, attempt: AttemptRef)
    ensures Dense(Of(DecideAll(policy, requests), attempt))
  {
    if requests != [] {
      var n := |requests| - 1;
      var log := DecideAll(policy, requests[..n]);
      LogsAreDense(policy, requests[..n], attempt);
      DenseHistory(log, attempt);
      if !IsRepeat(log, requests[n]) {
        assert DecideAll(policy, requests)[..|log|] == log;
      }
    }
  }

  /** A later row of an attempt has a higher version. */
  lemma {:induction false} VersionsGrow(policy: Policy, requests: seq<Request>, i: nat, j: nat)
    requires i < j < |DecideAll(policy, requests)|
    requires DecideAll(policy, requests)[i].attempt == DecideAll(policy, requests)[j].attempt
    ensures DecideAll(policy, requests)[i].version < DecideAll(policy, requests)[j].version
  {
    var n := |requests| - 1;
    var before := DecideAll(policy, requests[..n]);
    if j < |before| {
      VersionsGrow(policy, requests[..n], i, j);
    } else {
      VersionIsNext(before, requests[n].attempt);
      assert before[i] in before;
    }
  }

  /** The row is the last one of the attempt in the log. */
  ghost predicate IsLastOf(log: Log, attempt: AttemptRef, i: nat) {
    i < |log| && log[i].attempt == attempt && forall j :: i < j < |log| ==> log[j].attempt != attempt
  }

  lemma {:induction false} LastOfAttempt(log: Log, attempt: AttemptRef, i: nat)
    requires IsLastOf(log, attempt, i)
    ensures var rows := Of(log, attempt); rows != [] && rows[|rows| - 1] == log[i]
  {
    var n := |log| - 1;
    if i < n {
      assert log[n].attempt != attempt;
      LastOfAttempt(log[..n], attempt, i);
    }
  }

  lemma {:induction false} SomeOfAttempt(log: Log, attempt: AttemptRef)
    ensures Of(log, attempt) != [] ==> exists i: nat :: IsLastOf(log, attempt, i)
  {
    if log != [] {
      var n := |log| - 1;
      if log[n].attempt == attempt {
        assert IsLastOf(log, attempt, n);
      } else {
        SomeOfAttempt(log[..n], attempt);
        if i: nat :| IsLastOf(log[..n], attempt, i) {
          assert IsLastOf(log, attempt, i);
        }
      }
    }
  }

  /** A request is answered from the log exactly when the last row of its attempt has its fingerprint. */
  lemma RepeatMeaning(policy: Policy, requests: seq<Request>, r: Request)
    ensures var log := DecideAll(policy, requests);
            IsRepeat(log, r) <==> exists i: nat :: IsLastOf(log, r.attempt, i) && log[i].fingerprint == r.fingerprint
  {
    var log := DecideAll(policy, requests);
    LogsAreDense(policy, requests, r.attempt);
    DenseHistory(log, r.attempt);
    SomeOfAttempt(log, r.attempt);
    forall i: nat | IsLastOf(log, r.attempt, i)
      ensures Latest(log, r.attempt) == Some(log[i])
    {
      LastOfAttempt(log, r.attempt, i);
    }
  }

  lemma AppendAdmitted(policy: Policy, log: Log, d: Decision)
    requires Admitted(policy, log)
    requires d.IsAct() ==> CountActs(log, d.at - 60 * SECOND) < policy.rateLimit
    ensures Admitted(policy, log + [d])
  {
    var log' := log + [d];
    forall i | 0 <= i < |log'|
      ensures FoundRoom(policy, log', i)
    {
      assert log'[..i] == log[..i] && log[..|log|] == log;
      assert i < |log| ==> FoundRoom(policy, log, i);
    }
  }

  lemma NewActIsAdmitted(policy: Policy, log: Log, r: Request)
    ensures NewDecision(policy, log, r).at == r.at
    ensures NewDecision(policy, log, r).IsAct() ==> CountActs(log, r.at - 60 * SECOND) < policy.rateLimit
  {
  }

  lemma DecideKeepsAdmitted(policy: Policy, log: Log, r: Request)
    requires Admitted(policy, log)
    ensures Admitted(policy, Decide(policy, log, r))
  {
    if !IsRepeat(log, r) {
      NewActIsAdmitted(policy, log, r);
      AppendAdmitted(policy, log, NewDecision(policy, log, r));
    }
  }

  lemma {:induction false} LogsAreAdmitted(policy: Policy, requests: seq<Request>)
    ensures Admitted(policy, DecideAll(policy, requests))
  {
    if requests != [] {
      var n := |requests| - 1;
      LogsAreAdmitted(policy, requests[..n]);
      DecideKeepsAdmitted(policy, DecideAll(policy, requests[..n]), requests[n]);
    }
  }

  lemma NewActIsCooled(policy: Policy, log: Log, r: Request, route: Route)
    requires policy.Valid() && route in policy.routes
    requires NewDecision(policy, log, r).IsAct() && NewDecision(policy, log, r).judgement.route == Some(route.key)
    ensures !OnCooldown(log, r.attempt, route.key, r.at - route.cooldown)
  {
    var cooling := Cooling(log, r.attempt, r.at, policy.routes);
    ActIsBest(policy, r.context, cooling);
    var chosen :| chosen in policy.routes && Some(chosen.key) == Some(route.key)
                  && Eligible(chosen, r.context, chosen.key in cooling);
    assert chosen == route;
  }

  lemma {:induction false} LogsAreCooled(policy: Policy, requests: seq<Request>)
    requires policy.Valid()
    ensures Cooled(policy, DecideAll(policy, requests))
  {
    if requests != [] {
      var n := |requests| - 1;
      var request := requests[n];
      var log, log' := DecideAll(policy, requests[..n]), DecideAll(policy, requests);
      LogsAreCooled(policy, requests[..n]);
      if !IsRepeat(log, request) {
        forall i, j, r | 0 <= i < j < |log'| && r in policy.routes && log'[i].attempt == log'[j].attempt
                         && log'[i].IsAct() && log'[j].IsAct()
                         && log'[i].judgement.route == log'[j].judgement.route == Some(r.key)
          ensures log'[j].at - log'[i].at > r.cooldown
        {
          assert log'[i] == log[i] && log[i] in log;
          if j < |log| {
            assert log'[j] == log[j];
          } else {
            NewActIsCooled(policy, log, request, r);
          }
        }
      }
    }
  }

  /** ACT decisions stamped in the closed interval [from, to]. */
  function ActsBetween(log: Log, from: int, to: int): nat {
    if log == [] then 0
    else
      var n := |log| - 1;
      ActsBetween(log[..n], from, to) + (if log[n].IsAct() && from <= log[n].at <= to then 1 else 0)
  }

  lemma {:induction false} BetweenIsRecent(log: Log, from: int, to: int, since: int)
    requires since <= from
    ensures ActsBetween(log, from, to) <= CountActs(log, since)
  {
    if log != [] {
      BetweenIsRecent(log[..|log| - 1], from, to, since);
    }
  }

  lemma AdmittedPrefix(policy: Policy, log: Log, n: nat)
    requires Admitted(policy, log) && n <= |log|
    ensures Admitted(policy, log[..n])
  {
    forall i | 0 <= i < n
      ensures FoundRoom(policy, log[..n], i)
    {
      assert FoundRoom(policy, log, i) && log[..n][..i] == log[..i];
    }
  }

  /** The last ACT inserted into the interval saw all the others, whatever the order of their stamps. */
  lemma {:induction false} AdmittedIntervals(policy: Policy, log: Log, from: int)
    requires Admitted(policy, log)
    ensures ActsBetween(log, from, from + 60 * SECOND) <= policy.rateLimit
  {
    if log != [] {
      var n := |log| - 1;
      AdmittedPrefix(policy, log, n);
      assert FoundRoom(policy, log, n);
      AdmittedIntervals(policy, log[..n], from);
      if log[n].IsAct() && from <= log[n].at <= from + 60 * SECOND {
        BetweenIsRecent(log[..n], from, from + 60 * SECOND, log[n].at - 60 * SECOND);
      }
    }
  }

  /** No closed interval of 60 seconds ever holds more ACT decisions than the limit. */
  lemma RateLimit(policy: Policy, requests: seq<Request>, from: int)
    ensures ActsBetween(DecideAll(policy, requests), from, from + 60 * SECOND) <= policy.rateLimit
  {
    LogsAreAdmitted(policy, requests);
    AdmittedIntervals(policy, DecideAll(policy, requests), from);
  }
}

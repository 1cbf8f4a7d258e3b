/** Stage 3: signals, severity and the episode state machine of one segment. */
module Degradation {
  import opened Common

  const MIN_ABSOLUTE_RATE_DROP: real := 0.05
  const MIN_RELATIVE_RATE_DROP: real := 0.10
  const MIN_BASELINE_RATE_FOR_RELATIVE_TEST: real := 0.05
  const REQUIRED_CONSECUTIVE_WINDOWS: nat := 3
  const RECOVERY_CONSECUTIVE_WINDOWS: nat := 2
  const SEVERITY_HIGH_ABSOLUTE_DROP: real := 0.15
  const SEVERITY_HIGH_RELATIVE_DROP: real := 0.25
  const SEVERITY_CRITICAL_ABSOLUTE_DROP: real := 0.30
  const SEVERITY_CRITICAL_RELATIVE_DROP: real := 0.50

  /** The dimensions Stage 2 writes; no two of them differ only in letter case. */
  datatype Dimension = Global | Currency | PaymentMethod | Bank | Wallet | ErrorSource

  datatype Segment = Segment(dimension: Dimension, value: string)

  datatype Snapshot = Snapshot(
    segment: Segment,
    window: int,
    successRate: Option<real>,
    baseline: Option<real>,
    insufficientVolume: bool)
  {
    /** A window compared with a baseline has a success rate. */
    predicate Valid() {
      baseline.Some? && !insufficientVolume ==> successRate.Some?
    }
  }

  datatype SignalType = Normal | Bad | LowVolume | NoBaseline

  /** What the state machine reads of a signal. */
  datatype Reading = Reading(
    window: int,
    kind: SignalType,
    baseline: Option<real>,
    absoluteDrop: Option<real>,
    relativeDrop: Option<real>)

  datatype Signal = Signal(segment: Segment, version: nat, evaluatedAt: int, reading: Reading)

  datatype Severity = Moderate | High | Critical

  datatype EpisodeStatus = Active | Recovered | Invalidated

  /** uuid5 of the segment and the first bad window, taken as that tuple. */
  datatype EpisodeId = EpisodeId(segment: Segment, startedAt: int)

  datatype Episode = Episode(
    id: EpisodeId,
    status: EpisodeStatus,
    peak: real,
    count: nat,
    severity: Severity,
    endedAt: Option<int>)

  // ---------------------------------------------------------------------------
  // Signals and severity
  // ---------------------------------------------------------------------------

  function Evaluate(s: Snapshot): Reading
    requires s.Valid()
  {
    if s.baseline.None? then Reading(s.window, NoBaseline, None, None, None)
    else if s.insufficientVolume then Reading(s.window, LowVolume, s.baseline, None, None)
    else
      var base := s.baseline.value;
      var drop := base - s.successRate.value;
      var relative := if base > 0.0 then drop / base else 0.0;
      var bad := drop >= MIN_ABSOLUTE_RATE_DROP
                 && (base < MIN_BASELINE_RATE_FOR_RELATIVE_TEST || relative >= MIN_RELATIVE_RATE_DROP);
      Reading(s.window, if bad then Bad else Normal, s.baseline, Some(drop), Some(relative))
  }

  function SeverityOf(r: Reading): Severity {
    if r.absoluteDrop.None? || r.relativeDrop.None? then Moderate
    else
      var base := if r.baseline.Some? then r.baseline.value else 0.0;
      var relativeApplies := base >= MIN_BASELINE_RATE_FOR_RELATIVE_TEST;
      if r.absoluteDrop.value >= SEVERITY_CRITICAL_ABSOLUTE_DROP
         || (relativeApplies && r.relativeDrop.value >= SEVERITY_CRITICAL_RELATIVE_DROP) then Critical
      else if r.absoluteDrop.value >= SEVERITY_HIGH_ABSOLUTE_DROP
              || (relativeApplies && r.relativeDrop.value >= SEVERITY_HIGH_RELATIVE_DROP) then High
      else Moderate
  }

  function Rank(s: Severity): nat {
    match s case Moderate => 1 case High => 2 case Critical => 3
  }

  function Escalate(current: Severity, proposed: Severity): Severity {
    if Rank(proposed) > Rank(current) then proposed else current
  }

  /** Success rates are shares of transactions and a baseline is a median of such rates. */
  predicate InUnit(s: Snapshot) {
    && (s.successRate.Some? ==> 0.0 <= s.successRate.value <= 1.0)
    && (s.baseline.Some? ==> 0.0 <= s.baseline.value <= 1.0)
  }

  lemma RelativeDrop(base: real, drop: real, share: real)
    requires base > 0.0
    ensures drop / base >= share <==> drop >= share * base
  {
    assert drop / base * base == drop;
    if drop / base >= share {
      assert (drop / base - share) * base >= 0.0;
    } else {
      assert (share - drop / base) * base > 0.0;
    }
  }

  /**
   * A window is BAD exactly when it has a baseline and enough volume and its rate dropped by 0.05 and by a
   * tenth of the baseline: the branch for tiny baselines can never be BAD.
   */
  lemma BadMeaning(s: Snapshot)
    requires s.Valid() && InUnit(s)
    ensures Evaluate(s).kind == Bad <==>
              && s.baseline.Some? && !s.insufficientVolume
              && s.baseline.value - s.successRate.value >= 0.05
              && s.baseline.value - s.successRate.value >= 0.1 * s.baseline.value
    ensures Evaluate(s).kind == Normal ==> s.baseline.Some? && !s.insufficientVolume
  {
    if s.baseline.Some? && !s.insufficientVolume && s.baseline.value > 0.0 {
      RelativeDrop(s.baseline.value, s.baseline.value - s.successRate.value, MIN_RELATIVE_RATE_DROP);
    }
  }

  /** Every column of a reading: its kind, and its drops exactly when the rate was compared with a baseline. */
  lemma ReadingMeaning(s: Snapshot)
    requires s.Valid()
    ensures var r := Evaluate(s);
            && r.window == s.window && r.baseline == s.baseline
            && (r.kind == NoBaseline <==> s.baseline == None)
            && (r.kind == LowVolume <==> s.baseline != None && s.insufficientVolume)
            && (s.baseline == None || s.insufficientVolume ==> r.absoluteDrop == None && r.relativeDrop == None)
            && (s.baseline != None && !s.insufficientVolume ==>
                  var base, drop := s.baseline.value, s.baseline.value - s.successRate.value;
                  && r.absoluteDrop == Some(drop) && r.relativeDrop.Some?
                  && (base > 0.0 ==> r.relativeDrop.value * base == drop)
                  && (base <= 0.0 ==> r.relativeDrop.value == 0.0))
  {
  }

  /** The severity of any reading; a drop that is not recorded, or a baseline below 0.05, is not measured against it. */
  lemma SeverityOfMeaning(r: Reading)
    ensures var measured := r.absoluteDrop != None && r.relativeDrop != None;
            var relative := measured && r.baseline != None && r.baseline.value >= 0.05;
            && (SeverityOf(r) == Critical <==>
                  measured && (r.absoluteDrop.value >= 0.3 || (relative && r.relativeDrop.value >= 0.5)))
            && (SeverityOf(r) == Moderate <==>
                  !measured || (r.absoluteDrop.value < 0.15 && !(relative && r.relativeDrop.value >= 0.25)
                                && !(relative && r.relativeDrop.value >= 0.5)))
  {
  }

  /** The severity of a BAD window from its drop: the smaller of the absolute and the relative cut-off decides. */
  lemma SeverityMeaning(s: Snapshot)
    requires s.Valid() && InUnit(s) && Evaluate(s).kind == Bad
    ensures var drop, base := s.baseline.value - s.successRate.value, s.baseline.value;
            && (SeverityOf(Evaluate(s)) == Critical <==> drop >= 0.3 || drop >= 0.5 * base)
            && (SeverityOf(Evaluate(s)) == Moderate <==> drop < 0.15 && drop < 0.25 * base)
  {
    var drop, base := s.baseline.value - s.successRate.value, s.baseline.value;
    BadMeaning(s);
    RelativeDrop(base, drop, SEVERITY_CRITICAL_RELATIVE_DROP);
    RelativeDrop(base, drop, SEVERITY_HIGH_RELATIVE_DROP);
  }

  // ---------------------------------------------------------------------------
  // The state machine
  // ---------------------------------------------------------------------------

  datatype Phase =
    | Healthy
    | BadPending(bads: seq<Reading>)
    | Degraded(episode: Episode)
    | RecoveryPending(episode: Episode)

  datatype Machine = Machine(closed: seq<Episode>, phase: Phase, lastBad: Option<int>)

  /** Largest recorded drop of the readings that open an episode, 0.0 when none records one. */
  function OpeningPeak(bads: seq<Reading>): real {
    if bads == [] then 0.0
    else
      var n := |bads| - 1;
      var drop := bads[n].absoluteDrop;
      if drop.None? then OpeningPeak(bads[..n])
      else if forall b <- bads[..n] :: b.absoluteDrop.None? then drop.value
      else if drop.value > OpeningPeak(bads[..n]) then drop.value
      else OpeningPeak(bads[..n])
  }

  function WorstSeverity(bads: seq<Reading>): Severity {
    if bads == [] then Moderate
    else Escalate(WorstSeverity(bads[..|bads| - 1]), SeverityOf(bads[|bads| - 1]))
  }

  function Open(segment: Segment, bads: seq<Reading>): Episode
    requires bads != []
  {
    Episode(EpisodeId(segment, bads[0].window), Active, OpeningPeak(bads), |bads|, WorstSeverity(bads), None)
  }

  /** One more bad window inside an open episode. */
  function Worsen(e: Episode, r: Reading): Episode {
    e.(count := e.count + 1,
       peak := if r.absoluteDrop.Some? && r.absoluteDrop.value > e.peak then r.absoluteDrop.value else e.peak,
       severity := Escalate(e.severity, SeverityOf(r)))
  }

  function Close(e: Episode, lastBad: Option<int>): Episode {
    e.(status := Recovered, endedAt := lastBad)
  }

  function Step(segment: Segment, m: Machine, r: Reading): Machine {
    match r.kind
    case Bad =>
      var m' := m.(lastBad := Some(r.window));
      (match m.phase
       case Healthy => m'.(phase := BadPending([r]))
       case BadPending(bads) =>
         if |bads| + 1 >= REQUIRED_CONSECUTIVE_WINDOWS then m'.(phase := Degraded(Open(segment, bads + [r])))
         else m'.(phase := BadPending(bads + [r]))
       case Degraded(e) => m'.(phase := Degraded(Worsen(e, r)))
       case RecoveryPending(e) => m'.(phase := Degraded(Worsen(e, r))))
    case Normal =>
      (match m.phase
       case Healthy => m
       case BadPending(_) => m.(phase := Healthy)
       case Degraded(e) => m.(phase := RecoveryPending(e))
       case RecoveryPending(e) => m.(phase := Healthy, closed := m.closed + [Close(e, m.lastBad)]))
    case _ => m
  }

  function Replay(segment: Segment, readings: seq<Reading>): Machine {
    if readings == [] then Machine([], Healthy, None)
    else Step(segment, Replay(segment, readings[..|readings| - 1]), readings[|readings| - 1])
  }

  function Finish(m: Machine): seq<Episode> {
    match m.phase
    case Degraded(e) => m.closed + [e]
    case RecoveryPending(e) => m.closed + [e]
    case _ => m.closed
  }

  /** The episodes of a segment given the readings of its windows in chronological order. */
  function Timeline(segment: Segment, readings: seq<Reading>): seq<Episode> {
    Finish(Replay(segment, readings))
  }

  function Readings(signals: seq<Signal>): seq<Reading> {
    seq(|signals|, i requires 0 <= i < |signals| => signals[i].reading)
  }

  // ---------------------------------------------------------------------------
  // The loop that computes it
  // ---------------------------------------------------------------------------

  /** The record reconcile_timeline and the service update in place. */
  class DegradationEpisode {
    const id: EpisodeId
    var status: EpisodeStatus
    var peak: real
    var count: nat
    var severity: Severity
    var endedAt: Option<int>

    constructor (e: Episode)
      ensures Value() == e
    {
      id := e.id;
      status := e.status;
      peak := e.peak;
      count := e.count;
      severity := e.severity;
      endedAt := e.endedAt;
    }

    function Value(): Episode
      reads this
    {
      Episode(id, status, peak, count, severity, endedAt)
    }
  }

  datatype State = HEALTHY | BAD_PENDING | DEGRADED | RECOVERY_PENDING

  /** The loop's variables hold the state of the machine. */
  ghost predicate Holds(
    m: Machine, state: State, persistenceCount: nat, recoveryCount: nat, firstBad: Option<int>,
    pending: seq<Reading>, lastBad: Option<int>, current: Option<Episode>)
  {
    && m.lastBad == lastBad
    && match m.phase
       case Healthy => state == HEALTHY && current.None?
       case BadPending(bads) =>
         state == BAD_PENDING && current.None? && pending == bads && persistenceCount == |bads| && bads != []
         && firstBad == Some(bads[0].window)
       case Degraded(e) => state == DEGRADED && current == Some(e)
       case RecoveryPending(e) => state == RECOVERY_PENDING && current == Some(e) && recoveryCount == 1
  }

  /** max over the recorded drops of the pending signals, with default 0.0. */
  method PendingPeak(bads: seq<Reading>) returns (peak: real)
    ensures peak == OpeningPeak(bads)
  {
    peak := 0.0;
    var seen := false;
    for i := 0 to |bads|
      invariant peak == OpeningPeak(bads[..i])
      invariant !seen <==> forall b <- bads[..i] :: b.absoluteDrop.None?
    {
      assert bads[..i + 1][..i] == bads[..i];
      if bads[i].absoluteDrop.Some? {
        if !seen || bads[i].absoluteDrop.value > peak {
          peak := bads[i].absoluteDrop.value;
        }
        seen := true;
        assert bads[..i + 1][i].absoluteDrop.Some?;
      }
    }
    assert bads[..|bads|] == bads;
  }

  method PendingSeverity(bads: seq<Reading>) returns (severity: Severity)
    ensures severity == WorstSeverity(bads)
  {
    severity := Moderate;
    for i := 0 to |bads|
      invariant severity == WorstSeverity(bads[..i])
    {
      assert bads[..i + 1][..i] == bads[..i];
      severity := Escalate(severity, SeverityOf(bads[i]));
    }
    assert bads[..|bads|] == bads;
  }

  method Count(episode: DegradationEpisode, r: Reading)
    modifies episode
    ensures episode.Value() == Worsen(old(episode.Value()), r)
  {
    episode.count := episode.count + 1;
    if r.absoluteDrop.Some? && r.absoluteDrop.value > episode.peak {
      episode.peak := r.absoluteDrop.value;
    }
    episode.severity := Escalate(episode.severity, SeverityOf(r));
  }

  method OpenEpisode(segment: Segment, firstBad: int, count: nat, pending: seq<Reading>)
    returns (episode: DegradationEpisode)
    requires pending != [] && firstBad == pending[0].window && count == |pending|
    ensures fresh(episode) && episode.Value() == Open(segment, pending)
  {
    var peak := PendingPeak(pending);
    var severity := PendingSeverity(pending);
    episode := new DegradationEpisode(Episode(EpisodeId(segment, firstBad), Active, peak, count, severity, None));
  }

  method Recover(episode: DegradationEpisode, lastBad: Option<int>)
    modifies episode
    ensures episode.Value() == Close(old(episode.Value()), lastBad)
  {
    episode.status := Recovered;
    episode.endedAt := lastBad;
  }

  lemma ReplayMore(segment: Segment, readings: seq<Reading>, i: nat)
    requires i < |readings|
    ensures Replay(segment, readings[..i + 1]) == Step(segment, Replay(segment, readings[..i]), readings[i])
  {
    assert readings[..i + 1][..i] == readings[..i];
  }

  method ReconcileTimeline(signals: seq<Signal>) returns (episodes: seq<DegradationEpisode>)
    ensures fresh(episodes)
    ensures signals == [] ==> episodes == []
    ensures signals != [] ==>
      var timeline := Timeline(signals[0].segment, Readings(signals));
      |episodes| == |timeline| && forall i :: 0 <= i < |episodes| ==> episodes[i].Value() == timeline[i]
  {
    if signals == [] {
      return [];
    }
    var segment := signals[0].segment;
    ghost var readings := Readings(signals);
    var state := HEALTHY;
    var persistenceCount, recoveryCount := 0, 0;
    var pending: seq<Reading> := [];
    var firstBad: Option<int> := None;
    var lastBad: Option<int> := None;
    var current: DegradationEpisode? := null;
    ghost var m := Machine([], Healthy, None);
    episodes := [];

    for i := 0 to |signals|
      invariant fresh(episodes) && (current != null ==> fresh(current) && current !in episodes)
      invariant m == Replay(segment, readings[..i])
      invariant Holds(m, state, persistenceCount, recoveryCount, firstBad, pending, lastBad,
                      if current == null then None else Some(current.Value()))
      invariant |episodes| == |m.closed|
      invariant forall j :: 0 <= j < |episodes| ==> episodes[j].Value() == m.closed[j]
    {
      var r := signals[i].reading;
      ReplayMore(segment, readings, i);
      m := Step(segment, m, r);
      match state {
        case HEALTHY =>
          if r.kind == Bad {
            state, persistenceCount, firstBad, pending := BAD_PENDING, 1, Some(r.window), [r];
          }
        case BAD_PENDING =>
          if r.kind == Bad {
            persistenceCount, pending := persistenceCount + 1, pending + [r];
            if persistenceCount >= REQUIRED_CONSECUTIVE_WINDOWS {
              state := DEGRADED;
              current := OpenEpisode(segment, firstBad.value, persistenceCount, pending);
            }
          } else if r.kind == Normal {
            state, persistenceCount, firstBad, pending := HEALTHY, 0, None, [];
          }
        case DEGRADED =>
          if r.kind == Bad {
            Count(current, r);
          } else if r.kind == Normal {
            state, recoveryCount := RECOVERY_PENDING, 1;
          }
        case RECOVERY_PENDING =>
          if r.kind == Normal {
            recoveryCount := recoveryCount + 1;
            if recoveryCount >= RECOVERY_CONSECUTIVE_WINDOWS {
              state := HEALTHY;
              Recover(current, lastBad);
              episodes := episodes + [current];
              current := null;
              recoveryCount, firstBad := 0, None;
            }
          } else if r.kind == Bad {
            state, recoveryCount := DEGRADED, 0;
            Count(current, r);
          }
      }
      if r.kind == Bad {
        lastBad := Some(r.window);
      }
    }
    assert readings[..|signals|] == readings;
    if current != null {
      episodes := episodes + [current];
    }
  }
}

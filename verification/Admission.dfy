/** Stage 6 under concurrency: any number of transactions, and every commit is one sequential decide. */
module Admission {
  import opened Common
  import opened Attempts
  import opened Decisioning

  /** Where a worker's transaction stands and what it has read so far. */
  datatype Pc =
    | Started                                                // nothing read yet
    | Missed                                                 // first idempotency check failed
    | Locked                                                 // holds the attempt lock
    | Scoring(next: nat, cooling: set<RouteKey>)             // cooldown queries of the first routes done
    | Judged(tentative: Judgement)                           // verdict before the rate limit
    | Admitting(tentative: Judgement)                        // holds the global lock
    | Settled(final: Judgement, global: bool)                // verdict after the rate limit
    | Inserted(row: Decision, global: bool)                  // row flushed, not committed

  datatype Worker = Worker(request: Request, pc: Pc) {
    predicate HoldsAttempt() {
      !pc.Started? && !pc.Missed?
    }

    predicate HoldsGlobal() {
      pc.Admitting? || (pc.Settled? && pc.global) || (pc.Inserted? && pc.global)
    }
  }

  /** The committed log, the two kinds of advisory locks and the open transactions. */
  datatype World = World(log: Log, attemptLock: map<string, nat>, globalLock: Option<nat>, workers: map<nat, Worker>)

  datatype Step =
    | Begin(w: nat, request: Request)
    | FastMiss(w: nat)
    | Leave(w: nat)                 // a repeat was found, or the transaction aborts: no row is written
    | LockAttempt(w: nat)
    | Recheck(w: nat)
    | ScoreRoute(w: nat)
    | Conclude(w: nat)
    | LockGlobal(w: nat)
    | CheckLimit(w: nat)
    | SkipLimit(w: nat)
    | Insert(w: nat)
    | Commit(w: nat)

  function At(s: World, w: nat, pc: Pc): World
    requires w in s.workers
  {
    s.(workers := s.workers[w := s.workers[w].(pc := pc)])
  }

  /** The end of a transaction releases its locks. */
  function Release(s: World, w: nat): World
    requires w in s.workers
  {
    var key := s.workers[w].request.attempt.key;
    s.(attemptLock := if s.workers[w].HoldsAttempt() then s.attemptLock - {key} else s.attemptLock,
       globalLock := if s.globalLock == Some(w) then None else s.globalLock,
       workers := s.workers - {w})
  }

  /** Cooldown queries are made only for payments in the currency of the route costs. */
  predicate NeedsScores(policy: Policy, r: Request) {
    HardGate(policy, r.context) == Passed && r.context.currency == policy.costCurrency
  }

  ghost predicate Enabled(policy: Policy, s: World, step: Step) {
    if step.Begin? then step.w !in s.workers
    else
      && step.w in s.workers
      && var worker := s.workers[step.w];
         var r, pc := worker.request, worker.pc;
         match step
         case Begin(_, _) => false
         case FastMiss(_) => pc.Started? && !IsRepeat(s.log, r)
         case Leave(_) => true
         case LockAttempt(_) => pc.Missed? && r.attempt.key !in s.attemptLock
         case Recheck(_) => pc.Locked? && !IsRepeat(s.log, r)
         case ScoreRoute(_) => pc.Scoring? && pc.next < |policy.routes|
         case Conclude(_) => pc.Scoring? && pc.next == |policy.routes|
         case LockGlobal(_) => pc.Judged? && pc.tentative.kind == Act && s.globalLock.None?
         case CheckLimit(_) => pc.Admitting?
         case SkipLimit(_) => pc.Judged? && pc.tentative.kind != Act
         case Insert(_) => pc.Settled?
         case Commit(_) => pc.Inserted?
  }

  ghost function Next(policy: Policy, s: World, step: Step): World
    requires Enabled(policy, s, step)
  {
    if step.Begin? then s.(workers := s.workers[step.w := Worker(step.request, Started)])
    else
      var w := step.w;
      var worker := s.workers[w];
      var r, pc := worker.request, worker.pc;
      match step
      case FastMiss(_) => At(s, w, Missed)
      case Leave(_) => Release(s, w)
      case LockAttempt(_) => At(s, w, Locked).(attemptLock := s.attemptLock[r.attempt.key := w])
      case Recheck(_) =>
        if NeedsScores(policy, r) then At(s, w, Scoring(0, {}))
        else At(s, w, Judged(Judge(policy, r.context, {})))
      case ScoreRoute(_) =>
        var route := policy.routes[pc.next];
        var found := OnCooldown(s.log, r.attempt, route.key, r.at - route.cooldown);
        At(s, w, Scoring(pc.next + 1, if found then pc.cooling + {route.key} else pc.cooling))
      case Conclude(_) => At(s, w, Judged(Judge(policy, r.context, pc.cooling)))
      case LockGlobal(_) => At(s, w, Admitting(pc.tentative)).(globalLock := Some(w))
      case CheckLimit(_) => At(s, w, Settled(Admit(policy, s.log, r.at, pc.tentative), true))
      case SkipLimit(_) => At(s, w, Settled(pc.tentative, false))
      case Insert(_) => At(s, w, Inserted(RowFor(s.log, r, pc.final), pc.global))
      case Commit(_) => Release(s, w).(log := s.log + [pc.row])
  }

  // ---------------------------------------------------------------------------
  // What every step keeps
  // ---------------------------------------------------------------------------

  ghost predicate LocksHeld(s: World) {
    && (forall w <- s.workers :: s.workers[w].HoldsAttempt() ==>
          var key := s.workers[w].request.attempt.key; key in s.attemptLock && s.attemptLock[key] == w)
    && (forall w <- s.workers :: s.workers[w].HoldsGlobal() ==> s.globalLock == Some(w))
  }

  function Tentative(policy: Policy, log: Log, r: Request): Judgement {
    Judge(policy, r.context, Cooling(log, r.attempt, r.at, policy.routes))
  }

  /** What a worker has read is what it would read now. */
  ghost predicate Current(policy: Policy, log: Log, worker: Worker) {
    var r := worker.request;
    match worker.pc
    case Started => true
    case Missed => true
    case Locked => true
    case Scoring(next, cooling) =>
      && !IsRepeat(log, r) && next <= |policy.routes|
      && cooling == Cooling(log, r.attempt, r.at, policy.routes[..next])
    case Judged(tentative) => !IsRepeat(log, r) && tentative == Tentative(policy, log, r)
    case Admitting(tentative) =>
      !IsRepeat(log, r) && tentative == Tentative(policy, log, r) && tentative.kind == Act
    case Settled(final, global) =>
      && !IsRepeat(log, r)
      && final == Admit(policy, log, r.at, Tentative(policy, log, r))
      && (!global ==> Tentative(policy, log, r).kind != Act)
    case Inserted(row, global) =>
      && !IsRepeat(log, r)
      && row == NewDecision(policy, log, r)
      && (!global ==> Tentative(policy, log, r).kind != Act)
  }

  ghost predicate Inv(policy: Policy, s: World) {
    LocksHeld(s) && forall w <- s.workers :: Current(policy, s.log, s.workers[w])
  }

  lemma JudgeIgnoresCooling(policy: Policy, r: Request, cooling: set<RouteKey>)
    requires !NeedsScores(policy, r)
    ensures Judge(policy, r.context, cooling) == Judge(policy, r.context, {})
  {
    if HardGate(policy, r.context) == Passed {
      var p := r.context.prediction.value.probability.value;
      OtherCurrencyScoresNothing(policy, r.context, p, cooling, policy.routes);
      OtherCurrencyScoresNothing(policy, r.context, p, {}, policy.routes);
    }
  }

  lemma CoolingGrows(policy: Policy, log: Log, r: Request, next: nat)
    requires policy.Valid() && next < |policy.routes|
    ensures var route := policy.routes[next];
            var found := OnCooldown(log, r.attempt, route.key, r.at - route.cooldown);
            Cooling(log, r.attempt, r.at, policy.routes[..next + 1])
            == Cooling(log, r.attempt, r.at, policy.routes[..next]) + (if found then {route.key} else {})
  {
    assert policy.routes[..next + 1] == policy.routes[..next] + [policy.routes[next]];
  }

  /** A row of another attempt changes nothing a worker reads about its own. */
  lemma OtherAttempt(policy: Policy, log: Log, row: Decision, r: Request, routes: seq<Route>)
    requires row.attempt != r.attempt
    ensures IsRepeat(log + [row], r) == IsRepeat(log, r)
    ensures MaxVersion(log + [row], r.attempt) == MaxVersion(log, r.attempt)
    ensures Cooling(log + [row], r.attempt, r.at, routes) == Cooling(log, r.attempt, r.at, routes)
  {
    assert (log + [row])[..|log|] == log;
    forall route | route in routes
      ensures OnCooldown(log + [row], r.attempt, route.key, r.at - route.cooldown)
           == OnCooldown(log, r.attempt, route.key, r.at - route.cooldown)
    {
      assert forall d <- log :: d in log + [row];
    }
  }

  lemma NoNewAct(policy: Policy, log: Log, row: Decision, at: int, j: Judgement)
    requires j.kind == Act ==> !row.IsAct()
    ensures Admit(policy, log + [row], at, j) == Admit(policy, log, at, j)
  {
    assert (log + [row])[..|log|] == log;
  }

  /** A commit of one worker leaves what every other worker has read current. */
  lemma CommitKeepsCurrent(policy: Policy, log: Log, row: Decision, other: Worker)
    requires Current(policy, log, other)
    requires other.HoldsAttempt() ==> row.attempt != other.request.attempt
    requires other.HoldsGlobal() ==> !row.IsAct()
    ensures Current(policy, log + [row], other)
  {
    var r := other.request;
    if other.HoldsAttempt() {
      OtherAttempt(policy, log, row, r, policy.routes);
      if other.pc.Scoring? {
        OtherAttempt(policy, log, row, r, policy.routes[..other.pc.next]);
      }
      if other.pc.Settled? || other.pc.Inserted? {
        NoNewAct(policy, log, row, r.at, Tentative(policy, log, r));
      }
    }
  }

  /** An ACT row is only ever inserted under the global lock. */
  lemma ActHoldsGlobal(policy: Policy, log: Log, worker: Worker)
    requires Current(policy, log, worker) && worker.pc.Inserted? && worker.pc.row.IsAct()
    ensures worker.HoldsGlobal()
  {
  }

  lemma CommitStep(policy: Policy, s: World, w: nat)
    requires Inv(policy, s) && Enabled(policy, s, Commit(w))
    ensures Inv(policy, Next(policy, s, Commit(w)))
    ensures Next(policy, s, Commit(w)).log == Decide(policy, s.log, s.workers[w].request)
  {
    var worker, s' := s.workers[w], Next(policy, s, Commit(w));
    var row := worker.pc.row;
    assert Current(policy, s.log, worker);
    forall v | v in s'.workers
      ensures Current(policy, s'.log, s'.workers[v])
    {
      var other := s.workers[v];
      if row.IsAct() {
        ActHoldsGlobal(policy, s.log, worker);
      }
      CommitKeepsCurrent(policy, s.log, row, other);
    }
  }

  lemma JudgeIgnoresCoolingWhenUnneeded(policy: Policy, log: Log, r: Request)
    ensures !NeedsScores(policy, r) ==> Judge(policy, r.context, {}) == Tentative(policy, log, r)
  {
    if !NeedsScores(policy, r) {
      JudgeIgnoresCooling(policy, r, Cooling(log, r.attempt, r.at, policy.routes));
    }
  }

  lemma OwnReadStep(policy: Policy, s: World, step: Step)
    requires policy.Valid() && Inv(policy, s) && Enabled(policy, s, step) && !step.Commit?
    ensures Next(policy, s, step).log == s.log
    ensures step.w in Next(policy, s, step).workers ==> Current(policy, s.log, Next(policy, s, step).workers[step.w])
  {
    if step.w in s.workers {
      var worker := s.workers[step.w];
      var r := worker.request;
      assert Current(policy, s.log, worker);
      if step.Recheck? {
        JudgeIgnoresCoolingWhenUnneeded(policy, s.log, r);
        assert policy.routes[..0] == [];
      } else if step.ScoreRoute? {
        CoolingGrows(policy, s.log, r, worker.pc.next);
      } else if step.Conclude? {
        assert policy.routes[..|policy.routes|] == policy.routes;
      }
    }
  }

  lemma OthersUntouched(policy: Policy, s: World, step: Step)
    requires Enabled(policy, s, step)
    ensures forall v <- Next(policy, s, step).workers :: v != step.w ==>
              v in s.workers && Next(policy, s, step).workers[v] == s.workers[v]
  {
  }

  lemma AttemptLockStays(policy: Policy, s: World, step: Step, w: nat)
    requires LocksHeld(s) && Enabled(policy, s, step) && !step.Commit?
    requires var s' := Next(policy, s, step); w in s'.workers && s'.workers[w].HoldsAttempt()
    ensures var s' := Next(policy, s, step);
            var key := s'.workers[w].request.attempt.key;
            key in s'.attemptLock && s'.attemptLock[key] == w
  {
    if w != step.w {
      OthersUntouched(policy, s, step);
    }
  }

  lemma LocksStay(policy: Policy, s: World, step: Step)
    requires LocksHeld(s) && Enabled(policy, s, step) && !step.Commit?
    ensures LocksHeld(Next(policy, s, step))
  {
    OthersUntouched(policy, s, step);
    var s' := Next(policy, s, step);
    forall w | w in s'.workers && s'.workers[w].HoldsAttempt()
      ensures s'.workers[w].request.attempt.key in s'.attemptLock
      ensures s'.attemptLock[s'.workers[w].request.attempt.key] == w
    {
      AttemptLockStays(policy, s, step, w);
    }
  }

  lemma ReadStep(policy: Policy, s: World, step: Step)
    requires policy.Valid() && Inv(policy, s) && Enabled(policy, s, step) && !step.Commit?
    ensures Inv(policy, Next(policy, s, step)) && Next(policy, s, step).log == s.log
  {
    OwnReadStep(policy, s, step);
    LocksStay(policy, s, step);
    OthersUntouched(policy, s, step);
  }

  /** The worker waits for a lock that another transaction holds. */
  predicate Waits(s: World, w: nat)
    requires w in s.workers
  {
    var worker := s.workers[w];
    || (worker.pc.Missed? && worker.request.attempt.key in s.attemptLock)
    || (worker.pc.Judged? && worker.pc.tentative.kind == Act && s.globalLock.Some?)
  }

  /** The step of the worker other than giving up. */
  ghost predicate GoesOn(policy: Policy, s: World, step: Step, w: nat) {
    !step.Begin? && !step.Leave? && step.w == w && Enabled(policy, s, step)
  }

  /** No worker is ever stuck: it may give up, and it goes on unless it waits for a lock or met its own decision. */
  lemma NoWorkerIsStuck(policy: Policy, s: World, w: nat)
    requires Inv(policy, s) && w in s.workers
    ensures Enabled(policy, s, Leave(w))
    ensures var worker := s.workers[w];
            (exists step :: GoesOn(policy, s, step, w)) <==>
              !Waits(s, w) && !((worker.pc.Started? || worker.pc.Locked?) && IsRepeat(s.log, worker.request))
  {
    var pc := s.workers[w].pc;
    var step := match pc
                case Started => FastMiss(w)
                case Missed => LockAttempt(w)
                case Locked => Recheck(w)
                case Scoring(next, _) => if next < |policy.routes| then ScoreRoute(w) else Conclude(w)
                case Judged(tentative) => if tentative.kind == Act then LockGlobal(w) else SkipLimit(w)
                case Admitting(_) => CheckLimit(w)
                case Settled(_, _) => Insert(w)
                case Inserted(_, _) => Commit(w);
    if !Waits(s, w) && !((pc.Started? || pc.Locked?) && IsRepeat(s.log, s.workers[w].request)) {
      assert GoesOn(policy, s, step, w);
    }
  }

  // ---------------------------------------------------------------------------
  // Whole runs
  // ---------------------------------------------------------------------------

  const IDLE: World := World([], map[], None, map[])

  ghost predicate Takes(policy: Policy, worlds: seq<World>, steps: seq<Step>, i: nat)
    requires i < |steps| && |worlds| == |steps| + 1
  {
    Enabled(policy, worlds[i], steps[i]) && worlds[i + 1] == Next(policy, worlds[i], steps[i])
  }

  /** The worlds an interleaving of any workers goes through. */
  ghost predicate IsRun(policy: Policy, worlds: seq<World>, steps: seq<Step>) {
    && |worlds| == |steps| + 1
    && worlds[0] == IDLE
    && forall i {:trigger Takes(policy, worlds, steps, i)} :: 0 <= i < |steps| ==> Takes(policy, worlds, steps, i)
  }

  /** The requests whose transactions commit a row, in the order of their commits. */
  ghost function Committed(worlds: seq<World>, steps: seq<Step>): seq<Request>
    requires |worlds| == |steps| + 1
  {
    if steps == [] then []
    else
      var n := |steps| - 1;
      Committed(worlds[..n + 1], steps[..n])
      + (if steps[n].Commit? && steps[n].w in worlds[n].workers then [worlds[n].workers[steps[n].w].request] else [])
  }

  /** Every interleaving commits the log that its committed requests leave when decided one after the other. */
  lemma {:induction false} Serialisable(policy: Policy, worlds: seq<World>, steps: seq<Step>)
    requires policy.Valid() && IsRun(policy, worlds, steps)
    ensures Inv(policy, worlds[|steps|])
    ensures worlds[|steps|].log == DecideAll(policy, Committed(worlds, steps))
  {
    if steps != [] {
      var n := |steps| - 1;
      var before, requests := worlds[..n + 1], Committed(worlds, steps);
      assert Takes(policy, worlds, steps, n);
      forall i | 0 <= i < n
        ensures Takes(policy, before, steps[..n], i)
      {
        assert Takes(policy, worlds, steps, i);
      }
      Serialisable(policy, before, steps[..n]);
      if steps[n].Commit? {
        CommitStep(policy, worlds[n], steps[n].w);
        assert requests[..|requests| - 1] == Committed(before, steps[..n]);
      } else {
        ReadStep(policy, worlds[n], steps[n]);
        assert requests == Committed(before, steps[..n]);
      }
    }
  }

  /** The Stage 6 guarantees, for any interleaving and any, even out-of-order, decision times. */
  lemma AdmissionSafety(policy: Policy, worlds: seq<World>, steps: seq<Step>, from: int, attempt: AttemptRef)
    requires policy.Valid() && IsRun(policy, worlds, steps)
    ensures ActsBetween(worlds[|steps|].log, from, from + 60 * SECOND) <= policy.rateLimit
    ensures Dense(Of(worlds[|steps|].log, attempt))
    ensures Cooled(policy, worlds[|steps|].log)
  {
    var requests := Committed(worlds, steps);
    Serialisable(policy, worlds, steps);
    RateLimit(policy, requests, from);
    LogsAreDense(policy, requests, attempt);
    LogsAreCooled(policy, requests);
  }
}

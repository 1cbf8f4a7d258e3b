/** Stage 7: the life of one command, executed by any number of workers that rely on compare-and-set alone. */
module Execution {
  import opened Common

  datatype CommandStatus = PENDING | EXECUTING | SUCCEEDED | FAILED | EXPIRED | NOT_NEEDED

  /** LEGAL_TRANSITIONS. */
  function LegalTargets(s: CommandStatus): set<CommandStatus> {
    match s
    case PENDING => {EXECUTING, NOT_NEEDED, EXPIRED}
    case EXECUTING => {SUCCEEDED, FAILED}
    case _ => {}
  }

  predicate IsFinal(s: CommandStatus) {
    LegalTargets(s) == {}
  }

  /** validate_transition raises exactly when this is false. */
  predicate MayBecome(current: CommandStatus, target: CommandStatus) {
    current == target || target in LegalTargets(current)
  }

  /** Some chain of legal transitions leads from a to b. */
  predicate Reaches(a: CommandStatus, b: CommandStatus) {
    MayBecome(a, b) || exists m <- LegalTargets(a) :: b in LegalTargets(m)
  }

  lemma ReachesIsTransitive(a: CommandStatus, b: CommandStatus, c: CommandStatus)
    requires Reaches(a, b) && Reaches(b, c)
    ensures Reaches(a, c)
    ensures IsFinal(a) ==> a == b
  {
  }

  datatype ResultStatus = SUCCESS | FAILURE | TIMEOUT

  /** What the executor returns; it never raises. */
  datatype ExecutionResult = ExecutionResult(
    status: ResultStatus, durationMs: int, error: Option<string>, simulated: bool)

  /** The mutable lifecycle fields of a command and the times they depend on. */
  datatype Life = Life(
    status: CommandStatus, reason: Option<string>, createdAt: int, expiresAt: int, updatedAt: int)

  datatype ExecutionAttempt = ExecutionAttempt(
    source: string, number: nat, startedAt: int, completedAt: int, status: ResultStatus, simulated: bool, createdAt: int)

  /**
   * What one execute_command call gets from outside: the provider on the command's immutable columns, its
   * clock, the terminal-event query, the executor.
   */
  datatype Dispatch = Dispatch(source: string, claim: int, terminalSeen: bool, result: ExecutionResult)

  function Moved(c: Life, target: CommandStatus, reason: Option<string>, at: int): Life {
    c.(status := target, reason := reason, updatedAt := at)
  }

  function MaxNumber(attempts: seq<ExecutionAttempt>): nat {
    if attempts == [] then 0
    else
      var m := MaxNumber(attempts[..|attempts| - 1]);
      if attempts[|attempts| - 1].number > m then attempts[|attempts| - 1].number else m
  }

  lemma {:induction false} MaxNumberMeaning(attempts: seq<ExecutionAttempt>)
    ensures forall a <- attempts :: a.number <= MaxNumber(attempts)
    ensures MaxNumber(attempts) == 0 || exists a <- attempts :: a.number == MaxNumber(attempts)
  {
    if attempts != [] {
      var n := |attempts| - 1;
      MaxNumberMeaning(attempts[..n]);
      assert attempts == attempts[..n] + [attempts[n]] && attempts[n] in attempts;
    }
  }

  function EndOf(d: Dispatch): int {
    d.claim + d.result.durationMs * 1000
  }

  function AttemptFor(d: Dispatch, number: nat): ExecutionAttempt {
    ExecutionAttempt(d.source, number, d.claim, EndOf(d), d.result.status, d.result.simulated, EndOf(d))
  }

  /** The final status that an executor result gives. */
  function Concluded(c: Life, result: ExecutionResult, end: int): Life {
    match result.status
    case SUCCESS => Moved(c, SUCCEEDED, None, end)
    case TIMEOUT => Moved(c, FAILED, Some("EXECUTOR_TIMEOUT"), end)
    case FAILURE =>
      Moved(c, FAILED, Some(if result.error.Some? && result.error.value != "" then result.error.value
                            else "EXECUTOR_FAILURE"), end)
  }

  function Finalized(c: Life, d: Dispatch): Life {
    Concluded(c, d.result, EndOf(d))
  }

  predicate Claims(c: Life, d: Dispatch) {
    c.status == PENDING && d.claim < c.expiresAt && !d.terminalSeen
  }

  /** execute_command running alone. */
  function Execute(c: Life, attempts: seq<ExecutionAttempt>, d: Dispatch): (Life, seq<ExecutionAttempt>) {
    if c.status != PENDING then (c, attempts)
    else if d.claim >= c.expiresAt then
      (Moved(c, EXPIRED, Some("COMMAND_EXPIRED_BEFORE_DISPATCH"), d.claim), attempts)
    else if d.terminalSeen then
      (Moved(c, NOT_NEEDED, Some("TERMINAL_OUTCOME_ALREADY_INGESTED"), d.claim), attempts)
    else
      (Finalized(Moved(c, EXECUTING, None, d.claim), d), attempts + [AttemptFor(d, MaxNumber(attempts) + 1)])
  }

  /**
   * Every committed command: a final one has an attempt exactly when it succeeded or failed, it has only
   * one, and it succeeded exactly when that attempt did.
   */
  predicate WellRecorded(c: Life, attempts: seq<ExecutionAttempt>) {
    && c.status != EXECUTING
    && (attempts != [] <==> c.status == SUCCEEDED || c.status == FAILED)
    && (attempts != [] ==>
          |attempts| == 1 && attempts[0].number == 1 && (c.status == SUCCEEDED <==> attempts[0].status == SUCCESS))
  }

  lemma ExecuteKeepsRecord(c: Life, attempts: seq<ExecutionAttempt>, d: Dispatch)
    requires WellRecorded(c, attempts)
    ensures var (c', attempts') := Execute(c, attempts, d);
            && WellRecorded(c', attempts')
            && Reaches(c.status, c'.status)
            && (IsFinal(c.status) ==> c' == c && attempts' == attempts)
            && (Claims(c, d) <==> |attempts'| == |attempts| + 1)
  {
  }

  /**
   * The columns one execution writes: the barrier that stopped it, or one attempt row with the executor's
   * result from the claim on, and the final status with its reason.
   */
  lemma ExecuteMeaning(c: Life, attempts: seq<ExecutionAttempt>, d: Dispatch)
    requires WellRecorded(c, attempts)
    ensures var (c', attempts') := Execute(c, attempts, d);
            var end := d.claim + d.result.durationMs * 1000;
            && c'.createdAt == c.createdAt && c'.expiresAt == c.expiresAt
            && (c.status != PENDING ==> c' == c && attempts' == attempts)
            && (c.status == PENDING && d.claim >= c.expiresAt ==>
                  c'.status == EXPIRED && c'.reason == Some("COMMAND_EXPIRED_BEFORE_DISPATCH")
                  && c'.updatedAt == d.claim && attempts' == [])
            && (c.status == PENDING && d.claim < c.expiresAt && d.terminalSeen ==>
                  c'.status == NOT_NEEDED && c'.reason == Some("TERMINAL_OUTCOME_ALREADY_INGESTED")
                  && c'.updatedAt == d.claim && attempts' == [])
            && (c.status == PENDING && d.claim < c.expiresAt && !d.terminalSeen ==>
                  && attempts' == [ExecutionAttempt(d.source, 1, d.claim, end, d.result.status, d.result.simulated, end)]
                  && c'.updatedAt == end
                  && (c'.status == SUCCEEDED <==> d.result.status == SUCCESS)
                  && (c'.status == FAILED <==> d.result.status != SUCCESS)
                  && (d.result.status == SUCCESS ==> c'.reason == None)
                  && (d.result.status == TIMEOUT ==> c'.reason == Some("EXECUTOR_TIMEOUT"))
                  && (d.result.status == FAILURE && (d.result.error == None || d.result.error == Some("")) ==>
                        c'.reason == Some("EXECUTOR_FAILURE"))
                  && (d.result.status == FAILURE && d.result.error != None && d.result.error != Some("") ==>
                        c'.reason == d.result.error))
  {
  }

  // ---------------------------------------------------------------------------
  // Workers
  // ---------------------------------------------------------------------------

  datatype Pc =
    | Started                                   // nothing read
    | Fetched                                   // read the command as PENDING
    | Barred(target: CommandStatus)             // an expiry or terminal-outcome barrier applies
    | Cleared                                   // no barrier applies
    | Claimed                                   // compare-and-set to EXECUTING succeeded
    | Dispatched                                // the executor returned
    | Recorded                                  // the attempt row is flushed
    | Ready                                     // the final status is written
    | Left                                      // nothing to write

  /** One transaction: the outside inputs it meets and its uncommitted writes. */
  datatype Worker = Worker(pc: Pc, inputs: Dispatch, draft: Life, draftAttempts: seq<ExecutionAttempt>) {
    /** The row lock of the update is held until the transaction ends. */
    predicate HoldsRow() {
      pc.Claimed? || pc.Dispatched? || pc.Recorded? || pc.Ready?
    }

    /** The executor has run for this transaction. */
    predicate HasRun() {
      pc.Dispatched? || pc.Recorded? || (pc.Ready? && (draft.status == SUCCEEDED || draft.status == FAILED))
    }
  }

  /** `dispatched` counts executor calls; `lost` counts transactions that aborted after theirs. */
  datatype World = World(
    life: Life, attempts: seq<ExecutionAttempt>, holder: Option<nat>, workers: map<nat, Worker>,
    dispatched: nat, lost: nat)

  datatype Step =
    | Begin(w: nat, inputs: Dispatch)
    | Fetch(w: nat)
    | CheckBarriers(w: nat)
    | CompareAndSet(w: nat)
    | RunExecutor(w: nat)
    | RecordAttempt(w: nat)
    | Finalize(w: nat)
    | Commit(w: nat)
    | Abort(w: nat)

  ghost predicate Enabled(s: World, step: Step) {
    if step.Begin? then step.w !in s.workers
    else
      && step.w in s.workers
      && var pc := s.workers[step.w].pc;
         match step
         case Begin(_, _) => false
         case Fetch(_) => pc.Started?
         case CheckBarriers(_) => pc.Fetched?
         case CompareAndSet(_) => (pc.Barred? || pc.Cleared?) && s.holder.None?
         case RunExecutor(_) => pc.Claimed?
         case RecordAttempt(_) => pc.Dispatched?
         case Finalize(_) => pc.Recorded?
         case Commit(_) => pc.Ready? || pc.Left?
         case Abort(_) => true
  }

  function At(s: World, w: nat, worker: Worker): World {
    s.(workers := s.workers[w := worker])
  }

  ghost function Next(s: World, step: Step): World
    requires Enabled(s, step)
  {
    if step.Begin? then At(s, step.w, Worker(Started, step.inputs, s.life, []))
    else
      var w := step.w;
      var worker := s.workers[w];
      var d := worker.inputs;
      match step
      case Fetch(_) => At(s, w, worker.(pc := if s.life.status == PENDING then Fetched else Left))
      case CheckBarriers(_) =>
        At(s, w, worker.(pc := if d.claim >= s.life.expiresAt then Barred(EXPIRED)
                               else if d.terminalSeen then Barred(NOT_NEEDED) else Cleared))
      case CompareAndSet(_) =>
        if s.life.status != PENDING then At(s, w, worker.(pc := Left))
        else if worker.pc == Barred(EXPIRED) then
          At(s, w, worker.(pc := Ready, draftAttempts := [],
                           draft := Moved(s.life, EXPIRED, Some("COMMAND_EXPIRED_BEFORE_DISPATCH"), d.claim)))
          .(holder := Some(w))
        else if worker.pc.Barred? then
          At(s, w, worker.(pc := Ready, draftAttempts := [],
                           draft := Moved(s.life, NOT_NEEDED, Some("TERMINAL_OUTCOME_ALREADY_INGESTED"), d.claim)))
          .(holder := Some(w))
        else
          At(s, w, worker.(pc := Claimed, draft := Moved(s.life, EXECUTING, None, d.claim), draftAttempts := []))
          .(holder := Some(w))
      case RunExecutor(_) => At(s, w, worker.(pc := Dispatched)).(dispatched := s.dispatched + 1)
      case RecordAttempt(_) =>
        At(s, w, worker.(pc := Recorded, draftAttempts := [AttemptFor(d, MaxNumber(s.attempts) + 1)]))
      case Finalize(_) => At(s, w, worker.(pc := Ready, draft := Finalized(worker.draft, d)))
      case Commit(_) =>
        if worker.pc.Left? then s.(workers := s.workers - {w})
        else s.(life := worker.draft, attempts := s.attempts + worker.draftAttempts, holder := None,
                workers := s.workers - {w})
      case Abort(_) =>
        s.(workers := s.workers - {w}, holder := if worker.HoldsRow() then None else s.holder,
           lost := if worker.HasRun() then s.lost + 1 else s.lost)
  }

  // ---------------------------------------------------------------------------
  // What every step keeps
  // ---------------------------------------------------------------------------

  /** The draft is what execute_command computes from the committed command, as far as it has got. */
  predicate DraftFits(c: Life, attempts: seq<ExecutionAttempt>, worker: Worker) {
    var d := worker.inputs;
    match worker.pc
    case Barred(target) =>
      if target == EXPIRED then d.claim >= c.expiresAt
      else target == NOT_NEEDED && d.claim < c.expiresAt && d.terminalSeen
    case Cleared => d.claim < c.expiresAt && !d.terminalSeen
    case Claimed => Claims(c, d) && worker.draft == Moved(c, EXECUTING, None, d.claim) && worker.draftAttempts == []
    case Dispatched => Claims(c, d) && worker.draft == Moved(c, EXECUTING, None, d.claim) && worker.draftAttempts == []
    case Recorded =>
      && Claims(c, d) && worker.draft == Moved(c, EXECUTING, None, d.claim)
      && worker.draftAttempts == [AttemptFor(d, MaxNumber(attempts) + 1)]
    case Ready =>
      c.status == PENDING && Execute(c, attempts, d) == (worker.draft, attempts + worker.draftAttempts)
      && (worker.HasRun() <==> |worker.draftAttempts| == 1) && |worker.draftAttempts| <= 1
    case _ => true
  }

  function InFlight(s: World): nat {
    if s.holder.Some? && s.holder.value in s.workers && s.workers[s.holder.value].HasRun() then 1 else 0
  }

  ghost predicate Inv(s: World) {
    && WellRecorded(s.life, s.attempts)
    && (forall w <- s.workers :: DraftFits(s.life, s.attempts, s.workers[w]))
    && (forall w <- s.workers :: s.workers[w].HoldsRow() ==> s.holder == Some(w))
    && (s.holder.Some? ==> s.holder.value in s.workers && s.workers[s.holder.value].HoldsRow())
    && s.dispatched == |s.attempts| + s.lost + InFlight(s)
  }

  predicate SameTimes(a: Life, b: Life) {
    a.createdAt == b.createdAt && a.expiresAt == b.expiresAt
  }

  /** A worker that does not hold the row has only read what no transaction changes. */
  lemma ReadersStayFit(c: Life, attempts: seq<ExecutionAttempt>, c': Life, attempts': seq<ExecutionAttempt>, worker: Worker)
    requires DraftFits(c, attempts, worker) && !worker.HoldsRow() && SameTimes(c, c')
    ensures DraftFits(c', attempts', worker)
  {
  }

  lemma CommitKeepsInv(s: World, w: nat)
    requires Inv(s) && Enabled(s, Commit(w))
    ensures var s' := Next(s, Commit(w));
            && Inv(s') && SameTimes(s.life, s'.life)
            && (s.workers[w].pc.Left? ==> s'.life == s.life && s'.attempts == s.attempts)
            && (s.workers[w].pc.Ready? ==> (s'.life, s'.attempts) == Execute(s.life, s.attempts, s.workers[w].inputs))
  {
    var worker, s' := s.workers[w], Next(s, Commit(w));
    assert DraftFits(s.life, s.attempts, worker);
    if worker.pc.Ready? {
      ExecuteKeepsRecord(s.life, s.attempts, worker.inputs);
    }
    forall v | v in s'.workers
      ensures DraftFits(s'.life, s'.attempts, s'.workers[v])
    {
      assert DraftFits(s.life, s.attempts, s.workers[v]);
      if worker.pc.Ready? {
        ReadersStayFit(s.life, s.attempts, s'.life, s'.attempts, s.workers[v]);
      }
    }
  }

  /** The stepping worker's own draft after its step. */
  lemma OwnDraftFits(s: World, step: Step)
    requires Inv(s) && Enabled(s, step) && !step.Commit? && !step.Abort?
    ensures var s' := Next(s, step); s'.life == s.life && s'.attempts == s.attempts && DraftFits(s'.life, s'.attempts, s'.workers[step.w])
  {
    if step.w in s.workers {
      assert DraftFits(s.life, s.attempts, s.workers[step.w]);
    }
    assert s.attempts + [] == s.attempts;
  }

  /** A step neither gives the row to a second worker nor loses track of an executor call. */
  lemma OwnHoldFits(s: World, step: Step)
    requires Inv(s) && Enabled(s, step) && !step.Commit?
    ensures var s' := Next(s, step);
            && (forall w <- s'.workers :: s'.workers[w].HoldsRow() ==> s'.holder == Some(w))
            && (s'.holder.Some? ==> s'.holder.value in s'.workers && s'.workers[s'.holder.value].HoldsRow())
            && s'.dispatched == |s'.attempts| + s'.lost + InFlight(s')
  {
    if step.w in s.workers {
      assert DraftFits(s.life, s.attempts, s.workers[step.w]);
    }
  }

  lemma OtherKeepsInv(s: World, step: Step)
    requires Inv(s) && Enabled(s, step) && !step.Commit?
    ensures var s' := Next(s, step); Inv(s') && s'.life == s.life && s'.attempts == s.attempts
  {
    var s' := Next(s, step);
    OwnHoldFits(s, step);
    if !step.Abort? {
      OwnDraftFits(s, step);
    }
    assert s'.life == s.life && s'.attempts == s.attempts;
    forall v | v in s'.workers
      ensures DraftFits(s'.life, s'.attempts, s'.workers[v])
    {
      if v != step.w {
        assert DraftFits(s.life, s.attempts, s.workers[v]);
      }
    }
  }

  ghost predicate GoesOn(s: World, step: Step, w: nat) {
    !step.Begin? && !step.Abort? && step.w == w && Enabled(s, step)
  }

  /** No worker is ever stuck: its transaction may abort, and it goes on unless it waits for the row. */
  lemma NoWorkerIsStuck(s: World, w: nat)
    requires w in s.workers
    ensures Enabled(s, Abort(w))
    ensures (exists step :: GoesOn(s, step, w)) <==>
              !((s.workers[w].pc.Barred? || s.workers[w].pc.Cleared?) && s.holder.Some?)
  {
    var step := match s.workers[w].pc
                case Started => Fetch(w)
                case Fetched => CheckBarriers(w)
                case Barred(_) => CompareAndSet(w)
                case Cleared => CompareAndSet(w)
                case Claimed => RunExecutor(w)
                case Dispatched => RecordAttempt(w)
                case Recorded => Finalize(w)
                case Ready => Commit(w)
                case Left => Commit(w);
    if !((s.workers[w].pc.Barred? || s.workers[w].pc.Cleared?) && s.holder.Some?) {
      assert GoesOn(s, step, w);
    }
  }

  // ---------------------------------------------------------------------------
  // Whole runs
  // ---------------------------------------------------------------------------

  ghost predicate Takes(worlds: seq<World>, steps: seq<Step>, i: nat)
    requires i < |steps| && |worlds| == |steps| + 1
  {
    Enabled(worlds[i], steps[i]) && worlds[i + 1] == Next(worlds[i], steps[i])
  }

  /** The worlds an interleaving goes through, from a command that is pending and never dispatched. */
  ghost predicate IsRun(worlds: seq<World>, steps: seq<Step>) {
    && |worlds| == |steps| + 1
    && worlds[0].life.status == PENDING
    && worlds[0] == World(worlds[0].life, [], None, map[], 0, 0)
    && forall i {:trigger Takes(worlds, steps, i)} :: 0 <= i < |steps| ==> Takes(worlds, steps, i)
  }

  lemma {:induction false} RunsKeepInv(worlds: seq<World>, steps: seq<Step>, i: nat)
    requires IsRun(worlds, steps) && i <= |steps|
    ensures Inv(worlds[i])
  {
    if i > 0 {
      RunsKeepInv(worlds, steps, i - 1);
      assert Takes(worlds, steps, i - 1);
      StepKeeps(worlds[i - 1], steps[i - 1]);
    }
  }

  lemma StepKeeps(s: World, step: Step)
    requires Inv(s) && Enabled(s, step)
    ensures Inv(Next(s, step))
    ensures Reaches(s.life.status, Next(s, step).life.status)
    ensures IsFinal(s.life.status) ==> Next(s, step).life == s.life && Next(s, step).attempts == s.attempts
  {
    if step.Commit? {
      CommitKeepsInv(s, step.w);
      ExecuteKeepsRecord(s.life, s.attempts, s.workers[step.w].inputs);
    } else {
      OtherKeepsInv(s, step);
    }
  }

  /** Statuses only move along the legal transitions, and a final command never changes again. */
  lemma {:induction false} StatusesAreLegal(worlds: seq<World>, steps: seq<Step>, i: nat, j: nat)
    requires IsRun(worlds, steps) && i <= j <= |steps|
    ensures Reaches(worlds[i].life.status, worlds[j].life.status)
    ensures IsFinal(worlds[i].life.status) ==>
              worlds[j].life == worlds[i].life && worlds[j].attempts == worlds[i].attempts
    decreases j
  {
    if i < j {
      StatusesAreLegal(worlds, steps, i, j - 1);
      RunsKeepInv(worlds, steps, j - 1);
      assert Takes(worlds, steps, j - 1);
      StepKeeps(worlds[j - 1], steps[j - 1]);
      ReachesIsTransitive(worlds[i].life.status, worlds[j - 1].life.status, worlds[j].life.status);
    }
  }

  /** What one step commits of a call. */
  ghost function CommittedBy(s: World, step: Step): seq<Dispatch> {
    if step.Commit? && step.w in s.workers && s.workers[step.w].pc.Ready? then [s.workers[step.w].inputs] else []
  }

  /** The calls whose transactions commit a change, in the order of their commits. */
  ghost function Committed(worlds: seq<World>, steps: seq<Step>): seq<Dispatch>
    requires |worlds| == |steps| + 1
  {
    if steps == [] then []
    else
      var n := |steps| - 1;
      Committed(worlds[..n + 1], steps[..n]) + CommittedBy(worlds[n], steps[n])
  }

  function ExecuteAll(c: Life, dispatches: seq<Dispatch>): (Life, seq<ExecutionAttempt>) {
    if dispatches == [] then (c, [])
    else
      var n := |dispatches| - 1;
      var (c', attempts) := ExecuteAll(c, dispatches[..n]);
      Execute(c', attempts, dispatches[n])
  }

  lemma PrefixTakes(worlds: seq<World>, steps: seq<Step>, n: nat)
    requires IsRun(worlds, steps) && n <= |steps|
    ensures IsRun(worlds[..n + 1], steps[..n])
  {
    var before, done := worlds[..n + 1], steps[..n];
    forall i | 0 <= i < n
      ensures Takes(before, done, i)
    {
      assert Takes(worlds, steps, i);
    }
  }

  lemma StepIsSerial(s: World, step: Step)
    requires Inv(s) && Enabled(s, step)
    ensures var s', calls := Next(s, step), CommittedBy(s, step);
            (s'.life, s'.attempts) == if calls == [] then (s.life, s.attempts) else Execute(s.life, s.attempts, calls[0])
  {
    if step.Commit? {
      CommitKeepsInv(s, step.w);
    } else {
      OtherKeepsInv(s, step);
    }
  }

  lemma ExecuteMore(c: Life, calls: seq<Dispatch>, call: Dispatch)
    ensures var (c', attempts) := ExecuteAll(c, calls); ExecuteAll(c, calls + [call]) == Execute(c', attempts, call)
  {
    assert (calls + [call])[..|calls|] == calls;
  }

  /** Every interleaving leaves what its committed calls leave when run one after the other. */
  lemma {:induction false} Serialisable(worlds: seq<World>, steps: seq<Step>)
    requires IsRun(worlds, steps)
    ensures (worlds[|steps|].life, worlds[|steps|].attempts) == ExecuteAll(worlds[0].life, Committed(worlds, steps))
  {
    if steps != [] {
      var n := |steps| - 1;
      var earlier, now := Committed(worlds[..n + 1], steps[..n]), CommittedBy(worlds[n], steps[n]);
      PrefixTakes(worlds, steps, n);
      Serialisable(worlds[..n + 1], steps[..n]);
      RunsKeepInv(worlds, steps, n);
      assert Takes(worlds, steps, n);
      StepIsSerial(worlds[n], steps[n]);
      assert Committed(worlds, steps) == earlier + now;
      if now == [] {
        assert earlier + now == earlier;
      } else {
        ExecuteMore(worlds[0].life, earlier, now[0]);
      }
    }
  }

  /**
   * Executor calls are accounted for exactly: one per recorded attempt, one per transaction that aborted
   * after its call, one per transaction that has not ended. At most one attempt is ever recorded, and
   * without an abort after a call the executor runs at most once.
   */
  lemma AtMostOnce(worlds: seq<World>, steps: seq<Step>)
    requires IsRun(worlds, steps)
    ensures var s := worlds[|steps|];
            && WellRecorded(s.life, s.attempts)
            && s.dispatched == |s.attempts| + s.lost + InFlight(s)
            && |s.attempts| + InFlight(s) <= 1
            && (s.dispatched <= 1 <==> s.lost == 0 || (s.lost == 1 && s.attempts == [] && InFlight(s) == 0))
  {
    RunsKeepInv(worlds, steps, |steps|);
    var s := worlds[|steps|];
    if s.holder.Some? {
      assert DraftFits(s.life, s.attempts, s.workers[s.holder.value]);
    }
  }

  /** The i-th step aborts a transaction whose executor call has been made. */
  ghost predicate AbortsCall(worlds: seq<World>, steps: seq<Step>, i: nat)
    requires i < |steps| && |worlds| == |steps| + 1
  {
    steps[i].Abort? && steps[i].w in worlds[i].workers && worlds[i].workers[steps[i].w].HasRun()
  }

  lemma {:induction false} LostIsAborted(worlds: seq<World>, steps: seq<Step>, n: nat)
    requires IsRun(worlds, steps) && n <= |steps|
    ensures worlds[n].lost > 0 <==> exists i :: 0 <= i < n && AbortsCall(worlds, steps, i)
  {
    if n > 0 {
      LostIsAborted(worlds, steps, n - 1);
      assert Takes(worlds, steps, n - 1);
      assert AbortsCall(worlds, steps, n - 1) <==> worlds[n].lost > worlds[n - 1].lost;
    }
  }

  lemma {:induction false} CallsOnlyGrow(worlds: seq<World>, steps: seq<Step>, i: nat, n: nat)
    requires IsRun(worlds, steps) && i <= n <= |steps|
    ensures worlds[i].dispatched <= worlds[n].dispatched
  {
    if i < n {
      CallsOnlyGrow(worlds, steps, i, n - 1);
      assert Takes(worlds, steps, n - 1);
    }
  }

  /** When a worker is about to call the executor, every earlier call was lost to an abort. */
  lemma EarlierCallsAreLost(s: World, w: nat)
    requires Inv(s) && Enabled(s, RunExecutor(w))
    ensures s.dispatched == s.lost
  {
    assert DraftFits(s.life, s.attempts, s.workers[w]);
  }

  lemma AbortedCallWasMade(s: World, w: nat)
    requires Inv(s) && w in s.workers && s.workers[w].HasRun()
    ensures s.dispatched >= 1
  {
  }

  lemma {:induction false} RepeatNeedsAbort(worlds: seq<World>, steps: seq<Step>, n: nat) returns (i: nat, j: nat)
    requires IsRun(worlds, steps) && n <= |steps| && worlds[n].dispatched >= 2
    ensures i < j < n && AbortsCall(worlds, steps, i) && steps[j].RunExecutor?
  {
    if n == 0 {
      assert false;
    } else if worlds[n - 1].dispatched >= 2 {
      i, j := RepeatNeedsAbort(worlds, steps, n - 1);
    } else {
      j := n - 1;
      assert Takes(worlds, steps, j);
      RunsKeepInv(worlds, steps, j);
      EarlierCallsAreLost(worlds[j], steps[j].w);
      LostIsAborted(worlds, steps, j);
      i :| 0 <= i < j && AbortsCall(worlds, steps, i);
    }
  }

  /**
   * At-most-once on the schedule: the executor is called a second time exactly when some transaction aborts
   * after its call and a later step calls the executor.
   */
  lemma CallRepeatsExactly(worlds: seq<World>, steps: seq<Step>)
    requires IsRun(worlds, steps)
    ensures worlds[|steps|].dispatched >= 2 <==>
              exists i, j :: 0 <= i < j < |steps| && AbortsCall(worlds, steps, i) && steps[j].RunExecutor?
  {
    if worlds[|steps|].dispatched >= 2 {
      var i, j := RepeatNeedsAbort(worlds, steps, |steps|);
    }
    if i, j :| 0 <= i < j < |steps| && AbortsCall(worlds, steps, i) && steps[j].RunExecutor? {
      RunsKeepInv(worlds, steps, i);
      AbortedCallWasMade(worlds[i], steps[i].w);
      CallsOnlyGrow(worlds, steps, i, j);
      assert Takes(worlds, steps, j);
      CallsOnlyGrow(worlds, steps, j + 1, |steps|);
    }
  }

  /**
   * The rollback of a transaction restores PENDING but cannot recall its executor call: an abort after
   * the call lets the next worker call the executor again. The command must have been committed before.
   */
  lemma AbortAfterCallRepeatsIt() returns (worlds: seq<World>, steps: seq<Step>)
    ensures IsRun(worlds, steps)
    ensures worlds[|steps|].dispatched == 2 && worlds[|steps|].lost == 1
  {
    var d := Dispatch("razorpay", 0, false, ExecutionResult(SUCCESS, 15, None, true));
    var c := Life(PENDING, None, 0, 300 * SECOND, 0);
    var claimed := Moved(c, EXECUTING, None, 0);
    steps := [Begin(1, d), Fetch(1), CheckBarriers(1), CompareAndSet(1), RunExecutor(1), Abort(1),
              Begin(2, d), Fetch(2), CheckBarriers(2), CompareAndSet(2), RunExecutor(2)];
    worlds := [
      World(c, [], None, map[], 0, 0),
      World(c, [], None, map[1 := Worker(Started, d, c, [])], 0, 0),
      World(c, [], None, map[1 := Worker(Fetched, d, c, [])], 0, 0),
      World(c, [], None, map[1 := Worker(Cleared, d, c, [])], 0, 0),
      World(c, [], Some(1), map[1 := Worker(Claimed, d, claimed, [])], 0, 0),
      World(c, [], Some(1), map[1 := Worker(Dispatched, d, claimed, [])], 1, 0),
      World(c, [], None, map[], 1, 1),
      World(c, [], None, map[2 := Worker(Started, d, c, [])], 1, 1),
      World(c, [], None, map[2 := Worker(Fetched, d, c, [])], 1, 1),
      World(c, [], None, map[2 := Worker(Cleared, d, c, [])], 1, 1),
      World(c, [], Some(2), map[2 := Worker(Claimed, d, claimed, [])], 1, 1),
      World(c, [], Some(2), map[2 := Worker(Dispatched, d, claimed, [])], 2, 1)];
    assert forall i {:trigger Takes(worlds, steps, i)} :: 0 <= i < |steps| ==> Takes(worlds, steps, i);
  }
}

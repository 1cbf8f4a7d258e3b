# Payment intervention pipeline: a verified model

The pipeline watches payment health per five-minute window, turns bad windows into degradation episodes, decides
whether to intervene on one payment attempt, executes the intervention at most once, and afterwards attributes the
revenue the intervention protected. This project models those stages in Dafny and proves what they keep over
unbounded runs.

| file | part of the system |
|---|---|
| `Analytics.dfy`, `LateEvents.dfy` | Stage 2: counts per window and segment, the keyed snapshot table, late events |
| `Degradation.dfy`, `TimelineMeaning.dfy` | Stage 3: the episode state machine, and what it computes said without the machine |
| `DegradationLedger.dfy`, `DegradationHistory.dfy`, `HistoryRows.dfy`, `LateRun.dfy` | Stage 3: versioned signals, stored episodes, the history ledger and its as-of query, what its rows and answers say column by column, and a run that the query misses |
| `Attempts.dfy` | attempt identity, the PayPal key namespace, the registry |
| `Ranking.dfy` | ranked lists of routes and of root causes |
| `Decisioning.dfy`, `Admission.dfy` | Stage 6: gates, scoring, verdict, the decision log; then the same decider under concurrent workers |
| `Execution.dfy` | Stage 7: the command lifecycle under concurrent workers that rely on compare-and-set alone |
| `VersionedRows.dfy`, `AttributionLedger.dfy`, `AttributionHistory.dfy` | Stages 7, 7B and 8 on one store, and evaluation as of a cutoff |
| `Sizing.dfy` | the queries of Stages 6 and 7 that are given no provider: the sized amount and the pre-execution barrier |
| `Money.dfy`, `Evidence.dfy` | half-even rounding and the Stage 8 calculator; what an evaluation says, from the stored evidence alone |
| `ProtectedTotal.dfy`, `DoubleProtection.dfy` | the revenue all commands of one attempt protect together, and a run in which it exceeds the payment |
| `PayPalMoney.dfy`, `PayPalDelivery.dfy` | PayPal amounts, and concurrent webhook deliveries |

The shape is the same everywhere. A function says what an operation computes on values; a class method with the
source's steps is proved equal to that function; lemmas prove what the function means and what every sequence of
operations keeps. Where workers interleave, a step machine with the locks, row locks, unique keys and uncommitted
writes of the database is proved to commit exactly what its committed operations leave when run one after the other,
so that the results about sequences hold of every interleaving.

## How the source is read

- Times are whole microseconds and rates are reals. `Decimal` products are exact: 28 digits hold every product of a
  32-bit amount and two four-place factors. Float ratios are taken as exact quotients, float differences as exact
  differences, and a probability is rounded to six places from its exact value; at a cut-off the float result can fall
  on the other side (a baseline of 0.95 and a rate of 0.90 differ by 0.04999... in floats and by 0.05 here).
- A `uuid5` identifier is the tuple that is hashed. Fingerprints and payload hashes are opaque values that are only
  compared. Advisory-lock keys are assumed distinct.
- The database lists rows in an order the source does not fix. Queries whose answer depends on it are relations
  (`DegradationHistory.Answers`) or are proved order-free where the source promises a unique answer. Events with equal
  ingestion times are taken in insertion order; results that need distinct times say so.
- The run id of a reconciliation is the index of its call. Evaluation timestamps are arbitrary: the live pipeline passes
  the time of the event it handles (`src/core/services/live_pipeline.py:180`), which repeats within a second and goes
  back for a late event.
- The five snapshot dimensions and GLOBAL are an enumeration, so the upper-casing of dimension names is the identity.

Where the code and the repository's documentation differ, the model follows the code:

- The attribution confidence floor rejects a product below 0.25 as insufficient evidence
  (`src/core/attribution/calculator.py:150-163`); the repository's README says the product is raised to 0.25.
- Severity cut-offs are those of `src/core/domain/degradation_models.py:13-16`.
- No gate limits an attempt to a single intervention. What the code guarantees is the per-route cooldown
  (`Decisioning.LogsAreCooled`).
- `execute_command` promises at-most-once dispatch. The rollback of a transaction restores PENDING but cannot recall
  its executor call, so for a command committed before its execution an abort after the call lets a second worker call
  the executor again (`Execution.AbortAfterCallRepeatsIt`). The live pipeline creates and executes a command in one
  transaction (`src/core/services/live_pipeline.py:245-246`), whose rollback removes the command as well.
  `Execution.AtMostOnce` gives the exact account for every interleaving, and `Execution.CallRepeatsExactly` the exact
  schedules: the executor is called twice exactly when a transaction aborts after its call and a later step calls it.
- The as-of episode query promises what was active at T. It answers from the row-writing runs of the greatest visible
  timestamp, so a run stamped no later than the one it corrects is missed (`LateRun.LateRunIsMissed`).
  `DegradationHistory.AnswersExactly` gives its possible answers for any timestamps, and `DegradationHistory.TimeTravel`
  the exact condition under which it answers what the last run not after T left active.
- Stage 8 promises the authorization that Stage 6 sized the decision from. Stage 6 looks it up by payment id alone
  (`src/infrastructure/feature_reconstruction_repository.py:39-51`), Stage 8 by payment id and provider, so a payment id
  shared by two non-PayPal providers is sized from one amount and attributed from another (`Sizing.SharedIdIsSizedTwice`).
  `Sizing.SameTrigger` and `Sizing.SizedLikeDecision` say exactly when both read the same event. The pre-execution
  barrier has the same scope (`Sizing.BarrierExactly`).
- Protected revenue is bounded by the payment for one command. Nothing bounds it over the commands of one attempt: two
  fully attributed commands, decided on two announcements of one authorization under the default policy, protect 1140
  of a payment of 1000 (`DoubleProtection.TwoCommandsProtectTooMuch`).
  `ProtectedTotal` gives the bound that holds and exactly when.

## Model

| member | source | states |
|---|---|---|
| `Degradation.ReconcileTimeline` | src/core/degradation/state_machine.py:18-129 | the loop over signals, with its in-place episodes, yields the machine's timeline of the readings |
| `Degradation.BadMeaning` | src/core/degradation/signal.py:14-38 | for rates in [0,1], BAD if and only if there is a baseline and volume and the drop reaches both 0.05 and a tenth of the baseline; the branch for tiny baselines is never BAD |
| `Degradation.ReadingMeaning` | src/core/degradation/signal.py:14-55 | every column of a signal: NO_BASELINE exactly without a baseline, LOW_VOLUME exactly with one and too little volume, and the absolute and relative drop exactly when the rate was compared |
| `Degradation.SeverityMeaning` | src/core/degradation/severity.py:12-33 | the severity of a BAD window from its drop: CRITICAL at 0.30 or half the baseline, MODERATE below both 0.15 and a quarter of it |
| `Degradation.SeverityOfMeaning` | src/core/degradation/severity.py:12-33 | the severity of any signal: MODERATE without recorded drops, and the relative cut-offs apply only from a baseline of 0.05 on |
| `TimelineMeaning.TimelineMeaning` | src/core/degradation/state_machine.py:39-129 | a list of episodes is the timeline if and only if it describes a division of the decisive windows into spans that each open at the first three BADs in a row, hold no two NORMALs in a row, end at their last BAD, and leave no three BADs uncovered; count, peak and severity are those of the covered BADs |
| `TimelineMeaning.TimelineIsUnique` | src/core/degradation/state_machine.py:39-129 | there is only one such division, so the description determines the episodes |
| `TimelineMeaning.NeutralErasure` | src/core/degradation/state_machine.py:42-129 | removing LOW_VOLUME and NO_BASELINE signals leaves the timeline unchanged |
| `TimelineMeaning.TimelineOrdered` | src/core/degradation/state_machine.py:39-129 | for increasing windows, episodes are ordered and disjoint and only the last may be ACTIVE |
| `TimelineMeaning.PrefixStability` | src/core/degradation/state_machine.py:42-129 | more signals keep every RECOVERED episode as it was; an open one keeps its identity, and its count, peak and severity never decrease |
| `DegradationLedger.LatestMeaning` | src/infrastructure/degradation_repository.py:15-27 | DISTINCT ON keeps exactly one signal per window of the segment, of the highest version, in window order |
| `DegradationLedger.SortKeeps` | src/core/degradation/service.py:26-27 | sorting by window loses and invents no snapshot |
| `DegradationLedger.DegradationRepository.UpsertEpisode` | src/infrastructure/degradation_repository.py:57-91 | the episode row is replaced by key, and one history row with its id, status and severity, the run and the time is appended |
| `DegradationLedger.DegradationRepository.GetEpisodesForSegment` | src/infrastructure/degradation_repository.py:93-102 | every stored episode of the segment is listed once, whatever its status |
| `DegradationLedger.DegradationService.AppendEvaluations` | src/core/degradation/service.py:29-37 | each snapshot becomes a signal of the next version of its window |
| `DegradationLedger.DegradationService.InvalidateStale` | src/core/degradation/service.py:47-54 | exactly the stored, not yet invalidated episodes that the timeline no longer asserts become INVALIDATED, with one history row each |
| `DegradationLedger.DegradationService.ProcessSnapshots` | src/core/degradation/service.py:15-58 | the whole new state: versioned signals, reconciled episodes, and the run's assertions in the history |
| `DegradationHistory.LatestListsGiven` | src/core/degradation/service.py:29-40 | after any calls the latest signals list the last snapshot given for each window |
| `HistoryRows.SignalsAreNumbered` | src/core/degradation/service.py:29-37 | after any calls the signals of every window are numbered 1, 2, 3, ... in the order they were appended |
| `DegradationHistory.MaterialisedView` | src/core/degradation/service.py:29-58 | after any calls the stored episodes that are not INVALIDATED equal the timeline of the last snapshot given for each window |
| `DegradationHistory.Convergence` | src/core/degradation/service.py:29-58 | batching, replay and correction order do not matter: equal last snapshots give equal live episodes |
| `DegradationHistory.FeatureReconstructionRepository.GetActiveEpisodeContext` | src/infrastructure/feature_reconstruction_repository.py:105-146 | the two queries return an ACTIVE row of the newest visible run, and None exactly when there is none |
| `DegradationHistory.TimeTravel` | src/infrastructure/feature_reconstruction_repository.py:105-146 | for any calls, timestamps and T, the query answers exactly the ACTIVE history row (run and timestamp included) of the last run not after T, and nothing else, if and only if every row-writing run of the greatest visible timestamp is that run, or both left nothing active |
| `DegradationHistory.TimeTravelNames` | src/infrastructure/feature_reconstruction_repository.py:105-146 | for any calls, timestamps and T, every answer names the episode and severity that the last run not after T left active if and only if every row-writing run of the greatest visible timestamp left just that; some answer always exists |
| `DegradationHistory.AnswersExactly` | src/infrastructure/feature_reconstruction_repository.py:105-146 | the possible answers are exactly what the row-writing runs of the greatest visible timestamp left active, or None without one |
| `DegradationHistory.LatestStampDecides` | src/infrastructure/feature_reconstruction_repository.py:112-123 | a last run that wrote rows decides when it is stamped strictly after every earlier visible run |
| `DegradationHistory.OrderedRunsDecide` | src/core/degradation/service.py:42-58 | runs in timestamp order up to the last one not after T decide, even when that run wrote no row |
| `HistoryRows.RunRows` | src/infrastructure/degradation_repository.py:57-91 | over any calls, the history rows of a run are exactly, column by column and one per episode: each episode of the timeline of the last snapshots given up to it with its status and severity, and as INVALIDATED each episode of the timeline before it that is gone, with the severity it had |
| `HistoryRows.AnswerMeaning` | src/infrastructure/feature_reconstruction_repository.py:105-146 | where the last run not after T decides, the answer has the id and severity of the ACTIVE episode of the timeline of the last snapshots given up to that run, its number and its time, and is None exactly when that timeline has no ACTIVE episode |
| `HistoryRows.AnyAnswerMeaning` | src/infrastructure/feature_reconstruction_repository.py:105-146 | for any calls and timestamps, every answer is the ACTIVE episode, with its severity, of the timeline of the last snapshots given up to some visible run |
| `HistoryRows.NoRunNoAnswer` | src/infrastructure/feature_reconstruction_repository.py:128-129 | without a run of the segment up to T the answer is None |
| `LateRun.RunExists` | src/core/degradation/service.py:15-58 | every list of single-segment calls has a run of the model |
| `LateRun.LateRunIsMissed` | src/core/services/live_pipeline.py:176-180 | a correction stamped at or before the run it corrects leaves nothing active, yet the query can still answer the older ACTIVE row |
| `DegradationHistory.TimeTravelIsStable` | src/infrastructure/feature_reconstruction_repository.py:105-146 | runs evaluated after T never change the answer for T |
| `DegradationHistory.LaterRowsKeepAnswers` | src/infrastructure/degradation_repository.py:57-91 | rows of other segments, and later rows of other runs, never change an answer |
| `Attempts.PayPalKeyRoundTrip` | src/core/domain/payment_attempts.py:63-71 | the order id is recovered from the key built for it, except for the empty one |
| `Attempts.IdentityMeaning` | src/core/domain/payment_attempts.py:74-105 | the valid attempts are exactly PayPal order ids of 1 to 128 letters, digits, _ and - that start with a letter or digit, under the key paypal-order: plus the id, and non-empty Razorpay or synthetic payment ids outside that namespace as their own keys |
| `Attempts.NamespacesDisjoint` | src/core/domain/payment_attempts.py:74-105 | PayPal and non-PayPal keys never coincide, and a key and provider determine the attempt |
| `Attempts.ForKeyIsExact` | src/core/domain/payment_attempts.py:111-118 | for_key returns an attempt if and only if it is the valid one with that provider and key |
| `Attempts.IdentityErrors` | src/core/domain/payment_attempts.py:86-132 | for_key and for_trigger_event raise an unsupported provider exactly for a provider other than the three, and an invalid identity exactly when no valid attempt fits, or the event is not the provider's trigger |
| `Attempts.RequireMeaning` | src/infrastructure/payment_attempt_repository.py:49-65 | require fails exactly without a row for the key, or with one of another provider or reference |
| `Attempts.ResolutionAgreesWithTrigger` | src/core/domain/payment_attempts.py:176-221 | resolve_pipeline_attempt never raises, and gives the trigger role exactly where for_trigger_event succeeds |
| `Attempts.OneAttemptPerOrder` | src/core/domain/payment_attempts.py:181-221 | a terminal event resolves to the attempt of a trigger if and only if both belong to one order or payment |
| `Attempts.PaymentAttemptRepository.Register` | src/infrastructure/payment_attempt_repository.py:28-65 | insert-if-absent followed by the identity check; the only error on a valid trigger is a conflicting earlier row |
| `Attempts.FirstRegistrationWins` | src/infrastructure/payment_attempt_repository.py:28-65 | over any registrations a key keeps the provider, reference and trigger of its first event |
| `Ranking.SortIsCanonical` | src/core/intervention/calculator.py:150-179 | a list is the ranked one if and only if it is a sorted permutation, whatever the input order |
| `Ranking.SortedHeadIsLeast` | src/core/intervention/calculator.py:150-179 | rank 1 precedes every other element |
| `Ranking.RankCandidates` | src/core/rca/calculator.py:225-251 | causes are sorted and numbered 1..n |
| `Ranking.CauseRankingIsCanonical` | src/core/rca/calculator.py:225-251 | for distinct dimension/value pairs the numbering does not depend on the input order |
| `Ranking.RanksMeaning` | src/core/rca/calculator.py:225-251 | a better rank has a larger contribution, or as large a one and more failures, or both as large and the alphabetically earlier dimension, or that too and the earlier value |
| `Ranking.StringLeqMeaning` | src/core/rca/calculator.py:241-249 | strings are compared at their first difference, a prefix coming first |
| `Decisioning.CandidatesMeaning` | src/core/intervention/service.py:237-303 | the scored candidates are exactly the eligible routes, each once |
| `Decisioning.ActIsBest` | src/core/intervention/service.py:305-338 | an ACT passed every gate, and its route is eligible, of maximal utility at or above the policy minimum, and cheapest among ties |
| `Decisioning.ActExactly` | src/core/intervention/gates.py:15-135 | the tentative verdict is ACT if and only if every gate passes, the probability reaches the threshold and some eligible route is worth the policy minimum |
| `Decisioning.UtilityIsNearest` | src/core/intervention/calculator.py:24-45 | utility plus cost is the half-even rounding of amount, recovery rate and the probability, itself rounded half-even to six places |
| `Decisioning.EligibleMeaning` | src/core/intervention/gates.py:137-190 | a route is eligible if and only if it is enabled, not cooling, has the evidence it asks for, and one of its five cases of diagnosis or target applies |
| `Decisioning.VerdictMeaning` | src/core/intervention/calculator.py:182-218 | ACT, MONITOR and NO_ACTION each exactly when: MONITOR if and only if the hard gates pass, the probability reaches the monitor threshold, it is not ACT, and it is not the case that the probability reaches the ACT threshold without any eligible route in the cost currency |
| `Decisioning.GateMeaning` | src/core/intervention/gates.py:15-135 | the gate that a verdict reports is the first that fails, in the order of the gates; after them a missing route or the cost currency |
| `Decisioning.NewDecisionIsJustified` | src/core/intervention/service.py:343-429 | every appended row has the request's columns, the next version of its attempt, and the verdict, gate and route that the request, the cooling routes and the ACTs of the last minute call for; an ACT route is the most useful eligible one, then the cheapest, then the alphabetically first |
| `Decisioning.RepeatMeaning` | src/core/intervention/service.py:153-174 | a request is answered from the log if and only if the last row of its attempt has its fingerprint |
| `Decisioning.InterventionDecisionService.ScoreRoutes` | src/core/intervention/service.py:237-303 | the loop over routes with its cooldown queries yields the specified candidates |
| `Decisioning.InterventionDecisionService.DecideAttempt` | src/core/intervention/service.py:71-429 | gates, scoring, verdict, rate limit, version and append equal one step of the sequential decider; a repeated fingerprint returns the stored decision, and otherwise exactly one row is appended, whose columns, verdict, gate and route are justified by the request and the log |
| `Decisioning.LogsAreDense` | src/core/intervention/service.py:160-174 | an attempt's versions are exactly 1..n and neighbouring fingerprints differ |
| `AttributionLedger.DecisionIdsDiffer` | src/core/domain/intervention_models.py:108-112 | no two decisions of a log share an id, when their attempts have distinct keys |
| `Decisioning.LogsAreAdmitted` | src/core/intervention/service.py:343-366 | every ACT, when inserted, found fewer than the limit in the minute up to it or later |
| `Decisioning.LogsAreCooled` | src/infrastructure/intervention_repository.py:142-165 | two ACTs of an attempt on one route are strictly more than the cooldown apart, in insertion order |
| `Decisioning.AdmittedIntervals` | src/infrastructure/intervention_repository.py:130-140 | admission at insertion alone bounds every closed interval, even when decision times are out of order |
| `Decisioning.RateLimit` | src/core/intervention/service.py:343-366 | over any run every closed 60-second interval holds at most the limit of ACT decisions |
| `Admission.CommitStep` | src/core/intervention/service.py:371-429 | a commit extends the log exactly as deciding its request alone on the committed log would |
| `Admission.ReadStep` | src/core/intervention/service.py:169-370 | every other step of any worker keeps what the workers have read valid under the locks they hold |
| `Admission.Serialisable` | src/infrastructure/intervention_repository.py:42-62 | every interleaving under the two advisory locks commits what its requests leave one after the other |
| `Admission.AdmissionSafety` | src/core/intervention/service.py:160-429 | rate limit, dense versions and cooldown hold for every interleaving and any decision times |
| `Admission.NoWorkerIsStuck` | src/core/intervention/service.py:149-429 | a transaction may always give up, and has a next step unless it waits for a lock or met its own decision |
| `Execution.ExecuteKeepsRecord` | src/core/execution/execution_service.py:131-262 | one execution follows legal transitions, leaves final commands alone, and a final command has its one attempt exactly when SUCCEEDED or FAILED |
| `Execution.ExecuteMeaning` | src/core/execution/execution_service.py:155-262 | the columns one execution writes: EXPIRED or NOT_NEEDED with its reason and time, or one attempt row with the executor's result, start and end, and SUCCEEDED or FAILED with the reason that the result names |
| `Execution.CommitKeepsInv` | src/infrastructure/execution_repository.py:150-177 | a commit has the effect of running the call alone on the committed command |
| `Execution.OtherKeepsInv` | src/core/execution/execution_service.py:131-262 | the uncommitted draft of each worker is always what the call computes from the committed command |
| `Execution.StatusesAreLegal` | src/core/execution/state_machine.py:23-60 | over every interleaving statuses move along LEGAL_TRANSITIONS and final commands never change |
| `Execution.Serialisable` | src/infrastructure/execution_repository.py:150-177 | compare-and-set alone, without the advisory lock, makes every interleaving sequential |
| `Execution.AtMostOnce` | src/core/execution/execution_service.py:145-262 | the exact account of executor calls, and exactly when there is at most one |
| `Execution.CallRepeatsExactly` | src/core/execution/execution_service.py:188-262 | over every interleaving the executor is called a second time if and only if some transaction aborts after its call and a later step calls the executor |
| `Execution.AbortAfterCallRepeatsIt` | src/core/execution/execution_service.py:188-262 | an interleaving with one aborted transaction in which the executor is called twice |
| `Execution.NoWorkerIsStuck` | src/core/execution/execution_service.py:131-262 | a transaction may always abort, and has a next step unless it waits for the row |
| `VersionedRows.LatestByMeaning` | src/infrastructure/attribution_repository.py:224-254 | the as-of query has exactly one answer: the row of the highest version stamped by the cutoff |
| `VersionedRows.HighestVersionIsLatestStamp` | src/infrastructure/attribution_repository.py:240-254 | reading the highest version is reading the latest stamp, at every cutoff, if and only if rows were made in stamp order |
| `VersionedRows.DenseAppend` | src/core/execution/observation_service.py:127-130 | allocating one above the maximum keeps versions 1..n |
| `AttributionLedger.QueriesAgreeWithResolution` | src/infrastructure/execution_repository.py:281-370 | the queries with a provider select exactly the events resolved to the attempt; the barrier and Stage 6's trigger query select exactly those and the same kind of event of another non-PayPal provider with the payment id |
| `AttributionLedger.Session.CreateCommand` | src/core/execution/execution_service.py:57-129 | a new command appears if and only if the decision is a passed ACT with a route on a registered attempt, is stored for the same provider and has no command; existing commands never change and an error leaves the store unchanged |
| `AttributionLedger.CreatedExactly` | src/core/execution/execution_service.py:57-129 | the same of the specified operation, with the new command's fields, and that asking again returns the stored command and adds nothing |
| `AttributionHistory.CommandOrigin` | src/core/execution/execution_service.py:71-129 | over any operations every command was created for an executable, stored decision, and its provider, route and times never changed since |
| `AttributionLedger.Session.UpdateStatusAtomic` | src/infrastructure/execution_repository.py:150-177 | the status changes exactly when it is the expected one |
| `AttributionLedger.Session.ExecuteCommand` | src/core/execution/execution_service.py:131-262 | the stepwise execution equals the specified one: expiry barrier, terminal barrier, claim, attempt, final status |
| `AttributionLedger.Session.Observe` | src/core/execution/observation_service.py:46-149 | appends the observation derived from the visible terminal events; a repeated cutoff is refused |
| `AttributionLedger.Session.AttributePaymentIntervention` | src/core/attribution/attribution_service.py:57-273 | appends the evaluation as of the cutoff, or returns the row already stored for that exact cutoff |
| `AttributionHistory.ApplyKeepsInv` | src/infrastructure/models.py:459-640 | every operation keeps foreign keys, dense versions, distinct cutoffs and the lifecycle record |
| `AttributionHistory.RunsKeepInv` | src/infrastructure/models.py:459-640 | so does every sequence of operations |
| `AttributionHistory.FinalStays` | src/core/execution/execution_service.py:155-157 | no sequence of operations changes a final command or its attempts |
| `AttributionHistory.StatusIsRedundant` | src/core/attribution/attribution_service.py:141-160 | the current status adds nothing to the attempt rows visible at the cutoff |
| `AttributionHistory.AsOfIgnoresFuture` | src/core/attribution/attribution_service.py:82-200 | evaluating a command as of T is unchanged by any later operations, whatever they do to other commands and attempts, if the command's own attempts and observations are stamped after T and its attempt's trigger events after the earlier of T and the decision, although the status is read without a cutoff |
| `AttributionHistory.StoredAttributionStaysCorrect` | src/core/attribution/attribution_service.py:73-81 | a stored attribution is returned again unchanged and still equals a fresh evaluation while only later-stamped records of the command and its attempt arrive |
| `AttributionHistory.EvaluationSucceeds` | src/core/attribution/attribution_service.py:82-127 | on a consistent store no upstream record is missing and no decision, prediction, attempt or observation conflicts in provider or attempt |
| `AttributionLedger.EvaluateExactly` | src/core/attribution/attribution_service.py:82-127 | on any store an evaluation fails exactly without the command, its decision or its registered attempt, or on a record of another provider or attempt |
| `AttributionHistory.AttributedExactlyWhenEarned` | src/core/attribution/attribution_service.py:141-200 | ATTRIBUTED if and only if ACT, a visible SUCCESS attempt, a CAPTURED outcome at or after completion, a PREDICTED probability and the confidence floor; otherwise all money is zero |
| `AttributionHistory.AttributedIsEarned` | src/core/attribution/calculator.py:85-199 | an attributed command is SUCCEEDED and all its evidence exists |
| `AttributionHistory.FloorReached` | src/core/attribution/calculator.py:27-54 | exactly which model provenance, diagnosis and delay reach the floor; with no verified model the confidence is at most 0.6 |
| `AttributionHistory.FirstDecides` | src/core/execution/observation_service.py:75-103 | with no tie among the attempt's own terminal events, the selected one is exactly the earliest ingested visible one |
| `AttributionHistory.ObservationMeaning` | src/core/execution/observation_service.py:75-149 | the columns of an observation: the next version, the kind of the selected event, none exactly without a visible one, and the whole milliseconds from the command's creation to that event |
| `AttributionHistory.ConflictMeaning` | src/core/execution/observation_service.py:88-90 | the conflict flag is set if and only if both terminal types are visible |
| `AttributionHistory.StickyOutcome` | src/core/execution/observation_service.py:66-124 | once CAPTURED or FAILED as of T, every later cutoff selects the same event and outcome and a conflict never clears, whatever else happens, if later terminal events of the attempt are stamped after T and none of them tie |
| `Sizing.AmountMeaning` | src/infrastructure/attribution_repository.py:268-313 | with no tie among the attempt's own trigger events, the amount is that of the latest ingested visible one, and zero without one |
| `Sizing.SameTrigger` | src/infrastructure/feature_reconstruction_repository.py:21-53 | Stage 6 and Stage 8 read the same trigger event if and only if the latest visible one of the key is of the attempt's provider, which for PayPal it always is |
| `Sizing.SharedIdIsSizedTwice` | src/infrastructure/feature_reconstruction_repository.py:39-51 | a shared payment id that Stage 6 sizes at 900 and Stage 8 attributes at 100 |
| `Sizing.SizedLikeDecision` | src/core/attribution/attribution_service.py:129-139 | for a request sized from the store and any later operations, every attribution from the decision on reads the event the decision was sized from if and only if it was the attempt's own, and then attributes the amount of the request |
| `Sizing.BarrierExactly` | src/infrastructure/execution_repository.py:307-330 | before expiry a pending command ends as NOT_NEEDED if and only if a terminal event of its attempt, or of another non-PayPal provider with its payment id, was ingested by the claim time |
| `Sizing.BarrierStopsDispatch` | src/core/execution/execution_service.py:159-187 | an event resolved as the attempt's terminal one and ingested by the claim time ends the command as NOT_NEEDED or EXPIRED, and no later operation ever dispatches it |
| `Money.HalfEvenIsUnique` | src/core/attribution/calculator.py:166-179 | half-even rounding is the only integer within one half of the exact value that is even on a tie |
| `Money.RoundingKeepsOrder` | src/core/attribution/calculator.py:166-179 | rounding alone gives 0 <= protected <= exposure <= amount |
| `Money.RoundingMonotone` | src/core/attribution/calculator.py:166-179 | both rounded results are monotone in the amount and the baseline risk |
| `Money.RoundingIsNearest` | src/core/attribution/calculator.py:166-179 | each rounded result is within half a minor unit of the exact product |
| `Money.AttributedMoney` | src/core/attribution/calculator.py:148-199 | an attributed result keeps the order, conserves the amount, its clamps never bite, and its confidence is between 0.25 and 1 |
| `Money.AttributedMoneyMonotone` | src/core/attribution/calculator.py:148-199 | a larger amount or risk never lowers exposure or protected revenue |
| `Money.ConfidenceMeaning` | src/core/attribution/calculator.py:27-54 | the confidence is the half-even four-place rounding of the product of the three discounts, each with its values: provenance, diagnosis, delay |
| `Money.MoneyMeaning` | src/core/attribution/calculator.py:148-182 | exposure is the half-even rounding of amount and four-place probability, natural success the rest, protected revenue the half-even rounding of amount, probability and confidence |
| `Money.WeakerEvidence` | src/core/attribution/calculator.py:148-182 | a weaker diagnosis or a later outcome never raises the confidence or the protected revenue |
| `Money.StatusMeaning` | src/core/attribution/calculator.py:76-163 | which of the six statuses results, exactly, with its confidence; money is zero unless ATTRIBUTED |
| `Evidence.TreatmentMeaning` | src/core/attribution/attribution_service.py:141-160 | treated if and only if ACT with a visible successful attempt that no visible outcome precedes, execution failed if and only if ACT with a visible unsuccessful one |
| `Evidence.OutcomeMeaning` | src/core/attribution/attribution_service.py:162-166 | the outcome is the kind of the terminal event that the newest visible observation selected, and in flight exactly without one |
| `Evidence.StatusFromEvidence` | src/core/attribution/attribution_service.py:129-200 | which status an evaluation gets, exactly, from the visible attempt, the selected event, the decision and the prediction |
| `Evidence.RiskMeaning` | src/core/attribution/attribution_service.py:168-181 | the counterfactual probability is the stored one to four places, and none exactly without one |
| `Evidence.ProvenanceMeaning` | src/core/attribution/attribution_service.py:36-43 | a model counts as development if and only if it is the baseline model or its name spells synthetic in letters of either case, and never as verified |
| `Evidence.EarnedMoney` | src/core/attribution/attribution_service.py:183-200 | an earned attribution has as confidence the rounded product of the discounts for its model, diagnosis and delay from completion to outcome, and as money the rounded products of amount, probability and that confidence |
| `ProtectedTotal.ProtectedPerAttempt` | src/core/services/live_pipeline.py:251-271 | the commands of one attempt, evaluated from one amount, protect at most it when at most one is attributed; in general the amount times their summed weights, within half a minor unit each |
| `ProtectedTotal.AtMostOneIsBounded` | src/core/attribution/calculator.py:175-179 | k attributions are bounded by the amount for every amount and every risk and confidence if and only if k is at most one |
| `ProtectedTotal.WeightsDecide` | src/core/attribution/calculator.py:175-179 | given their risks and confidences, they stay within every amount, up to half a minor unit each, if and only if the products add up to at most one |
| `DoubleProtection.TwoCommandsProtectTooMuch` | src/core/services/live_pipeline.py:229-271 | a run from the empty store in which Stage 6 under the default policy decides two requests that read the store, and the two commands of the attempt protect 1140 of 1000 |
| `PayPalMoney.SplitIsExact` | src/core/normalizers/paypal.py:60-60 | the amount pattern matches exactly the texts of a numeral with an optional fraction, in one way |
| `PayPalMoney.ConversionIsExact` | src/core/normalizers/paypal.py:83-121 | a string converts to n if and only if it is well formed, has no more decimals than the currency, and is worth exactly n minor units in 1..2147483647 |
| `PayPalMoney.ErrorMeaning` | src/core/normalizers/paypal.py:83-121 | which rejection applies, exactly, in the order of the checks |
| `PayPalMoney.ExponentMeaning` | src/core/normalizers/paypal.py:49-54 | the three currencies without decimals, the 22 with two, and no other |
| `PayPalMoney.RoundTrip` | src/core/normalizers/paypal.py:83-121 | writing any n in 1..2147483647 with the currency's decimals and converting it back gives n |
| `PayPalDelivery.SQLIngestionRepository.SaveIngestion` | src/infrastructure/repository.py:36-81 | both rows are stored or neither, and it fails exactly when the identity exists |
| `PayPalDelivery.SQLIngestionRepository.Ingest` | src/core/services/paypal_ingestion_service.py:51-109 | rejected exactly by signature, JSON, supported type and schema, in this order and without storing anything; else, with any deliveries committed between check and insert: stored, or duplicate or conflict by the winner's hash, and the tables in each case |
| `PayPalDelivery.DeliverySafety` | src/core/services/paypal_ingestion_service.py:51-109 | over every interleaving: rows stay paired; every stored id was stored by one request, verified and parsed, and its rows are that request's; every other ended request is rejected exactly as its signature and body call for, or answered by the stored hash; a lost insert finds the winner; the pipeline starts at most once per id and only for a stored event with a pipeline role |
| `PayPalDelivery.TablesAreWinners` | src/infrastructure/repository.py:67-81 | the tables are those of the winning deliveries saved one after the other |
| `PayPalDelivery.StepKeepsSchedule` | src/api/routes.py:174-180 | only the delivery that stored an id schedules its pipeline, once |
| `PayPalDelivery.NoRequestIsStuck` | src/core/services/paypal_ingestion_service.py:51-109 | an unanswered request has a next step unless it waits for the keys of its id, and once answered exactly a stored event with a pipeline role is still to be scheduled |
| `Analytics.GroupByValue` | src/core/analytics/calculator.py:29-43 | the dictionary holds exactly the events of each segment value, in first-seen order |
| `Analytics.CountSegment` | src/core/analytics/calculator.py:46-60 | the counting loop yields captured and failed counts and revenue |
| `Analytics.CalculateHealthMetricsForWindow` | src/core/analytics/calculator.py:17-90 | one row per reported segment of each dimension, in order; a row exists exactly for a segment with an event in the window or the GLOBAL row of an empty list, and it measures its events as counted by hand: the numbers and revenues of captured and failed ones, each rate times their number, too little volume below 50 |
| `Analytics.DimensionsSumToGlobal` | src/core/analytics/calculator.py:28-88 | in every dimension the counts and revenue of the segments add up to the GLOBAL row |
| `Analytics.RowsAreValidSnapshots` | src/core/analytics/calculator.py:62-68 | rates exist exactly when there are transactions and add up to 1, the success rate is the share of successes in [0,1], and a row with enough volume has what Stage 3 needs |
| `LateEvents.PaymentHealthAnalyticsService.UpsertSnapshots` | src/infrastructure/analytics_repository.py:132-174 | rows are replaced by key and all other rows stay |
| `LateEvents.PaymentHealthAnalyticsService.CalculateAndSaveWindow` | src/core/analytics/service.py:22-51 | the table after a window was saved |
| `LateEvents.PaymentHealthAnalyticsService.RecalculateLateEvents` | src/core/analytics/service.py:53-69 | exactly the windows of late events are recomputed, in whatever order the set is visited |
| `LateEvents.FullMeaning` | src/core/analytics/calculator.py:28-88 | a full computation has a row at a key if and only if the segment is reported, holding the health of exactly its events |
| `LateEvents.FullMeasures` | src/core/analytics/service.py:22-51 | a full computation has a row exactly for a segment with an event in the window that is not PayPal's, or the GLOBAL row without any, and it measures exactly those events as counted by hand |
| `LateEvents.WindowStart` | src/core/analytics/service.py:11-20 | the five-minute window around a time |
| `LateEvents.LateRecalculation` | src/core/analytics/service.py:53-69 | if the table matched all events ingested up to a time, after the recalculation it matches a full computation over all events |

## Left out

- Degradation.BadMeaning: exact reals replace the code's float subtraction and division, so a drop that meets a cut-off exactly can be BAD here and NORMAL in the code.
- Degradation.SeverityMeaning: the same at the severity cut-offs.
- Baseline medians, route alignment, decision and monitor confidence, audit payloads, log messages and wall-clock `created_at` fields: they decide none of the properties above.
- Root-cause analysis apart from candidate ranking, `get_rca_context` and `get_most_severe_active_episode`: single-branch queries over the same ledger.
- Prediction and model training: a failure probability, its status and its model name are given values.
- HTTP routes, dashboards, authentication, the PayPal client and signature verification: a request is given as verified or not, and its body as no JSON, of an unsupported type, of an invalid schema, or parsed.
- `parse_paypal_timestamp` and the other field conversions of the PayPal normalizer: a delivery carries its event, or none when it cannot be normalized.
- `set_command_status`: no modelled service calls it.
- Concurrent reconciliation: `process_snapshots` takes no lock, and its calls are modelled one after the other, so two sessions that rebuild one segment at once are not covered (a unique key still refuses a signal version taken twice).
- Concurrent attribution and observation: their services are modelled as atomic operations on one store, in any order.
- Registration inside the admission protocol: `Admission` takes requests on registered attempts; `Decisioning.InterventionDecisionService.DecideAttempt` models the check.
- Timestamps of a command in the source may lack a time zone and are then read as UTC; times here are plain numbers.
- Liveness: that a delivery, a command or a decision eventually ends is not stated, because a database may refuse every commit.

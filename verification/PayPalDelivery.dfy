/** PayPal webhook intake: check, insert and re-read on one store, delivered any number of times at once. */
module PayPalDelivery {
  import opened Common
  import opened Attempts

  /** A parsed delivery; `event` is None when its resource cannot be normalized. */
  datatype Delivery = Delivery(id: string, hash: nat, event: Option<Event>)

  /** What the body of a request turns out to be once it is looked at. */
  datatype Body = NotJson | NotSupported | BadSchema | Parsed(delivery: Delivery)

  /** A webhook request and what PayPal says of its signature. */
  datatype Request = Request(verified: bool, body: Body) {
    predicate Accepted() {
      verified && body.Parsed?
    }

    /** The delivery of a parsed request. */
    function Content(): Delivery {
      if body.Parsed? then body.delivery else Delivery("", 0, None)
    }
  }

  datatype Answer =
    | Stored
    | Duplicate
    | Ignored
    | Conflict                                  // DuplicateEventConflictError
    | BadSignature
    | Malformed
    | Invalid                                   // SchemaValidationError
    | NotNormalizable
    | PersistenceFailed

  /** The payload hashes of the raw records and the canonical events, by source event id. */
  datatype Tables = Tables(raw: map<string, nat>, events: map<string, Event>) {
    predicate Has(id: string) {
      id in raw || id in events
    }

    /** Every raw record has its event and every event its raw record. */
    predicate Paired() {
      raw.Keys == events.Keys
    }
  }

  /** _resolve_existing. */
  function Resolve(stored: nat, hash: nat): Answer {
    if stored == hash then Duplicate else Conflict
  }

  /** The tables after save_ingestion, whose two rows are committed together or not at all. */
  function Saved(t: Tables, d: Delivery): Tables {
    if d.event.None? || t.Has(d.id) then t
    else Tables(t.raw[d.id := d.hash], t.events[d.id := d.event.value])
  }

  function SavedAll(t: Tables, deliveries: seq<Delivery>): Tables {
    if deliveries == [] then t else Saved(SavedAll(t, deliveries[..|deliveries| - 1]), deliveries[|deliveries| - 1])
  }

  predicate StartsPipeline(d: Delivery) {
    d.event.Some? && ResolvePipelineAttempt(d.event.value).Ok? && ResolvePipelineAttempt(d.event.value).value.Some?
  }

  lemma {:induction false} SavingKeepsPairs(t: Tables, deliveries: seq<Delivery>)
    requires t.Paired()
    ensures SavedAll(t, deliveries).Paired()
    ensures forall id <- t.raw :: id in SavedAll(t, deliveries).raw && SavedAll(t, deliveries).raw[id] == t.raw[id]
  {
    if deliveries != [] {
      SavingKeepsPairs(t, deliveries[..|deliveries| - 1]);
    }
  }

  class SQLIngestionRepository {
    var raw: map<string, nat>
    var events: map<string, Event>

    function Contents(): Tables
      reads this
    {
      Tables(raw, events)
    }

    constructor ()
      ensures Contents() == Tables(map[], map[])
    {
      raw, events := map[], map[];
    }

    method GetRawRecord(id: string) returns (hash: Option<nat>)
      ensures hash == if id in raw then Some(raw[id]) else None
    {
      hash := if id in raw then Some(raw[id]) else None;
    }

    /** False is the unique violation that becomes DuplicateEventConflictError; it leaves neither row. */
    method SaveIngestion(id: string, hash: nat, event: Event) returns (saved: bool)
      modifies this
      ensures Contents() == Saved(old(Contents()), Delivery(id, hash, Some(event)))
      ensures saved == !old(Contents()).Has(id)
    {
      ghost var before := Contents();
      saved := true;
      if id in raw {
        saved := false;
      } else {
        raw := raw[id := hash];
        if id in events {
          raw := raw - {id};
          saved := false;
        } else {
          events := events[id := event];
        }
      }
      assert !saved && id !in before.raw ==> raw == before.raw;
    }

    /** What other transactions commit between two statements of a delivery. */
    method OthersCommit(deliveries: seq<Delivery>)
      modifies this
      ensures Contents() == SavedAll(old(Contents()), deliveries)
    {
      for i := 0 to |deliveries|
        invariant Contents() == SavedAll(old(Contents()), deliveries[..i])
      {
        assert deliveries[..i + 1][..i] == deliveries[..i];
        var d := deliveries[i];
        if d.event.Some? {
          var _ := SaveIngestion(d.id, d.hash, d.event.value);
        }
      }
      assert deliveries[..|deliveries|] == deliveries;
    }

    /** PayPalIngestionService.ingest; `meanwhile` commits between its check and its insert. */
    method Ingest(request: Request, meanwhile: seq<Delivery>) returns (answer: Answer)
      requires Contents().Paired()
      modifies this
      ensures Contents().Paired()
      ensures answer == BadSignature <==> !request.verified
      ensures answer == Malformed <==> request.verified && request.body.NotJson?
      ensures answer == Ignored <==> request.verified && request.body.NotSupported?
      ensures answer == Invalid <==> request.verified && request.body.BadSchema?
      ensures !request.Accepted() ==> Contents() == old(Contents())
      ensures request.Accepted() ==>
                var d, before, rivals := request.Content(), old(Contents()), SavedAll(old(Contents()), meanwhile);
                && (d.id in before.raw ==>
                      answer == Resolve(before.raw[d.id], d.hash) && Contents() == before)
                && (d.id !in before.raw && d.event.None? ==> answer == NotNormalizable && Contents() == rivals)
                && (d.id !in before.raw && d.event.Some? && d.id in rivals.raw ==>
                      answer == Resolve(rivals.raw[d.id], d.hash) && Contents() == rivals)
                && (d.id !in before.raw && d.event.Some? && d.id !in rivals.raw ==>
                      answer == Stored && Contents() == Saved(rivals, d))
    {
      if !request.verified {
        return BadSignature;
      }
      match request.body
      case NotJson => return Malformed;
      case NotSupported => return Ignored;
      case BadSchema => return Invalid;
      case Parsed(d) =>
        var existing := GetRawRecord(d.id);
        if existing.Some? {
          return Resolve(existing.value, d.hash);
        }
        SavingKeepsPairs(Contents(), meanwhile);
        OthersCommit(meanwhile);
        if d.event.None? {
          return NotNormalizable;
        }
        var saved := SaveIngestion(d.id, d.hash, d.event.value);
        if !saved {
          var winner := GetRawRecord(d.id);
          if winner.None? {
            return Conflict;
          }
          return Resolve(winner.value, d.hash);
        }
        return Stored;
    }
  }

  // ---------------------------------------------------------------------------
  // Deliveries at once
  // ---------------------------------------------------------------------------

  datatype Pc =
    | Arrived
    | Verified                                  // PayPal confirmed the signature
    | Received                                  // parsed as an event of a supported type
    | Absent                                    // the check found no raw record
    | Flushed                                   // both rows inserted, not committed
    | Beaten                                    // the insert met a committed row
    | Done(answer: Answer)

  /** `failed` records that an error outside the service ended the request. */
  datatype Worker = Worker(request: Request, pc: Pc, failed: bool, scheduled: bool) {
    /** It holds, or has used, the unique keys of its event id. */
    predicate Owns() {
      pc == Flushed || pc == Done(Stored)
    }

    function Delivery(): Delivery {
      request.Content()
    }
  }

  datatype World = World(tables: Tables, workers: map<nat, Worker>, scheduled: seq<string>)

  datatype Step =
    | Arrive(w: nat, request: Request)
    | Verify(w: nat)
    | Parse(w: nat)
    | Check(w: nat)
    | Flush(w: nat)
    | Commit(w: nat)
    | Reread(w: nat)
    | Fail(w: nat)                              // any error of PayPal's service or the database but the identity conflict
    | Schedule(w: nat)

  /** A unique index makes an insert wait for an uncommitted row with the same key. */
  ghost predicate KeyIsFree(s: World, id: string) {
    forall v <- s.workers :: s.workers[v].pc == Flushed ==> s.workers[v].Delivery().id != id
  }

  ghost predicate Enabled(s: World, step: Step) {
    if step.Arrive? then step.w !in s.workers
    else
      && step.w in s.workers
      && var worker := s.workers[step.w];
         match step
         case Arrive(_, _) => false
         case Verify(_) => worker.pc == Arrived
         case Parse(_) => worker.pc == Verified
         case Check(_) => worker.pc == Received
         case Flush(_) => worker.pc == Absent && (worker.Delivery().event.Some? ==> KeyIsFree(s, worker.Delivery().id))
         case Commit(_) => worker.pc == Flushed
         case Reread(_) => worker.pc == Beaten
         case Fail(_) => !worker.pc.Done?
         case Schedule(_) => worker.pc == Done(Stored) && !worker.scheduled && StartsPipeline(worker.Delivery())
  }

  function At(s: World, w: nat, worker: Worker): World {
    s.(workers := s.workers[w := worker])
  }

  ghost function Next(s: World, step: Step): World
    requires Enabled(s, step)
  {
    if step.Arrive? then At(s, step.w, Worker(step.request, Arrived, false, false))
    else
      var w, worker := step.w, s.workers[step.w];
      var d := worker.Delivery();
      match step
      case Verify(_) => At(s, w, worker.(pc := if worker.request.verified then Verified else Done(BadSignature)))
      case Parse(_) =>
        At(s, w, worker.(pc := match worker.request.body
                               case NotJson => Done(Malformed)
                               case NotSupported => Done(Ignored)
                               case BadSchema => Done(Invalid)
                               case Parsed(_) => Received))
      case Check(_) =>
        At(s, w, worker.(pc := if d.id in s.tables.raw then Done(Resolve(s.tables.raw[d.id], d.hash)) else Absent))
      case Flush(_) =>
        At(s, w, worker.(pc := if d.event.None? then Done(NotNormalizable)
                               else if s.tables.Has(d.id) then Beaten else Flushed))
      case Commit(_) => At(s, w, worker.(pc := Done(Stored))).(tables := Saved(s.tables, d))
      case Reread(_) =>
        At(s, w, worker.(pc := if d.id in s.tables.raw then Done(Resolve(s.tables.raw[d.id], d.hash))
                               else Done(Conflict)))
      case Fail(_) => At(s, w, worker.(pc := Done(PersistenceFailed), failed := true))
      case Schedule(_) => At(s, w, worker.(scheduled := true)).(scheduled := s.scheduled + [d.id])
  }

  /** What each worker knows about its request and the committed tables. */
  predicate Fits(t: Tables, worker: Worker) {
    var r, d := worker.request, worker.Delivery();
    && (worker.scheduled ==> worker.pc == Done(Stored) && StartsPipeline(d))
    && (worker.failed <==> worker.pc == Done(PersistenceFailed))
    && match worker.pc
       case Arrived => true
       case Verified => r.verified
       case Received => r.Accepted()
       case Absent => r.Accepted()
       case Flushed => r.Accepted() && d.id !in t.raw && d.event.Some?
       case Beaten => r.Accepted() && d.id in t.raw
       case Done(Stored) =>
         && r.Accepted()
         && d.id in t.raw && t.raw[d.id] == d.hash
         && d.id in t.events && d.event == Some(t.events[d.id])
       case Done(Duplicate) => r.Accepted() && d.id in t.raw && t.raw[d.id] == d.hash
       case Done(Conflict) => r.Accepted() && d.id in t.raw && t.raw[d.id] != d.hash
       case Done(NotNormalizable) => r.Accepted() && d.event.None?
       case Done(BadSignature) => !r.verified
       case Done(Malformed) => r.verified && r.body.NotJson?
       case Done(Ignored) => r.verified && r.body.NotSupported?
       case Done(Invalid) => r.verified && r.body.BadSchema?
       case Done(PersistenceFailed) => true
  }

  ghost predicate OneOwner(workers: map<nat, Worker>) {
    forall v, w :: v in workers && w in workers && v != w && workers[v].Owns() && workers[w].Owns() ==>
                     workers[v].Delivery().id != workers[w].Delivery().id
  }

  /** The worker that stored the id. */
  predicate Won(s: World, w: nat, id: string) {
    w in s.workers && s.workers[w].pc == Done(Stored) && s.workers[w].Delivery().id == id
  }

  ghost predicate HasWinner(s: World, id: string) {
    exists w :: Won(s, w, id)
  }

  ghost predicate ScheduledFits(s: World) {
    && (forall i, j :: 0 <= i < j < |s.scheduled| ==> s.scheduled[i] != s.scheduled[j])
    && (forall id <- s.scheduled :: exists w :: Won(s, w, id) && s.workers[w].scheduled)
    && (forall w <- s.workers :: s.workers[w].scheduled ==> s.workers[w].Delivery().id in s.scheduled)
  }

  ghost predicate Inv(s: World) {
    && s.tables.Paired()
    && (forall w <- s.workers :: Fits(s.tables, s.workers[w]))
    && OneOwner(s.workers)
    && (forall id <- s.tables.raw :: HasWinner(s, id))
    && ScheduledFits(s)
  }

  lemma OwnStepFits(s: World, step: Step)
    requires Inv(s) && Enabled(s, step)
    ensures Next(s, step).tables.Paired() && Fits(Next(s, step).tables, Next(s, step).workers[step.w])
  {
    assert step.w in s.workers ==> Fits(s.tables, s.workers[step.w]);
  }

  lemma OthersUntouched(s: World, step: Step)
    requires Enabled(s, step)
    ensures forall v <- Next(s, step).workers :: v != step.w ==> v in s.workers && Next(s, step).workers[v] == s.workers[v]
  {
  }

  /** A worker that takes the keys of an id meets no other owner of it. */
  lemma NewOwnerDiffers(s: World, step: Step, v: nat)
    requires Inv(s) && Enabled(s, step) && v in s.workers && v != step.w
    requires s.workers[v].Owns() && Next(s, step).workers[step.w].Owns()
    ensures s.workers[v].Delivery().id != Next(s, step).workers[step.w].Delivery().id
  {
    assert Fits(s.tables, s.workers[v]);
  }

  lemma OneOwnerStays(s: World, step: Step)
    requires Inv(s) && Enabled(s, step)
    ensures OneOwner(Next(s, step).workers)
  {
    var s' := Next(s, step);
    OthersUntouched(s, step);
    forall v | v in s.workers && v != step.w && s.workers[v].Owns() && s'.workers[step.w].Owns()
      ensures s.workers[v].Delivery().id != s'.workers[step.w].Delivery().id
    {
      NewOwnerDiffers(s, step, v);
    }
  }

  /** What another worker knows of the tables still holds after a step. */
  lemma OtherStaysFit(s: World, step: Step, v: nat)
    requires Inv(s) && Enabled(s, step) && v in s.workers && v != step.w
    ensures Fits(Next(s, step).tables, s.workers[v])
  {
    assert Fits(s.tables, s.workers[v]);
    if step.Commit? {
      assert Fits(s.tables, s.workers[step.w]);
      assert s.workers[v].Owns() ==> s.workers[v].Delivery().id != s.workers[step.w].Delivery().id;
    }
  }

  lemma StepKeepsFits(s: World, step: Step)
    requires Inv(s) && Enabled(s, step)
    ensures Next(s, step).tables.Paired() && OneOwner(Next(s, step).workers)
    ensures forall w <- Next(s, step).workers :: Fits(Next(s, step).tables, Next(s, step).workers[w])
  {
    var s' := Next(s, step);
    OwnStepFits(s, step);
    OneOwnerStays(s, step);
    OthersUntouched(s, step);
    forall v | v in s'.workers
      ensures Fits(s'.tables, s'.workers[v])
    {
      if v != step.w {
        OtherStaysFit(s, step, v);
      }
    }
  }

  /** A stored answer, once given, stays. */
  lemma WinnersStay(s: World, step: Step, w: nat, id: string)
    requires Enabled(s, step) && Won(s, w, id)
    ensures Won(Next(s, step), w, id) && (s.workers[w].scheduled ==> Next(s, step).workers[w].scheduled)
  {
  }

  lemma StepKeepsWinners(s: World, step: Step)
    requires Inv(s) && Enabled(s, step)
    ensures forall id <- Next(s, step).tables.raw :: HasWinner(Next(s, step), id)
  {
    var s' := Next(s, step);
    forall id | id in s'.tables.raw
      ensures HasWinner(s', id)
    {
      if id in s.tables.raw {
        assert HasWinner(s, id);
        var w :| Won(s, w, id);
        WinnersStay(s, step, w, id);
      } else {
        assert Won(s', step.w, id);
      }
    }
  }

  lemma NotYetScheduled(s: World, w: nat)
    requires Inv(s) && Enabled(s, Schedule(w))
    ensures s.workers[w].Delivery().id !in s.scheduled
  {
    var id := s.workers[w].Delivery().id;
    forall v
      ensures !(Won(s, v, id) && s.workers[v].scheduled)
    {
      assert Won(s, v, id) ==> v == w;
    }
  }

  /** Every scheduled id has a winner that scheduled it. */
  lemma ScheduledHaveWinners(s: World, step: Step)
    requires Inv(s) && Enabled(s, step)
    ensures forall id <- Next(s, step).scheduled :: exists w :: Won(Next(s, step), w, id) && Next(s, step).workers[w].scheduled
  {
    var s' := Next(s, step);
    forall id | id in s'.scheduled
      ensures exists w :: Won(s', w, id) && s'.workers[w].scheduled
    {
      if id in s.scheduled {
        var w :| Won(s, w, id) && s.workers[w].scheduled;
        WinnersStay(s, step, w, id);
        assert Won(s', w, id) && s'.workers[w].scheduled;
      } else {
        assert Won(s', step.w, id) && s'.workers[step.w].scheduled;
      }
    }
  }

  lemma SchedulersAreListed(s: World, step: Step)
    requires Inv(s) && Enabled(s, step)
    ensures var s' := Next(s, step);
            forall w <- s'.workers :: s'.workers[w].scheduled ==> s'.workers[w].Delivery().id in s'.scheduled
  {
    OthersUntouched(s, step);
    assert step.w in s.workers ==> Fits(s.tables, s.workers[step.w]);
  }

  lemma StepKeepsSchedule(s: World, step: Step)
    requires Inv(s) && Enabled(s, step)
    ensures ScheduledFits(Next(s, step))
  {
    ScheduledHaveWinners(s, step);
    SchedulersAreListed(s, step);
    if step.Schedule? {
      NotYetScheduled(s, step.w);
    }
  }

  ghost predicate GoesOn(s: World, step: Step, w: nat) {
    !step.Arrive? && !step.Fail? && step.w == w && Enabled(s, step)
  }

  /**
   * No request is ever stuck: until it is answered it may fail, and it goes on unless it waits for the keys
   * of its id; once answered, exactly a stored event with a pipeline role is still to be scheduled.
   */
  lemma NoRequestIsStuck(s: World, w: nat)
    requires w in s.workers
    ensures var worker := s.workers[w];
            && (Enabled(s, Fail(w)) <==> !worker.pc.Done?)
            && ((exists step :: GoesOn(s, step, w)) <==>
                  if worker.pc.Done?
                  then worker.pc.answer == Stored && !worker.scheduled && StartsPipeline(worker.Delivery())
                  else !(worker.pc.Absent? && worker.Delivery().event.Some? && !KeyIsFree(s, worker.Delivery().id)))
  {
    var worker := s.workers[w];
    var step := match worker.pc
                case Arrived => Verify(w)
                case Verified => Parse(w)
                case Received => Check(w)
                case Absent => Flush(w)
                case Flushed => Commit(w)
                case Beaten => Reread(w)
                case Done(_) => Schedule(w);
    if Enabled(s, step) {
      assert GoesOn(s, step, w);
    }
  }

  ghost predicate Takes(worlds: seq<World>, steps: seq<Step>, i: nat)
    requires i < |steps| && |worlds| == |steps| + 1
  {
    Enabled(worlds[i], steps[i]) && worlds[i + 1] == Next(worlds[i], steps[i])
  }

  ghost predicate IsRun(worlds: seq<World>, steps: seq<Step>) {
    && |worlds| == |steps| + 1
    && worlds[0] == World(Tables(map[], map[]), map[], [])
    && forall i {:trigger Takes(worlds, steps, i)} :: 0 <= i < |steps| ==> Takes(worlds, steps, i)
  }

  lemma {:induction false} RunsKeepInv(worlds: seq<World>, steps: seq<Step>, i: nat)
    requires IsRun(worlds, steps) && i <= |steps|
    ensures Inv(worlds[i])
  {
    if i > 0 {
      RunsKeepInv(worlds, steps, i - 1);
      assert Takes(worlds, steps, i - 1);
      StepKeepsFits(worlds[i - 1], steps[i - 1]);
      StepKeepsWinners(worlds[i - 1], steps[i - 1]);
      StepKeepsSchedule(worlds[i - 1], steps[i - 1]);
    }
  }

  /**
   * The answer a request must get unless an outside error ended it: by its signature and body, then by the
   * hash that holds its id.
   */
  predicate AnswersRightly(s: World, w: nat)
    requires w in s.workers
  {
    var worker := s.workers[w];
    var r, d := worker.request, worker.Delivery();
    worker.pc.Done? && !worker.failed ==>
      var answer := worker.pc.answer;
      && answer != PersistenceFailed
      && (answer == BadSignature <==> !r.verified)
      && (answer == Malformed <==> r.verified && r.body.NotJson?)
      && (answer == Ignored <==> r.verified && r.body.NotSupported?)
      && (answer == Invalid <==> r.verified && r.body.BadSchema?)
      && (answer == NotNormalizable ==> d.event.None?)
      && (answer == Stored ==> d.id in s.tables.raw && s.tables.raw[d.id] == d.hash)
      && (answer == Duplicate ==> d.id in s.tables.raw && s.tables.raw[d.id] == d.hash)
      && (answer == Conflict ==> d.id in s.tables.raw && s.tables.raw[d.id] != d.hash)
      && (r.Accepted() && d.event.None? && d.id !in s.tables.raw ==> answer == NotNormalizable)
  }

  /** The row of the id was stored by this worker, from a verified and parsed request. */
  predicate StoredBy(s: World, w: nat, id: string) {
    && Won(s, w, id) && s.workers[w].request.verified && s.workers[w].request.body.Parsed?
    && id in s.tables.raw && s.tables.raw[id] == s.workers[w].Delivery().hash
    && id in s.tables.events && s.workers[w].Delivery().event == Some(s.tables.events[id])
  }

  /**
   * Over every interleaving: raw records and events hold the same ids; a stored id was stored by exactly
   * one request, which was verified and parsed, and its rows are that request's; every other request that
   * ended is rejected for its signature or its body exactly when they call for it, or answers DUPLICATE on
   * an equal hash and conflict on a different one; a delivery that lost the insert always finds the winner;
   * and the pipeline is scheduled at most once per id, for a stored event that has a pipeline role.
   */
  lemma DeliverySafety(worlds: seq<World>, steps: seq<Step>, i: nat)
    requires IsRun(worlds, steps) && i <= |steps|
    ensures var s := worlds[i];
            && s.tables.Paired()
            && (forall id <- s.tables.raw :: exists w :: StoredBy(s, w, id))
            && (forall v, w, id :: Won(s, v, id) && Won(s, w, id) ==> v == w)
            && (forall w <- s.workers :: AnswersRightly(s, w))
            && (forall w <- s.workers :: s.workers[w].pc == Beaten ==> s.workers[w].Delivery().id in s.tables.raw)
            && (forall j, k :: 0 <= j < k < |s.scheduled| ==> s.scheduled[j] != s.scheduled[k])
            && (forall id <- s.scheduled :: exists w :: StoredBy(s, w, id) && StartsPipeline(s.workers[w].Delivery()))
  {
    RunsKeepInv(worlds, steps, i);
    var s := worlds[i];
    forall id | id in s.tables.raw
      ensures exists w :: StoredBy(s, w, id)
    {
      assert HasWinner(s, id);
      var w :| Won(s, w, id);
      WinnerStored(s, w, id);
    }
    forall id | id in s.scheduled
      ensures exists w :: StoredBy(s, w, id) && StartsPipeline(s.workers[w].Delivery())
    {
      var w :| Won(s, w, id) && s.workers[w].scheduled;
      WinnerStored(s, w, id);
    }
    forall w | w in s.workers
      ensures AnswersRightly(s, w)
      ensures s.workers[w].pc == Beaten ==> s.workers[w].Delivery().id in s.tables.raw
    {
      assert Fits(s.tables, s.workers[w]);
    }
  }

  lemma WinnerStored(s: World, w: nat, id: string)
    requires Inv(s) && Won(s, w, id)
    ensures StoredBy(s, w, id) && (s.workers[w].scheduled ==> StartsPipeline(s.workers[w].Delivery()))
  {
    assert Fits(s.tables, s.workers[w]);
  }

  /** The deliveries whose inserts committed, in the order of their commits. */
  ghost function Winners(worlds: seq<World>, steps: seq<Step>): seq<Delivery>
    requires |worlds| == |steps| + 1
  {
    if steps == [] then []
    else
      var n := |steps| - 1;
      Winners(worlds[..n + 1], steps[..n])
      + (if steps[n].Commit? && steps[n].w in worlds[n].workers then [worlds[n].workers[steps[n].w].Delivery()] else [])
  }

  /** The tables are those of the winning deliveries saved one after the other. */
  lemma {:induction false} TablesAreWinners(worlds: seq<World>, steps: seq<Step>)
    requires IsRun(worlds, steps)
    ensures worlds[|steps|].tables == SavedAll(Tables(map[], map[]), Winners(worlds, steps))
  {
    if steps != [] {
      var n := |steps| - 1;
      var before, all := worlds[..n + 1], Winners(worlds, steps);
      var earlier := Winners(before, steps[..n]);
      assert Takes(worlds, steps, n);
      forall i | 0 <= i < n
        ensures Takes(before, steps[..n], i)
      {
        assert Takes(worlds, steps, i);
      }
      TablesAreWinners(before, steps[..n]);
      if steps[n].Commit? {
        assert all == earlier + [worlds[n].workers[steps[n].w].Delivery()];
        assert all[..|all| - 1] == earlier;
      } else {
        assert all == earlier;
      }
    }
  }
}

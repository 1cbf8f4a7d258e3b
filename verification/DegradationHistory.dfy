/** Stage 3 over whole runs: the episode table as a materialised view and the history as a time-travel index. */
module DegradationHistory {
  import opened Common
  import opened Degradation
  import opened TimelineMeaning
  import opened DegradationLedger

  /** One call of process_snapshots. */
  datatype Call = Call(snapshots: seq<Snapshot>, at: int)

  ghost predicate ValidCall(c: Call) {
    c.snapshots != [] ==> OneSegment(c.snapshots, c.snapshots[0].segment)
  }

  predicate Concerns(c: Call, segment: Segment) {
    c.snapshots != [] && c.snapshots[0].segment == segment
  }

  /** The i-th call is reconciliation run i. */
  ghost predicate Ran(calls: seq<Call>, dbs: seq<Db>, i: nat)
    requires i < |calls| < |dbs|
  {
    ValidCall(calls[i]) && Processed(dbs[i], calls[i].snapshots, calls[i].at, i, dbs[i + 1])
  }

  /** The databases before, between and after the calls. */
  ghost predicate IsRun(calls: seq<Call>, dbs: seq<Db>) {
    && |dbs| == |calls| + 1
    && dbs[0] == Db([], map[], [])
    && (forall i {:trigger Ran(calls, dbs, i)} :: 0 <= i < |calls| ==> Ran(calls, dbs, i))
  }

  // ---------------------------------------------------------------------------
  // The last snapshot given for each window
  // ---------------------------------------------------------------------------

  function Give(given: map<int, Snapshot>, snapshots: seq<Snapshot>): map<int, Snapshot>
    decreases |snapshots|
  {
    if snapshots == [] then given else Give(given[snapshots[0].window := snapshots[0]], snapshots[1..])
  }

  function Given(calls: seq<Call>, segment: Segment): map<int, Snapshot> {
    if calls == [] then map[]
    else
      var n := |calls| - 1;
      var before := Given(calls[..n], segment);
      if Concerns(calls[n], segment) then Give(before, calls[n].snapshots) else before
  }

  /** The readings of the given snapshots, one per window, in chronological order. */
  ghost predicate Lists(readings: seq<Reading>, given: map<int, Snapshot>)
    requires forall w <- given :: given[w].Valid()
  {
    && Increasing(readings)
    && (forall r <- readings :: r.window in given && r == Evaluate(given[r.window]))
    && (forall w <- given :: exists r <- readings :: r.window == w)
  }

  lemma SharedPrefix(a: seq<Reading>, b: seq<Reading>, i: nat, j: nat)
    requires Increasing(a) && Increasing(b) && i <= |b| && i < |a| && a[..i] == b[..i]
    requires j < |b| && b[j].window == a[i].window
    ensures i <= j
  {
    forall k | 0 <= k < i
      ensures b[k].window < a[i].window
    {
      assert b[k] == b[..i][k] == a[..i][k] == a[k];
    }
  }

  lemma NotAfter(a: seq<Reading>, b: seq<Reading>, given: map<int, Snapshot>, i: nat)
    requires forall w <- given :: given[w].Valid()
    requires Lists(a, given) && Lists(b, given)
    requires i <= |b| && i < |a| && a[..i] == b[..i]
    ensures i < |b| && b[i].window <= a[i].window
  {
    assert a[i] in a;
    var r :| r in b && r.window == a[i].window;
    var j :| 0 <= j < |b| && b[j] == r;
    SharedPrefix(a, b, i, j);
  }

  lemma {:induction false} SamePrefix(a: seq<Reading>, b: seq<Reading>, given: map<int, Snapshot>, i: nat)
    requires forall w <- given :: given[w].Valid()
    requires Lists(a, given) && Lists(b, given) && i <= |a|
    ensures i <= |b| && a[..i] == b[..i]
  {
    if i > 0 {
      SamePrefix(a, b, given, i - 1);
      NotAfter(a, b, given, i - 1);
      NotAfter(b, a, given, i - 1);
      assert a[i - 1] in a && b[i - 1] in b;
      assert a[..i] == a[..i - 1] + [a[i - 1]];
      assert b[..i] == b[..i - 1] + [b[i - 1]];
    }
  }

  lemma SameListing(a: seq<Reading>, b: seq<Reading>, given: map<int, Snapshot>)
    requires forall w <- given :: given[w].Valid()
    requires Lists(a, given) && Lists(b, given)
    ensures a == b
  {
    SamePrefix(a, b, given, |a|);
    SamePrefix(b, a, given, |b|);
    assert a[..|a|] == a && b[..|b|] == b;
  }

  lemma {:induction false} GiveKeepsValid(given: map<int, Snapshot>, snapshots: seq<Snapshot>)
    requires forall w <- given :: given[w].Valid() && given[w].window == w
    requires forall s <- snapshots :: s.Valid()
    ensures forall w <- Give(given, snapshots) :: Give(given, snapshots)[w].Valid() && Give(given, snapshots)[w].window == w
    decreases |snapshots|
  {
    if snapshots != [] {
      GiveKeepsValid(given[snapshots[0].window := snapshots[0]], snapshots[1..]);
    }
  }

  lemma {:induction false} GivenIsValid(calls: seq<Call>, segment: Segment)
    requires forall c <- calls :: ValidCall(c)
    ensures forall w <- Given(calls, segment) :: Given(calls, segment)[w].Valid() && Given(calls, segment)[w].window == w
  {
    if calls != [] {
      var n := |calls| - 1;
      GivenIsValid(calls[..n], segment);
      assert calls[n] in calls;
      if Concerns(calls[n], segment) {
        GiveKeepsValid(Given(calls[..n], segment), calls[n].snapshots);
      }
    }
  }

  lemma {:induction false} GiveAppend(given: map<int, Snapshot>, snapshots: seq<Snapshot>, s: Snapshot)
    ensures Give(given, snapshots + [s]) == Give(given, snapshots)[s.window := s]
    decreases |snapshots|
  {
    if snapshots != [] {
      GiveAppend(given[snapshots[0].window := snapshots[0]], snapshots[1..], s);
      assert (snapshots + [s])[1..] == snapshots[1..] + [s];
    }
  }

  /** The stable sort changes neither which snapshots are given nor which one of a window is last. */
  lemma {:induction false} SortGivesTheSame(given: map<int, Snapshot>, snapshots: seq<Snapshot>)
    ensures Give(given, SortByWindow(snapshots)) == Give(given, snapshots)
    decreases |snapshots|
  {
    if snapshots != [] {
      InsertGivesTheSame(given, snapshots[0], SortByWindow(snapshots[1..]));
      SortGivesTheSame(given[snapshots[0].window := snapshots[0]], snapshots[1..]);
    }
  }

  lemma {:induction false} InsertGivesTheSame(given: map<int, Snapshot>, s: Snapshot, sorted: seq<Snapshot>)
    ensures Give(given, InsertFirst(s, sorted)) == Give(given[s.window := s], sorted)
    decreases |sorted|
  {
    if sorted == [] || s.window <= sorted[0].window {
      assert ([s] + sorted)[1..] == sorted;
    } else {
      var given' := given[sorted[0].window := sorted[0]];
      InsertGivesTheSame(given', s, sorted[1..]);
      assert InsertFirst(s, sorted)[1..] == InsertFirst(s, sorted[1..]);
      assert given'[s.window := s] == given[s.window := s][sorted[0].window := sorted[0]];
    }
  }

  // ---------------------------------------------------------------------------
  // The latest signals list the last snapshots given
  // ---------------------------------------------------------------------------

  ghost predicate ListsLatest(signals: seq<Signal>, segment: Segment, given: map<int, Snapshot>) {
    && (forall w <- given :: given[w].Valid() && given[w].window == w)
    && Lists(Readings(Latest(signals, segment)), given)
  }

  /** A row of the highest version replaces the row of its window and leaves the others. */
  lemma {:induction false} KeepNewest(list: seq<Signal>, s: Signal)
    requires Chronological(list)
    requires forall x <- list :: x.reading.window == s.reading.window ==> x.version < s.version
    ensures s in Keep(list, s)
    ensures forall x <- Keep(list, s) :: x == s || (x in list && x.reading.window != s.reading.window)
    ensures forall x <- list :: x in Keep(list, s) || x.reading.window == s.reading.window
  {
    if list == [] || s.reading.window < list[0].reading.window {
    } else {
      var tail := list[1..];
      assert list == [list[0]] + tail && list[0] in list;
      assert forall i :: 0 <= i < |tail| ==> tail[i] == list[i + 1];
      if s.reading.window == list[0].reading.window {
        assert forall x <- tail :: x.reading.window > s.reading.window;
      } else {
        KeepNewest(tail, s);
      }
    }
  }

  lemma AppendedListing(signals: seq<Signal>, segment: Segment, given: map<int, Snapshot>, s: Snapshot, at: int)
    requires ListsLatest(signals, segment, given) && s.Valid() && s.segment == segment
    ensures ListsLatest(signals + [NextSignal(signals, s, at)], segment, given[s.window := s])
  {
    var signal := NextSignal(signals, s, at);
    var list := Latest(signals, segment);
    var list' := Keep(list, signal);
    LatestMeaning(signals, segment);
    KeepNewest(list, signal);
    KeepMeaning(list, signal);
    assert (signals + [signal])[..|signals|] == signals;
    assert Latest(signals + [signal], segment) == list';
    ListingOf(list, given, list', signal, s);
  }

  lemma ListingOf(
    list: seq<Signal>, given: map<int, Snapshot>, list': seq<Signal>, signal: Signal, s: Snapshot)
    requires forall w <- given :: given[w].Valid() && given[w].window == w
    requires Lists(Readings(list), given) && s.Valid() && signal.reading == Evaluate(s)
    requires Chronological(list') && signal in list'
    requires forall x <- list' :: x == signal || (x in list && x.reading.window != s.window)
    requires forall x <- list :: x in list' || x.reading.window == s.window
    ensures Lists(Readings(list'), given[s.window := s])
  {
    var given' := given[s.window := s];
    forall i | 0 <= i < |list'|
      ensures list'[i].reading.window in given' && list'[i].reading == Evaluate(given'[list'[i].reading.window])
    {
      var x := list'[i];
      assert x in list';
      if x != signal {
        var j :| 0 <= j < |list| && list[j] == x;
        assert Readings(list)[j] in Readings(list);
      }
    }
    forall w | w in given'
      ensures exists r <- Readings(list') :: r.window == w
    {
      if w == s.window {
        var j :| 0 <= j < |list'| && list'[j] == signal;
        assert Readings(list')[j] in Readings(list');
      } else {
        var r :| r in Readings(list) && r.window == w;
        var i :| 0 <= i < |list| && Readings(list)[i] == r;
        assert list[i] in list';
        var j :| 0 <= j < |list'| && list'[j] == list[i];
        assert Readings(list')[j] in Readings(list');
      }
    }
  }

  lemma {:induction false} AppendedListings(
    signals: seq<Signal>, segment: Segment, given: map<int, Snapshot>, snapshots: seq<Snapshot>, at: int)
    requires ListsLatest(signals, segment, given) && OneSegment(snapshots, segment)
    ensures ListsLatest(AppendSignals(signals, snapshots, at), segment, Give(given, snapshots))
  {
    if snapshots != [] {
      var n := |snapshots| - 1;
      AppendedListings(signals, segment, given, snapshots[..n], at);
      assert snapshots == snapshots[..n] + [snapshots[n]] && snapshots[n] in snapshots;
      GiveAppend(given, snapshots[..n], snapshots[n]);
      AppendedListing(AppendSignals(signals, snapshots[..n], at), segment, Give(given, snapshots[..n]), snapshots[n], at);
    }
  }

  lemma {:induction false} OtherSegmentUntouched(
    signals: seq<Signal>, segment: Segment, other: Segment, snapshots: seq<Snapshot>, at: int)
    requires OneSegment(snapshots, other) && other != segment
    ensures Latest(AppendSignals(signals, snapshots, at), segment) == Latest(signals, segment)
  {
    if snapshots != [] {
      var n := |snapshots| - 1;
      OtherSegmentUntouched(signals, segment, other, snapshots[..n], at);
      assert snapshots[n] in snapshots;
      var before := AppendSignals(signals, snapshots[..n], at);
      assert AppendSignals(signals, snapshots, at)[..|before|] == before;
    }
  }

  lemma {:induction false} LatestListsGiven(calls: seq<Call>, dbs: seq<Db>, segment: Segment)
    requires IsRun(calls, dbs)
    ensures ListsLatest(dbs[|calls|].signals, segment, Given(calls, segment))
  {
    if calls != [] {
      var n := |calls| - 1;
      var c := calls[n];
      assert Ran(calls, dbs, n);
      PrefixIsRun(calls, dbs, n);
      LatestListsGiven(calls[..n], dbs[..n + 1], segment);
      if c.snapshots != [] {
        SortKeeps(c.snapshots);
        if Concerns(c, segment) {
          AppendedListings(dbs[n].signals, segment, Given(calls[..n], segment), SortByWindow(c.snapshots), c.at);
          SortGivesTheSame(Given(calls[..n], segment), c.snapshots);
        } else {
          OtherSegmentUntouched(dbs[n].signals, segment, c.snapshots[0].segment, SortByWindow(c.snapshots), c.at);
        }
      }
    }
  }

  lemma PrefixIsRun(calls: seq<Call>, dbs: seq<Db>, n: nat)
    requires IsRun(calls, dbs) && n <= |calls|
    ensures IsRun(calls[..n], dbs[..n + 1])
  {
    var calls', dbs' := calls[..n], dbs[..n + 1];
    forall i | 0 <= i < n
      ensures Ran(calls', dbs', i)
    {
      assert Ran(calls, dbs, i);
      assert calls'[i] == calls[i] && dbs'[i] == dbs[i] && dbs'[i + 1] == dbs[i + 1];
    }
  }

  // ---------------------------------------------------------------------------
  // The episode table is a materialised view
  // ---------------------------------------------------------------------------

  /** The stored episodes of a segment that are not invalidated. */
  ghost function Live(db: Db, segment: Segment): set<Episode> {
    set id <- db.episodes | id.segment == segment && db.episodes[id].status != Invalidated :: db.episodes[id]
  }

  ghost function Elements(episodes: seq<Episode>): set<Episode> {
    set e <- episodes
  }

  /** The timeline recomputed from the stored signals. */
  ghost function Rebuilt(db: Db, segment: Segment): seq<Episode> {
    Timeline(segment, Readings(Latest(db.signals, segment)))
  }

  lemma RebuiltOrdered(db: Db, segment: Segment)
    ensures Ordered(segment, Rebuilt(db, segment))
  {
    LatestMeaning(db.signals, segment);
    TimelineOrdered(segment, Readings(Latest(db.signals, segment)));
  }

  lemma {:induction false} ByIdFinds(episodes: seq<Episode>, k: nat)
    requires forall i, j :: 0 <= i < j < |episodes| ==> episodes[i].id != episodes[j].id
    requires k < |episodes|
    ensures episodes[k].id in ById(episodes) && ById(episodes)[episodes[k].id] == episodes[k]
  {
    var n := |episodes| - 1;
    if k < n {
      ByIdFinds(episodes[..n], k);
    }
  }

  lemma OrderedIdsDiffer(segment: Segment, episodes: seq<Episode>)
    requires Ordered(segment, episodes)
    ensures forall i, j :: 0 <= i < j < |episodes| ==> episodes[i].id != episodes[j].id
  {
    forall i, j | 0 <= i < j < |episodes|
      ensures episodes[i].id != episodes[j].id
    {
      assert episodes[i].id.startedAt < episodes[i].endedAt.value < episodes[j].id.startedAt;
    }
  }

  lemma ValidIsStored(before: Db, segment: Segment, valid: seq<Episode>, after: Db, e: Episode)
    requires Ordered(segment, valid) && after.episodes == Reconcile(before.episodes, segment, valid) && e in valid
    ensures e.id in after.episodes && after.episodes[e.id] == e && e.id.segment == segment && e.status != Invalidated
  {
    OrderedIdsDiffer(segment, valid);
    var k :| 0 <= k < |valid| && valid[k] == e;
    ByIdFinds(valid, k);
  }

  lemma ReconciledIsLive(before: Db, segment: Segment, valid: seq<Episode>, after: Db)
    requires Ordered(segment, valid) && after.episodes == Reconcile(before.episodes, segment, valid)
    ensures Live(after, segment) == Elements(valid)
  {
    ByIdMeaning(valid);
    forall e | e in valid
      ensures e in Live(after, segment)
    {
      ValidIsStored(before, segment, valid, after, e);
    }
    forall id | id in after.episodes && id.segment == segment && after.episodes[id].status != Invalidated
      ensures after.episodes[id] in valid
    {
      assert id in ById(valid);
    }
  }

  lemma OtherIdStays(before: Db, segment: Segment, valid: seq<Episode>, after: Db, id: EpisodeId)
    requires Ordered(segment, valid) && after.episodes == Reconcile(before.episodes, segment, valid)
    requires id.segment != segment
    ensures id in after.episodes <==> id in before.episodes
    ensures id in before.episodes ==> after.episodes[id] == before.episodes[id]
  {
    ByIdMeaning(valid);
    assert forall e <- valid :: e.id.segment == segment;
  }

  lemma OthersStayLive(before: Db, segment: Segment, valid: seq<Episode>, after: Db, other: Segment)
    requires Ordered(segment, valid) && after.episodes == Reconcile(before.episodes, segment, valid)
    requires other != segment
    ensures Live(after, other) == Live(before, other)
  {
    forall id: EpisodeId | id.segment == other
      ensures id in after.episodes <==> id in before.episodes
      ensures id in before.episodes ==> after.episodes[id] == before.episodes[id]
    {
      OtherIdStays(before, segment, valid, after, id);
    }
  }

  lemma {:induction false} LiveIsRebuilt(calls: seq<Call>, dbs: seq<Db>, segment: Segment)
    requires IsRun(calls, dbs)
    ensures Live(dbs[|calls|], segment) == Elements(Rebuilt(dbs[|calls|], segment))
  {
    if calls != [] {
      var n := |calls| - 1;
      assert Ran(calls, dbs, n);
      PrefixIsRun(calls, dbs, n);
      LiveIsRebuilt(calls[..n], dbs[..n + 1], segment);
      StepKeepsView(calls[n], dbs[n], n, dbs[n + 1], segment);
    }
  }

  lemma StepKeepsView(c: Call, before: Db, run: nat, after: Db, segment: Segment)
    requires ValidCall(c) && Processed(before, c.snapshots, c.at, run, after)
    requires Live(before, segment) == Elements(Rebuilt(before, segment))
    ensures Live(after, segment) == Elements(Rebuilt(after, segment))
    ensures !Concerns(c, segment) ==> Rebuilt(after, segment) == Rebuilt(before, segment)
  {
    if c.snapshots != [] {
      var own := c.snapshots[0].segment;
      SortKeeps(c.snapshots);
      RebuiltOrdered(after, own);
      if own == segment {
        ReconciledIsLive(before, own, Rebuilt(after, own), after);
      } else {
        OthersStayLive(before, own, Rebuilt(after, own), after, segment);
        OtherSegmentUntouched(before.signals, segment, own, SortByWindow(c.snapshots), c.at);
      }
    }
  }

  /**
   * After any calls, the stored episodes that are not invalidated are exactly the timeline of the last
   * snapshot given for each window.
   */
  lemma MaterialisedView(calls: seq<Call>, dbs: seq<Db>, segment: Segment) returns (readings: seq<Reading>)
    requires IsRun(calls, dbs)
    ensures forall w <- Given(calls, segment) :: Given(calls, segment)[w].Valid()
    ensures Lists(readings, Given(calls, segment))
    ensures Rebuilt(dbs[|calls|], segment) == Timeline(segment, readings)
    ensures Live(dbs[|calls|], segment) == Elements(Timeline(segment, readings))
  {
    LatestListsGiven(calls, dbs, segment);
    LiveIsRebuilt(calls, dbs, segment);
    readings := Readings(Latest(dbs[|calls|].signals, segment));
  }

  /** Batching, replay and correction order do not matter, only what was given last for each window. */
  lemma Convergence(calls: seq<Call>, dbs: seq<Db>, calls': seq<Call>, dbs': seq<Db>, segment: Segment)
    requires IsRun(calls, dbs) && IsRun(calls', dbs')
    requires Given(calls, segment) == Given(calls', segment)
    ensures Live(dbs[|calls|], segment) == Live(dbs'[|calls'|], segment)
    ensures Rebuilt(dbs[|calls|], segment) == Rebuilt(dbs'[|calls'|], segment)
  {
    var a := MaterialisedView(calls, dbs, segment);
    var b := MaterialisedView(calls', dbs', segment);
    SameListing(a, b, Given(calls, segment));
  }

  /** Every stored episode is stored under its own id. */
  ghost predicate Keyed(db: Db) {
    forall id <- db.episodes :: db.episodes[id].id == id
  }

  lemma ReconciledIsKeyed(episodes: map<EpisodeId, Episode>, segment: Segment, valid: seq<Episode>)
    requires forall id <- episodes :: episodes[id].id == id
    ensures forall id <- Reconcile(episodes, segment, valid) :: Reconcile(episodes, segment, valid)[id].id == id
  {
    ByIdMeaning(valid);
  }

  lemma {:induction false} RunsAreKeyed(calls: seq<Call>, dbs: seq<Db>)
    requires IsRun(calls, dbs)
    ensures Keyed(dbs[|calls|])
  {
    if calls != [] {
      var n := |calls| - 1;
      assert Ran(calls, dbs, n);
      PrefixIsRun(calls, dbs, n);
      RunsAreKeyed(calls[..n], dbs[..n + 1]);
      if calls[n].snapshots != [] {
        var segment := calls[n].snapshots[0].segment;
        ReconciledIsKeyed(dbs[n].episodes, segment, Rebuilt(dbs[n + 1], segment));
      }
    }
  }

  // ---------------------------------------------------------------------------
  // Time travel
  // ---------------------------------------------------------------------------

  predicate Visible(row: HistoryRow, segment: Segment, t: int) {
    row.id.segment == segment && row.at <= t
  }

  predicate IsActiveOf(row: HistoryRow, segment: Segment, run: nat) {
    row.run == run && row.id.segment == segment && row.status == Active
  }

  /** The first query may take the run of this row. */
  ghost predicate IsNewestRow(history: seq<HistoryRow>, segment: Segment, t: int, newest: HistoryRow) {
    && newest in history && Visible(newest, segment, t)
    && forall row <- history :: Visible(row, segment, t) ==> row.at <= newest.at
  }

  /** The second query may answer this for the run. */
  ghost predicate MayPick(history: seq<HistoryRow>, segment: Segment, run: nat, answer: Option<HistoryRow>) {
    match answer
    case Some(row) => row in history && IsActiveOf(row, segment, run)
    case None => forall row <- history :: !IsActiveOf(row, segment, run)
  }

  /**
   * The two-step query: the run of a visible row with the greatest timestamp, then an ACTIVE row of that
   * run. Where the query leaves the choice open, any choice is allowed here.
   */
  ghost predicate Answers(history: seq<HistoryRow>, segment: Segment, t: int, answer: Option<HistoryRow>) {
    if forall row <- history :: !Visible(row, segment, t) then answer == None
    else
      exists newest {:trigger IsNewestRow(history, segment, t, newest)} ::
        IsNewestRow(history, segment, t, newest) && MayPick(history, segment, newest.run, answer)
  }

  class FeatureReconstructionRepository {
    var history: seq<HistoryRow>

    constructor (history: seq<HistoryRow>)
      ensures this.history == history
    {
      this.history := history;
    }

    method GetActiveEpisodeContext(segment: Segment, t: int) returns (answer: Option<HistoryRow>)
      ensures Answers(history, segment, t, answer)
    {
      var newest: Option<HistoryRow> := None;
      for i := 0 to |history|
        invariant newest.None? <==> forall j :: 0 <= j < i ==> !Visible(history[j], segment, t)
        invariant newest.Some? ==> newest.value in history && Visible(newest.value, segment, t)
        invariant newest.Some? ==>
                    forall j :: 0 <= j < i && Visible(history[j], segment, t) ==> history[j].at <= newest.value.at
      {
        if Visible(history[i], segment, t) && (newest.None? || history[i].at > newest.value.at) {
          newest := Some(history[i]);
        }
      }
      answer := None;
      if newest.None? {
        return;
      }
      assert IsNewestRow(history, segment, t, newest.value);
      for i := 0 to |history|
        invariant forall j :: 0 <= j < i ==> !IsActiveOf(history[j], segment, newest.value.run)
      {
        if IsActiveOf(history[i], segment, newest.value.run) {
          return Some(history[i]);
        }
      }
    }
  }

  /** Rows of other segments, and rows stamped after t by other runs, never change an answer for t. */
  lemma LaterRowsKeepAnswers(
    history: seq<HistoryRow>, more: seq<HistoryRow>, segment: Segment, t: int, answer: Option<HistoryRow>)
    requires forall row <- more :: row.id.segment == segment ==>
               row.at > t && forall earlier <- history :: earlier.run != row.run
    ensures Answers(history + more, segment, t, answer) <==> Answers(history, segment, t, answer)
  {
    var all := history + more;
    assert forall row <- history :: row in all;
    assert forall row <- all :: row in history || row in more;
    assert forall row <- all :: Visible(row, segment, t) ==> row in history;
    forall newest | newest in history && newest.id.segment == segment
      ensures IsNewestRow(all, segment, t, newest) <==> IsNewestRow(history, segment, t, newest)
      ensures MayPick(all, segment, newest.run, answer) <==> MayPick(history, segment, newest.run, answer)
    {
      assert forall row <- all :: IsActiveOf(row, segment, newest.run) ==> row in history;
    }
  }

  /** The history row of the ACTIVE episode of a timeline; only its last episode can be one. */
  function ActiveRow(run: nat, at: int, timeline: seq<Episode>): Option<HistoryRow> {
    if timeline != [] && timeline[|timeline| - 1].status == Active
    then Some(RowOf(run, at, timeline[|timeline| - 1])) else None
  }

  /** The last run of the segment that is not after t. */
  function RunAt(calls: seq<Call>, segment: Segment, t: int): (r: Option<nat>)
    ensures r.Some? ==> r.value < |calls| && Concerns(calls[r.value], segment) && calls[r.value].at <= t
    ensures forall i :: (if r.Some? then r.value + 1 else 0) <= i < |calls| ==>
              !(Concerns(calls[i], segment) && calls[i].at <= t)
  {
    if calls == [] then None
    else
      var n := |calls| - 1;
      if Concerns(calls[n], segment) && calls[n].at <= t then Some(n) else RunAt(calls[..n], segment, t)
  }

  /** What was active at t: the ACTIVE episode of the timeline that run rebuilt. */
  ghost function ActiveAt(calls: seq<Call>, dbs: seq<Db>, segment: Segment, t: int): Option<HistoryRow>
    requires |dbs| == |calls| + 1
  {
    match RunAt(calls, segment, t)
    case None => None
    case Some(i) => ActiveRow(i, calls[i].at, Rebuilt(dbs[i + 1], segment))
  }

  ghost predicate StrictlyLater(calls: seq<Call>, segment: Segment) {
    forall i, j :: 0 <= i < j < |calls| && Concerns(calls[i], segment) && Concerns(calls[j], segment) ==>
                     calls[i].at < calls[j].at
  }

  /** Every row of the segment carries the number and the timestamp of the call that wrote it. */
  ghost predicate Stamped(calls: seq<Call>, history: seq<HistoryRow>) {
    forall row <- history ::
      row.run < |calls| && Concerns(calls[row.run], row.id.segment) && row.at == calls[row.run].at
  }

  /** The rows one call appends. */
  ghost predicate Appended(more: seq<HistoryRow>, run: nat, at: int, segment: Segment, timeline: seq<Episode>) {
    && (forall row <- more :: row.run == run && row.at == at && row.id.segment == segment)
    && (forall row <- more :: row.status == Active ==> Some(row) == ActiveRow(run, at, timeline))
    && (ActiveRow(run, at, timeline).Some? ==> ActiveRow(run, at, timeline).value in more)
  }

  lemma RowsAppend(
    episodes: map<EpisodeId, Episode>, stale: set<EpisodeId>, segment: Segment, valid: seq<Episode>, run: nat,
    at: int, staleRows: seq<HistoryRow>)
    requires Ordered(segment, valid) && StaleRows(episodes, stale, run, at, staleRows)
    requires forall id <- stale :: id.segment == segment
    ensures Appended(staleRows + RowsOf(run, at, valid), run, at, segment, valid)
  {
    var validRows := RowsOf(run, at, valid);
    assert forall row <- staleRows + validRows :: row in staleRows || row in validRows;
    assert valid != [] ==> validRows[|valid| - 1] in staleRows + validRows;
  }

  lemma AssertedSplits(
    episodes: map<EpisodeId, Episode>, before: seq<HistoryRow>, after: seq<HistoryRow>, segment: Segment,
    valid: seq<Episode>, run: nat, at: int) returns (staleRows: seq<HistoryRow>)
    requires Asserted(episodes, before, after, segment, valid, run, at)
    ensures after == before + (staleRows + RowsOf(run, at, valid))
    ensures StaleRows(episodes, Stale(episodes, segment, valid), run, at, staleRows)
    ensures |staleRows| == |Stale(episodes, segment, valid)|
  {
    var h, n := |before|, |Stale(episodes, segment, valid)|;
    staleRows := after[h..h + n];
    assert after == after[..h] + staleRows + after[h + n..];
  }

  lemma AssertedAppends(
    episodes: map<EpisodeId, Episode>, before: seq<HistoryRow>, after: seq<HistoryRow>, segment: Segment,
    valid: seq<Episode>, run: nat, at: int) returns (more: seq<HistoryRow>)
    requires Ordered(segment, valid) && Asserted(episodes, before, after, segment, valid, run, at)
    ensures after == before + more && Appended(more, run, at, segment, valid)
    ensures more == [] ==> Stale(episodes, segment, valid) == {} && valid == []
  {
    var stale := Stale(episodes, segment, valid);
    var staleRows := AssertedSplits(episodes, before, after, segment, valid, run, at);
    RowsAppend(episodes, stale, segment, valid, run, at, staleRows);
    more := staleRows + RowsOf(run, at, valid);
  }

  lemma CallAppends(c: Call, before: Db, run: nat, after: Db) returns (more: seq<HistoryRow>)
    requires ValidCall(c) && c.snapshots != [] && Processed(before, c.snapshots, c.at, run, after)
    ensures var segment := c.snapshots[0].segment;
            && after.history == before.history + more
            && Appended(more, run, c.at, segment, Rebuilt(after, segment))
            && (more == [] ==> Live(before, segment) == {} && Rebuilt(after, segment) == [])
  {
    var segment := c.snapshots[0].segment;
    var timeline := Rebuilt(after, segment);
    RebuiltOrdered(after, segment);
    more := AssertedAppends(before.episodes, before.history, after.history, segment, timeline, run, c.at);
    if more == [] {
      assert forall id <- before.episodes :: id !in Stale(before.episodes, segment, timeline);
    }
  }

  /** What the last call of a run does to the history. */
  lemma LastCallAppends(calls: seq<Call>, dbs: seq<Db>) returns (more: seq<HistoryRow>)
    requires IsRun(calls, dbs) && calls != []
    ensures var n := |calls| - 1;
            && IsRun(calls[..n], dbs[..n + 1])
            && dbs[n + 1].history == dbs[n].history + more
            && (calls[n].snapshots == [] ==> more == [])
            && (calls[n].snapshots != [] ==>
                  var segment := calls[n].snapshots[0].segment;
                  && Appended(more, n, calls[n].at, segment, Rebuilt(dbs[n + 1], segment))
                  && (more == [] ==> Live(dbs[n], segment) == {} && Rebuilt(dbs[n + 1], segment) == []))
  {
    var n := |calls| - 1;
    PrefixIsRun(calls, dbs, n);
    assert Ran(calls, dbs, n);
    if calls[n].snapshots == [] {
      more := [];
    } else {
      more := CallAppends(calls[n], dbs[n], n, dbs[n + 1]);
    }
  }

  lemma {:induction false} HistoryStamped(calls: seq<Call>, dbs: seq<Db>)
    requires IsRun(calls, dbs)
    ensures Stamped(calls, dbs[|calls|].history)
  {
    if calls != [] {
      var more := LastCallAppends(calls, dbs);
      HistoryStamped(calls[..|calls| - 1], dbs[..|calls|]);
    }
  }

  lemma {:induction false} RebuiltSince(calls: seq<Call>, dbs: seq<Db>, segment: Segment, i: nat)
    requires IsRun(calls, dbs) && i <= |calls|
    requires forall j :: i <= j < |calls| ==> !Concerns(calls[j], segment)
    ensures Rebuilt(dbs[i], segment) == Rebuilt(dbs[|calls|], segment)
  {
    if i < |calls| {
      var n := |calls| - 1;
      assert Ran(calls, dbs, n);
      PrefixIsRun(calls, dbs, n);
      RebuiltSince(calls[..n], dbs[..n + 1], segment, i);
      LiveIsRebuilt(calls[..n], dbs[..n + 1], segment);
      StepKeepsView(calls[n], dbs[n], n, dbs[n + 1], segment);
    }
  }

  lemma NoElements(timeline: seq<Episode>)
    ensures Elements(timeline) == {} <==> timeline == []
  {
    if timeline != [] {
      assert timeline[0] in Elements(timeline);
    }
  }

  lemma LaterCallKeepsAnswers(calls: seq<Call>, dbs: seq<Db>, segment: Segment, t: int, answer: Option<HistoryRow>)
    requires IsRun(calls, dbs) && calls != []
    requires Concerns(calls[|calls| - 1], segment) ==> calls[|calls| - 1].at > t
    ensures Answers(dbs[|calls|].history, segment, t, answer) <==> Answers(dbs[|calls| - 1].history, segment, t, answer)
  {
    var n := |calls| - 1;
    var more := LastCallAppends(calls, dbs);
    HistoryStamped(calls[..n], dbs[..n + 1]);
    LaterRowsKeepAnswers(dbs[n].history, more, segment, t, answer);
  }

  lemma CallKeepsAnswers(calls: seq<Call>, dbs: seq<Db>, segment: Segment, t: int, n: nat, answer: Option<HistoryRow>)
    requires IsRun(calls, dbs) && n < |calls| && (Concerns(calls[n], segment) ==> calls[n].at > t)
    ensures Answers(dbs[n + 1].history, segment, t, answer) <==> Answers(dbs[n].history, segment, t, answer)
  {
    PrefixIsRun(calls, dbs, n + 1);
    LaterCallKeepsAnswers(calls[..n + 1], dbs[..n + 2], segment, t, answer);
  }

  /** Runs evaluated after t never change the answer for t, whatever the order of the timestamps. */
  lemma {:induction false} TimeTravelIsStable(
    calls: seq<Call>, dbs: seq<Db>, segment: Segment, t: int, n: nat, answer: Option<HistoryRow>)
    requires IsRun(calls, dbs) && n <= |calls|
    requires forall i :: n <= i < |calls| && Concerns(calls[i], segment) ==> calls[i].at > t
    ensures Answers(dbs[|calls|].history, segment, t, answer) <==> Answers(dbs[n].history, segment, t, answer)
    decreases |calls| - n
  {
    if n < |calls| {
      CallKeepsAnswers(calls, dbs, segment, t, n, answer);
      TimeTravelIsStable(calls, dbs, segment, t, n + 1, answer);
    }
  }

  // ---------------------------------------------------------------------------
  // Any timestamps
  // ---------------------------------------------------------------------------

  /** What run i left active for the segment. */
  ghost function ActiveAfter(calls: seq<Call>, dbs: seq<Db>, segment: Segment, i: nat): Option<HistoryRow>
    requires i < |calls| < |dbs|
  {
    ActiveRow(i, calls[i].at, Rebuilt(dbs[i + 1], segment))
  }

  /** Run i wrote rows of the segment that the query at t can see. */
  ghost predicate Wrote(calls: seq<Call>, dbs: seq<Db>, segment: Segment, t: int, i: nat)
    requires i < |calls| < |dbs|
  {
    Concerns(calls[i], segment) && calls[i].at <= t && dbs[i + 1].history != dbs[i].history
  }

  /** A visible run that wrote rows and carries the greatest timestamp of such runs. */
  ghost predicate IsNewest(calls: seq<Call>, dbs: seq<Db>, segment: Segment, t: int, i: nat)
    requires i < |calls| < |dbs|
  {
    && Wrote(calls, dbs, segment, t, i)
    && forall j {:trigger Wrote(calls, dbs, segment, t, j)} :: 0 <= j < |calls| && Wrote(calls, dbs, segment, t, j) ==>
                                                                 calls[j].at <= calls[i].at
  }

  /** The rows of one run in the history. */
  ghost predicate HoldsRun(history: seq<HistoryRow>, segment: Segment, i: nat, wrote: bool, active: Option<HistoryRow>) {
    && (wrote <==> exists row <- history :: row.run == i && row.id.segment == segment)
    && (forall row <- history :: IsActiveOf(row, segment, i) <==> Some(row) == active)
    && (active.Some? ==> active.value in history)
  }

  lemma OldRunHolds(
    history: seq<HistoryRow>, more: seq<HistoryRow>, segment: Segment, i: nat, wrote: bool, active: Option<HistoryRow>)
    requires HoldsRun(history, segment, i, wrote, active)
    requires forall row <- more :: row.run != i
    requires active.Some? ==> active.value.run == i
    ensures HoldsRun(history + more, segment, i, wrote, active)
  {
    assert forall row <- history :: row in history + more;
    assert forall row <- history + more :: row in history || row in more;
  }

  lemma NewRunHolds(
    history: seq<HistoryRow>, more: seq<HistoryRow>, segment: Segment, i: nat, at: int, timeline: seq<Episode>)
    requires Appended(more, i, at, segment, timeline) && forall row <- history :: row.run != i
    ensures HoldsRun(history + more, segment, i, more != [], ActiveRow(i, at, timeline))
  {
    assert forall row <- more :: row in history + more;
    assert forall row <- history + more :: row in history || row in more;
    assert more != [] ==> more[0] in history + more;
  }

  lemma {:induction false} RunHolds(calls: seq<Call>, dbs: seq<Db>, segment: Segment, i: nat)
    requires IsRun(calls, dbs) && i < |calls| && Concerns(calls[i], segment)
    ensures HoldsRun(dbs[|calls|].history, segment, i, dbs[i + 1].history != dbs[i].history,
                     ActiveAfter(calls, dbs, segment, i))
  {
    var n := |calls| - 1;
    var more := LastCallAppends(calls, dbs);
    HistoryStamped(calls[..n], dbs[..n + 1]);
    if i < n {
      RunHolds(calls[..n], dbs[..n + 1], segment, i);
      assert ActiveAfter(calls[..n], dbs[..n + 1], segment, i) == ActiveAfter(calls, dbs, segment, i);
      OldRunHolds(dbs[n].history, more, segment, i, dbs[i + 1].history != dbs[i].history,
                  ActiveAfter(calls, dbs, segment, i));
    } else {
      NewRunHolds(dbs[n].history, more, segment, n, calls[n].at, Rebuilt(dbs[n + 1], segment));
      assert more == [] ==> dbs[n].history + more == dbs[n].history;
      assert more != [] ==> |dbs[n + 1].history| > |dbs[n].history|;
    }
  }

  /** The visible rows of the segment are those of the visible runs that wrote some. */
  lemma VisibleRowsAreOfRuns(calls: seq<Call>, dbs: seq<Db>, segment: Segment, t: int)
    requires IsRun(calls, dbs)
    ensures forall row <- dbs[|calls|].history :: Visible(row, segment, t) ==>
              row.run < |calls| && row.at == calls[row.run].at && Wrote(calls, dbs, segment, t, row.run)
    ensures forall i {:trigger Wrote(calls, dbs, segment, t, i)} :: 0 <= i < |calls| && Wrote(calls, dbs, segment, t, i) ==>
              exists row <- dbs[|calls|].history :: row.run == i && Visible(row, segment, t)
  {
    HistoryStamped(calls, dbs);
    var history := dbs[|calls|].history;
    forall row | row in history && Visible(row, segment, t)
      ensures Wrote(calls, dbs, segment, t, row.run)
    {
      RunHolds(calls, dbs, segment, row.run);
    }
    forall i | 0 <= i < |calls| && Wrote(calls, dbs, segment, t, i)
      ensures exists row <- history :: row.run == i && Visible(row, segment, t)
    {
      RunHolds(calls, dbs, segment, i);
      var row :| row in history && row.run == i && row.id.segment == segment;
      assert Visible(row, segment, t);
    }
  }

  lemma AnswerIsNewest(calls: seq<Call>, dbs: seq<Db>, segment: Segment, t: int, answer: Option<HistoryRow>)
    requires IsRun(calls, dbs) && Answers(dbs[|calls|].history, segment, t, answer)
    ensures || (answer == None && forall i :: 0 <= i < |calls| ==> !Wrote(calls, dbs, segment, t, i))
            || (exists i :: 0 <= i < |calls| && IsNewest(calls, dbs, segment, t, i)
                            && answer == ActiveAfter(calls, dbs, segment, i))
  {
    var history := dbs[|calls|].history;
    VisibleRowsAreOfRuns(calls, dbs, segment, t);
    if exists row <- history :: Visible(row, segment, t) {
      var newest :| IsNewestRow(history, segment, t, newest) && MayPick(history, segment, newest.run, answer);
      RunHolds(calls, dbs, segment, newest.run);
      assert IsNewest(calls, dbs, segment, t, newest.run);
    }
  }

  lemma NewestAnswers(calls: seq<Call>, dbs: seq<Db>, segment: Segment, t: int, i: nat)
    requires IsRun(calls, dbs) && i < |calls| && IsNewest(calls, dbs, segment, t, i)
    ensures Answers(dbs[|calls|].history, segment, t, ActiveAfter(calls, dbs, segment, i))
  {
    var history := dbs[|calls|].history;
    VisibleRowsAreOfRuns(calls, dbs, segment, t);
    RunHolds(calls, dbs, segment, i);
    var newest :| newest in history && newest.run == i && Visible(newest, segment, t);
    assert IsNewestRow(history, segment, t, newest);
  }

  /**
   * Whatever the timestamps, the possible answers of the two-step query are exactly what the row-writing runs
   * of the greatest visible timestamp left active, or nothing when no visible run wrote a row.
   */
  lemma AnswersExactly(calls: seq<Call>, dbs: seq<Db>, segment: Segment, t: int, answer: Option<HistoryRow>)
    requires IsRun(calls, dbs)
    ensures Answers(dbs[|calls|].history, segment, t, answer) <==>
              || (answer == None && forall i :: 0 <= i < |calls| ==> !Wrote(calls, dbs, segment, t, i))
              || (exists i :: 0 <= i < |calls| && IsNewest(calls, dbs, segment, t, i)
                              && answer == ActiveAfter(calls, dbs, segment, i))
  {
    if Answers(dbs[|calls|].history, segment, t, answer) {
      AnswerIsNewest(calls, dbs, segment, t, answer);
    }
    if i :| 0 <= i < |calls| && IsNewest(calls, dbs, segment, t, i) && answer == ActiveAfter(calls, dbs, segment, i) {
      NewestAnswers(calls, dbs, segment, t, i);
    }
    if forall i :: 0 <= i < |calls| ==> !Wrote(calls, dbs, segment, t, i) {
      VisibleRowsAreOfRuns(calls, dbs, segment, t);
    }
  }

  lemma {:induction false} NewestExists(calls: seq<Call>, dbs: seq<Db>, segment: Segment, t: int, n: nat)
    returns (best: Option<nat>)
    requires n <= |calls| < |dbs|
    ensures match best
            case None => forall i :: 0 <= i < n ==> !Wrote(calls, dbs, segment, t, i)
            case Some(b) =>
              && b < n && Wrote(calls, dbs, segment, t, b)
              && forall j :: 0 <= j < n && Wrote(calls, dbs, segment, t, j) ==> calls[j].at <= calls[b].at
  {
    best := None;
    if n > 0 {
      best := NewestExists(calls, dbs, segment, t, n - 1);
      if Wrote(calls, dbs, segment, t, n - 1) && (best.None? || calls[n - 1].at > calls[best.value].at) {
        best := Some(n - 1);
      }
    }
  }

  /**
   * The exact condition: every row-writing run of the greatest visible timestamp is the last run not after t,
   * unless both left nothing active.
   */
  ghost predicate LastRunDecides(calls: seq<Call>, dbs: seq<Db>, segment: Segment, t: int)
    requires |dbs| == |calls| + 1
  {
    forall i {:trigger IsNewest(calls, dbs, segment, t, i)} :: 0 <= i < |calls| && IsNewest(calls, dbs, segment, t, i) ==>
      || RunAt(calls, segment, t) == Some(i)
      || (ActiveAfter(calls, dbs, segment, i) == None && ActiveAt(calls, dbs, segment, t) == None)
  }

  lemma NewestIsActiveAt(calls: seq<Call>, dbs: seq<Db>, segment: Segment, t: int, i: nat)
    requires |dbs| == |calls| + 1 && LastRunDecides(calls, dbs, segment, t)
    requires i < |calls| && IsNewest(calls, dbs, segment, t, i)
    ensures ActiveAfter(calls, dbs, segment, i) == ActiveAt(calls, dbs, segment, t)
  {
  }

  /** A run that left an episode active wrote its row. */
  lemma ActiveRunWrote(calls: seq<Call>, dbs: seq<Db>, segment: Segment, t: int)
    requires IsRun(calls, dbs) && ActiveAt(calls, dbs, segment, t).Some?
    ensures Wrote(calls, dbs, segment, t, RunAt(calls, segment, t).value)
  {
    RunHolds(calls, dbs, segment, RunAt(calls, segment, t).value);
  }

  lemma NobodyWrote(calls: seq<Call>, dbs: seq<Db>, segment: Segment, t: int)
    requires IsRun(calls, dbs) && forall i :: 0 <= i < |calls| ==> !Wrote(calls, dbs, segment, t, i)
    ensures ActiveAt(calls, dbs, segment, t) == None
  {
    if ActiveAt(calls, dbs, segment, t).Some? {
      ActiveRunWrote(calls, dbs, segment, t);
    }
  }

  lemma DecidedAnswers(calls: seq<Call>, dbs: seq<Db>, segment: Segment, t: int, answer: Option<HistoryRow>)
    requires IsRun(calls, dbs) && LastRunDecides(calls, dbs, segment, t)
    ensures Answers(dbs[|calls|].history, segment, t, answer) <==> answer == ActiveAt(calls, dbs, segment, t)
  {
    var best := NewestExists(calls, dbs, segment, t, |calls|);
    if best.Some? {
      NewestAnswers(calls, dbs, segment, t, best.value);
      NewestIsActiveAt(calls, dbs, segment, t, best.value);
    } else {
      NobodyWrote(calls, dbs, segment, t);
      AnswersExactly(calls, dbs, segment, t, None);
    }
    if Answers(dbs[|calls|].history, segment, t, answer) {
      AnswerIsNewest(calls, dbs, segment, t, answer);
      if i :| 0 <= i < |calls| && IsNewest(calls, dbs, segment, t, i) && answer == ActiveAfter(calls, dbs, segment, i) {
        NewestIsActiveAt(calls, dbs, segment, t, i);
      }
    }
  }

  /**
   * For any run and any query, whatever the timestamps: the query returns exactly the ACTIVE episode of the
   * last run not after t, and nothing else, if and only if that run decides.
   */
  lemma TimeTravel(calls: seq<Call>, dbs: seq<Db>, segment: Segment, t: int)
    requires IsRun(calls, dbs)
    ensures LastRunDecides(calls, dbs, segment, t) <==>
              forall answer :: Answers(dbs[|calls|].history, segment, t, answer) <==>
                                 answer == ActiveAt(calls, dbs, segment, t)
  {
    if LastRunDecides(calls, dbs, segment, t) {
      forall answer {
        DecidedAnswers(calls, dbs, segment, t, answer);
      }
    } else {
      var i :| 0 <= i < |calls| && IsNewest(calls, dbs, segment, t, i)
               && RunAt(calls, segment, t) != Some(i)
               && !(ActiveAfter(calls, dbs, segment, i) == None && ActiveAt(calls, dbs, segment, t) == None);
      NewestAnswers(calls, dbs, segment, t, i);
      assert ActiveAfter(calls, dbs, segment, i) != ActiveAt(calls, dbs, segment, t);
    }
  }

  /** What the callers read of an answer: the episode and its severity, not the run that repeated it. */
  function Named(row: Option<HistoryRow>): Option<(EpisodeId, Severity)> {
    if row.Some? then Some((row.value.id, row.value.severity)) else None
  }

  /** Every row-writing run of the greatest visible timestamp left the episode active that the last run not after t left. */
  ghost predicate NewestRunsAgree(calls: seq<Call>, dbs: seq<Db>, segment: Segment, t: int)
    requires |dbs| == |calls| + 1
  {
    forall i {:trigger IsNewest(calls, dbs, segment, t, i)} :: 0 <= i < |calls| && IsNewest(calls, dbs, segment, t, i) ==>
      Named(ActiveAfter(calls, dbs, segment, i)) == Named(ActiveAt(calls, dbs, segment, t))
  }

  lemma AgreedAnswers(calls: seq<Call>, dbs: seq<Db>, segment: Segment, t: int, answer: Option<HistoryRow>)
    requires IsRun(calls, dbs) && NewestRunsAgree(calls, dbs, segment, t)
    requires Answers(dbs[|calls|].history, segment, t, answer)
    ensures Named(answer) == Named(ActiveAt(calls, dbs, segment, t))
  {
    AnswerIsNewest(calls, dbs, segment, t, answer);
    if answer == None && forall i :: 0 <= i < |calls| ==> !Wrote(calls, dbs, segment, t, i) {
      NobodyWrote(calls, dbs, segment, t);
    }
  }

  /**
   * For any run and any query, whatever the timestamps: the query can only name the episode and severity that
   * the last run not after t left active if and only if the row-writing runs of the greatest visible timestamp
   * left just that.
   */
  lemma TimeTravelNames(calls: seq<Call>, dbs: seq<Db>, segment: Segment, t: int)
    requires IsRun(calls, dbs)
    ensures NewestRunsAgree(calls, dbs, segment, t) <==>
              forall answer :: Answers(dbs[|calls|].history, segment, t, answer) ==>
                                 Named(answer) == Named(ActiveAt(calls, dbs, segment, t))
    ensures exists answer :: Answers(dbs[|calls|].history, segment, t, answer)
  {
    if NewestRunsAgree(calls, dbs, segment, t) {
      forall answer | Answers(dbs[|calls|].history, segment, t, answer) {
        AgreedAnswers(calls, dbs, segment, t, answer);
      }
    }
    forall i | 0 <= i < |calls| && IsNewest(calls, dbs, segment, t, i) {
      NewestAnswers(calls, dbs, segment, t, i);
    }
    var best := NewestExists(calls, dbs, segment, t, |calls|);
    assert best.Some? ==> IsNewest(calls, dbs, segment, t, best.value);
    AnswersExactly(calls, dbs, segment, t, None);
  }

  /** A last run that wrote rows decides when it is stamped strictly after every earlier visible run. */
  lemma LatestStampDecides(calls: seq<Call>, dbs: seq<Db>, segment: Segment, t: int)
    requires IsRun(calls, dbs) && RunAt(calls, segment, t).Some?
    requires var r := RunAt(calls, segment, t).value;
             && Wrote(calls, dbs, segment, t, r)
             && forall j :: 0 <= j < r && Concerns(calls[j], segment) && calls[j].at <= t ==> calls[j].at < calls[r].at
    ensures LastRunDecides(calls, dbs, segment, t)
  {
    var r := RunAt(calls, segment, t).value;
    forall i | 0 <= i < |calls| && IsNewest(calls, dbs, segment, t, i)
      ensures i == r
    {
      assert Wrote(calls, dbs, segment, t, i) && Wrote(calls, dbs, segment, t, r);
    }
  }

  /** A run that writes no row leaves nothing active, and nothing was stored before it. */
  lemma SilentRun(calls: seq<Call>, dbs: seq<Db>, segment: Segment, r: nat)
    requires IsRun(calls, dbs) && r < |calls| && Concerns(calls[r], segment) && dbs[r + 1].history == dbs[r].history
    ensures Rebuilt(dbs[r], segment) == [] && Rebuilt(dbs[r + 1], segment) == []
  {
    PrefixIsRun(calls, dbs, r + 1);
    var more := LastCallAppends(calls[..r + 1], dbs[..r + 2]);
    assert |dbs[r + 1].history| == |dbs[r].history| + |more|;
    PrefixIsRun(calls, dbs, r);
    LiveIsRebuilt(calls[..r], dbs[..r + 1], segment);
    NoElements(Rebuilt(dbs[r], segment));
  }

  /** When every run of the segment after run i, up to run r, writes no row, run i left nothing either. */
  lemma {:induction false} SilentSince(calls: seq<Call>, dbs: seq<Db>, segment: Segment, i: nat, r: nat)
    requires IsRun(calls, dbs) && i < r < |calls| && Concerns(calls[r], segment)
    requires forall j {:trigger Concerns(calls[j], segment)} :: i < j <= r && Concerns(calls[j], segment) ==>
               dbs[j + 1].history == dbs[j].history
    ensures Rebuilt(dbs[i + 1], segment) == []
    decreases r
  {
    if j :| i < j < r && Concerns(calls[j], segment) {
      SilentSince(calls, dbs, segment, i, j);
    } else {
      PrefixIsRun(calls, dbs, r);
      RebuiltSince(calls[..r], dbs[..r + 1], segment, i + 1);
      SilentRun(calls, dbs, segment, r);
    }
  }

  lemma SilentLastRunDecides(calls: seq<Call>, dbs: seq<Db>, segment: Segment, t: int, r: nat, i: nat)
    requires IsRun(calls, dbs) && RunAt(calls, segment, t) == Some(r) && StrictlyLater(calls[..r + 1], segment)
    requires !Wrote(calls, dbs, segment, t, r) && i < |calls| && IsNewest(calls, dbs, segment, t, i)
    ensures ActiveAfter(calls, dbs, segment, i) == None && ActiveAt(calls, dbs, segment, t) == None
  {
    assert Wrote(calls, dbs, segment, t, i);
    forall j | i < j <= r && Concerns(calls[j], segment)
      ensures dbs[j + 1].history == dbs[j].history
    {
      var upTo := calls[..r + 1];
      assert upTo[i] == calls[i] && upTo[j] == calls[j] && upTo[r] == calls[r];
      assert !Wrote(calls, dbs, segment, t, j);
    }
    SilentRun(calls, dbs, segment, r);
    SilentSince(calls, dbs, segment, i, r);
  }

  /** Runs in the order of their timestamps, up to the last run not after t, decide even when that run wrote nothing. */
  lemma OrderedRunsDecide(calls: seq<Call>, dbs: seq<Db>, segment: Segment, t: int)
    requires IsRun(calls, dbs)
    requires RunAt(calls, segment, t).Some? ==> StrictlyLater(calls[..RunAt(calls, segment, t).value + 1], segment)
    ensures LastRunDecides(calls, dbs, segment, t)
  {
    var run := RunAt(calls, segment, t);
    if run.Some? && Wrote(calls, dbs, segment, t, run.value) {
      var upTo := calls[..run.value + 1];
      assert forall j :: 0 <= j <= run.value ==> upTo[j] == calls[j];
      LatestStampDecides(calls, dbs, segment, t);
    } else if run.Some? {
      forall i | 0 <= i < |calls| && IsNewest(calls, dbs, segment, t, i)
        ensures ActiveAfter(calls, dbs, segment, i) == None && ActiveAt(calls, dbs, segment, t) == None
      {
        SilentLastRunDecides(calls, dbs, segment, t, run.value, i);
      }
    }
  }
}

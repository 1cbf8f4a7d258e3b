/** What the history ledger says, column by column, in terms of the timelines of the snapshots given. */
module HistoryRows {
  import opened Common
  import opened Degradation
  import opened TimelineMeaning
  import opened DegradationLedger
  import opened DegradationHistory

  // ---------------------------------------------------------------------------
  // The rows of one run
  // ---------------------------------------------------------------------------

  /**
   * A row of a run: an episode of the new timeline as it now is, or an episode of the timeline before the run
   * that the new one does not have, marked INVALIDATED at the severity it had.
   */
  ghost predicate IsAssertion(row: HistoryRow, run: nat, at: int, before: seq<Episode>, after: seq<Episode>) {
    && row.run == run && row.at == at
    && (|| (exists e <- after :: row.id == e.id && row.status == e.status && row.severity == e.severity)
        || (row.status == Invalidated && (forall e <- after :: e.id != row.id)
            && exists e <- before :: row.id == e.id && row.severity == e.severity))
  }

  /** The run wrote exactly its assertions, one per episode. */
  ghost predicate WroteAssertions(
    history: seq<HistoryRow>, run: nat, at: int, before: seq<Episode>, after: seq<Episode>)
  {
    && (forall row :: row in history && row.run == run <==> IsAssertion(row, run, at, before, after))
    && (forall j, k :: 0 <= j < k < |history| && history[j].run == run && history[k].run == run ==>
                         history[j].id != history[k].id)
  }

  function IdsIn(rows: seq<HistoryRow>): set<EpisodeId> {
    set row <- rows :: row.id
  }

  lemma {:induction false} AtMostOneEach(rows: seq<HistoryRow>)
    ensures |IdsIn(rows)| <= |rows|
  {
    if rows != [] {
      var front, last := rows[..|rows| - 1], rows[|rows| - 1];
      assert rows == front + [last];
      AtMostOneEach(front);
      assert IdsIn(rows) == IdsIn(front) + {last.id};
    }
  }

  /** As many rows as ids leaves no id twice. */
  lemma RowsAreDistinct(rows: seq<HistoryRow>, j: nat, k: nat)
    requires j < k < |rows| && |IdsIn(rows)| == |rows|
    ensures rows[j].id != rows[k].id
  {
    if rows[j].id == rows[k].id {
      var rest := rows[..j] + rows[j + 1..];
      forall id | id in IdsIn(rows)
        ensures id in IdsIn(rest)
      {
        var i :| 0 <= i < |rows| && rows[i].id == id;
        var i' := if i < j then i else if i == j then k - 1 else i - 1;
        assert rest[i'].id == id && rest[i'] in rest;
      }
      SubsetIsNoLarger(IdsIn(rows), IdsIn(rest));
      AtMostOneEach(rest);
    }
  }

  lemma SubsetIsNoLarger(a: set<EpisodeId>, b: set<EpisodeId>)
    requires a <= b
    ensures |a| <= |b|
  {
    assert b == a + (b - a);
  }

  lemma StaleRowsAreDistinct(episodes: map<EpisodeId, Episode>, ids: set<EpisodeId>, run: nat, at: int, rows: seq<HistoryRow>)
    requires StaleRows(episodes, ids, run, at, rows)
    ensures forall j, k :: 0 <= j < k < |rows| ==> rows[j].id != rows[k].id
  {
    assert IdsIn(rows) == ids;
    forall j, k | 0 <= j < k < |rows|
      ensures rows[j].id != rows[k].id
    {
      RowsAreDistinct(rows, j, k);
    }
  }

  /** The ids that become stale are those of the live episodes the timeline no longer has. */
  lemma StaleMeaning(before: Db, segment: Segment, was: seq<Episode>, valid: seq<Episode>, id: EpisodeId)
    requires Keyed(before) && Live(before, segment) == Elements(was)
    ensures id in Stale(before.episodes, segment, valid) <==>
              (exists e <- was :: e.id == id && e.id.segment == segment) && forall e <- valid :: e.id != id
    ensures id in Stale(before.episodes, segment, valid) ==> before.episodes[id] in was && before.episodes[id].id == id
  {
    ByIdMeaning(valid);
    if id in Stale(before.episodes, segment, valid) {
      assert before.episodes[id] in Live(before, segment);
    }
    if e :| e in was && e.id == id {
      assert e in Live(before, segment);
    }
  }

  lemma StaleRowMeaning(
    before: Db, segment: Segment, was: seq<Episode>, valid: seq<Episode>, run: nat, at: int, rows: seq<HistoryRow>,
    row: HistoryRow)
    requires Keyed(before) && Live(before, segment) == Elements(was) && Ordered(segment, was)
    requires StaleRows(before.episodes, Stale(before.episodes, segment, valid), run, at, rows)
    requires forall i, j :: 0 <= i < j < |was| ==> was[i].id != was[j].id
    ensures row in rows <==>
              && row.run == run && row.at == at && row.status == Invalidated && (forall e <- valid :: e.id != row.id)
              && exists e <- was :: row.id == e.id && row.severity == e.severity
  {
    StaleMeaning(before, segment, was, valid, row.id);
    if row.run == run && row.at == at && row.status == Invalidated && (forall e <- valid :: e.id != row.id) {
      if e :| e in was && row.id == e.id && row.severity == e.severity {
        var stored := before.episodes[row.id];
        assert stored in was && stored.id == e.id;
        var r :| r in rows && r.id == row.id;
        assert stored == e by {
          var i :| 0 <= i < |was| && was[i] == stored;
          var j :| 0 <= j < |was| && was[j] == e;
        }
        assert r == row;
      }
    }
  }

  lemma ValidRowMeaning(valid: seq<Episode>, run: nat, at: int, row: HistoryRow)
    ensures row in RowsOf(run, at, valid) <==>
              && row.run == run && row.at == at
              && exists e <- valid :: row.id == e.id && row.status == e.status && row.severity == e.severity
  {
    if row in RowsOf(run, at, valid) {
      var i :| 0 <= i < |valid| && RowsOf(run, at, valid)[i] == row;
      assert valid[i] in valid;
    }
    if e :| e in valid && row.id == e.id && row.status == e.status && row.severity == e.severity {
      var i :| 0 <= i < |valid| && valid[i] == e;
      assert row.run == run && row.at == at ==> RowsOf(run, at, valid)[i] == row;
    }
  }

  lemma AssertedRowsDiffer(stale: seq<HistoryRow>, valid: seq<Episode>, run: nat, at: int)
    requires forall j, k :: 0 <= j < k < |stale| ==> stale[j].id != stale[k].id
    requires forall j, k :: 0 <= j < k < |valid| ==> valid[j].id != valid[k].id
    requires forall row <- stale, e <- valid :: e.id != row.id
    ensures var more := stale + RowsOf(run, at, valid);
            forall j, k :: 0 <= j < k < |more| ==> more[j].id != more[k].id
  {
    var more := stale + RowsOf(run, at, valid);
    forall j, k | 0 <= j < k < |more|
      ensures more[j].id != more[k].id
    {
      if j < |stale| <= k {
        assert more[j] in stale && more[k].id == valid[k - |stale|].id && valid[k - |stale|] in valid;
      } else if j >= |stale| {
        assert more[j].id == valid[j - |stale|].id && more[k].id == valid[k - |stale|].id;
      }
    }
  }

  lemma AssertedRowsMean(
    before: Db, segment: Segment, was: seq<Episode>, valid: seq<Episode>, run: nat, at: int, stale: seq<HistoryRow>)
    requires Keyed(before) && Live(before, segment) == Elements(was)
    requires Ordered(segment, was) && Ordered(segment, valid)
    requires StaleRows(before.episodes, Stale(before.episodes, segment, valid), run, at, stale)
    ensures WroteAssertions(stale + RowsOf(run, at, valid), run, at, was, valid)
    ensures forall row <- stale + RowsOf(run, at, valid) :: row.run == run
  {
    var more := stale + RowsOf(run, at, valid);
    OrderedIdsDiffer(segment, was);
    OrderedIdsDiffer(segment, valid);
    forall row: HistoryRow
      ensures row in more <==> IsAssertion(row, run, at, was, valid)
      ensures row in stale ==> forall e <- valid :: e.id != row.id
    {
      StaleRowMeaning(before, segment, was, valid, run, at, stale, row);
      ValidRowMeaning(valid, run, at, row);
    }
    StaleRowsAreDistinct(before.episodes, Stale(before.episodes, segment, valid), run, at, stale);
    AssertedRowsDiffer(stale, valid, run, at);
  }

  /** The rows one call appends. */
  lemma CallWrites(c: Call, before: Db, run: nat, after: Db) returns (more: seq<HistoryRow>)
    requires ValidCall(c) && c.snapshots != [] && Processed(before, c.snapshots, c.at, run, after) && Keyed(before)
    requires var segment := c.snapshots[0].segment; Live(before, segment) == Elements(Rebuilt(before, segment))
    ensures after.history == before.history + more
    ensures var segment := c.snapshots[0].segment;
            WroteAssertions(more, run, c.at, Rebuilt(before, segment), Rebuilt(after, segment))
    ensures forall row <- more :: row.run == run
  {
    var segment := c.snapshots[0].segment;
    RebuiltOrdered(before, segment);
    RebuiltOrdered(after, segment);
    var valid := Rebuilt(after, segment);
    var stale := AssertedSplits(before.episodes, before.history, after.history, segment, valid, run, c.at);
    more := stale + RowsOf(run, c.at, valid);
    AssertedRowsMean(before, segment, Rebuilt(before, segment), valid, run, c.at, stale);
  }

  lemma OldRowsStay(
    history: seq<HistoryRow>, more: seq<HistoryRow>, run: nat, at: int, before: seq<Episode>, after: seq<Episode>)
    requires WroteAssertions(history, run, at, before, after) && forall row <- more :: row.run != run
    ensures WroteAssertions(history + more, run, at, before, after)
  {
    forall k | |history| <= k < |history + more|
      ensures (history + more)[k].run != run
    {
      assert (history + more)[k] in more;
    }
  }

  lemma NewRowsAdd(
    history: seq<HistoryRow>, more: seq<HistoryRow>, run: nat, at: int, before: seq<Episode>, after: seq<Episode>)
    requires WroteAssertions(more, run, at, before, after) && forall row <- history :: row.run != run
    ensures WroteAssertions(history + more, run, at, before, after)
  {
    forall k | 0 <= k < |history|
      ensures (history + more)[k].run != run
    {
      assert (history + more)[k] in history;
    }
    forall j, k | |history| <= j < k < |history + more| && (history + more)[j].run == run && (history + more)[k].run == run
      ensures (history + more)[j].id != (history + more)[k].id
    {
      assert (history + more)[j] == more[j - |history|] && (history + more)[k] == more[k - |history|];
    }
  }

  /** Every run's rows in the history, in terms of the timelines rebuilt before and after it. */
  lemma {:induction false} RunWrote(calls: seq<Call>, dbs: seq<Db>, i: nat, segment: Segment)
    requires IsRun(calls, dbs) && i < |calls| && Concerns(calls[i], segment)
    ensures WroteAssertions(dbs[|calls|].history, i, calls[i].at, Rebuilt(dbs[i], segment), Rebuilt(dbs[i + 1], segment))
  {
    var n := |calls| - 1;
    PrefixIsRun(calls, dbs, n);
    assert Ran(calls, dbs, n);
    HistoryStamped(calls[..n], dbs[..n + 1]);
    if i < n {
      RunWrote(calls[..n], dbs[..n + 1], i, segment);
      var more := LastCallAppends(calls, dbs);
      OldRowsStay(dbs[n].history, more, i, calls[i].at, Rebuilt(dbs[i], segment), Rebuilt(dbs[i + 1], segment));
    } else {
      RunsAreKeyed(calls[..n], dbs[..n + 1]);
      LiveIsRebuilt(calls[..n], dbs[..n + 1], segment);
      var more := CallWrites(calls[n], dbs[n], n, dbs[n + 1]);
      NewRowsAdd(dbs[n].history, more, i, calls[i].at, Rebuilt(dbs[i], segment), Rebuilt(dbs[i + 1], segment));
    }
  }

  /** The readings of valid snapshots, one per window, in order. */
  ghost predicate ListsGiven(readings: seq<Reading>, given: map<int, Snapshot>) {
    (forall w <- given :: given[w].Valid()) && Lists(readings, given)
  }

  /** The readings that a number of calls left for a segment. */
  lemma ReadingsAfter(calls: seq<Call>, dbs: seq<Db>, segment: Segment, n: nat) returns (readings: seq<Reading>)
    requires IsRun(calls, dbs) && n <= |calls|
    ensures ListsGiven(readings, Given(calls[..n], segment))
    ensures Rebuilt(dbs[n], segment) == Timeline(segment, readings)
  {
    PrefixIsRun(calls, dbs, n);
    readings := MaterialisedView(calls[..n], dbs[..n + 1], segment);
  }

  /**
   * The rows of every run, column by column: exactly the episodes of the timeline of the last snapshots given
   * up to it, and as INVALIDATED the episodes of the timeline before it that this one no longer has.
   */
  lemma RunRows(calls: seq<Call>, dbs: seq<Db>, segment: Segment, i: nat)
    returns (before: seq<Reading>, after: seq<Reading>)
    requires IsRun(calls, dbs) && i < |calls| && Concerns(calls[i], segment)
    ensures ListsGiven(before, Given(calls[..i], segment))
    ensures ListsGiven(after, Given(calls[..i + 1], segment))
    ensures WroteAssertions(dbs[|calls|].history, i, calls[i].at, Timeline(segment, before), Timeline(segment, after))
  {
    before := ReadingsAfter(calls, dbs, segment, i);
    after := ReadingsAfter(calls, dbs, segment, i + 1);
    RunWrote(calls, dbs, i, segment);
  }

  // ---------------------------------------------------------------------------
  // Answers
  // ---------------------------------------------------------------------------

  /** The answer is a run's row of the ACTIVE episode of a timeline, and there is none exactly without one. */
  ghost predicate NamesActive(answer: Option<HistoryRow>, run: nat, at: int, timeline: seq<Episode>) {
    match answer
    case None => forall e <- timeline :: e.status != Active
    case Some(row) =>
      && row.run == run && row.at == at && row.status == Active
      && exists e <- timeline :: e.status == Active && row.id == e.id && row.severity == e.severity
  }

  lemma ActiveRowMeaning(segment: Segment, run: nat, at: int, timeline: seq<Episode>)
    requires Ordered(segment, timeline)
    ensures NamesActive(ActiveRow(run, at, timeline), run, at, timeline)
  {
    assert timeline != [] ==> timeline[|timeline| - 1] in timeline;
  }

  /** What a run left active, in terms of the last snapshots given up to it. */
  lemma ActiveAfterMeaning(calls: seq<Call>, dbs: seq<Db>, segment: Segment, i: nat) returns (readings: seq<Reading>)
    requires IsRun(calls, dbs) && i < |calls|
    ensures ListsGiven(readings, Given(calls[..i + 1], segment))
    ensures NamesActive(ActiveAfter(calls, dbs, segment, i), i, calls[i].at, Timeline(segment, readings))
  {
    readings := ReadingsAfter(calls, dbs, segment, i + 1);
    RebuiltOrdered(dbs[i + 1], segment);
    ActiveRowMeaning(segment, i, calls[i].at, Rebuilt(dbs[i + 1], segment));
  }

  /**
   * Where the last run not after t decides, the answer names the ACTIVE episode of the timeline of the last
   * snapshots given up to that run, with its severity, that run and its timestamp; it is None exactly when
   * that timeline has no ACTIVE episode.
   */
  lemma AnswerMeaning(calls: seq<Call>, dbs: seq<Db>, segment: Segment, t: int, answer: Option<HistoryRow>, i: nat)
    returns (readings: seq<Reading>)
    requires IsRun(calls, dbs) && LastRunDecides(calls, dbs, segment, t)
    requires Answers(dbs[|calls|].history, segment, t, answer)
    requires i < |calls| && Concerns(calls[i], segment) && calls[i].at <= t
    requires forall j :: i < j < |calls| && Concerns(calls[j], segment) ==> calls[j].at > t
    ensures ListsGiven(readings, Given(calls[..i + 1], segment))
    ensures NamesActive(answer, i, calls[i].at, Timeline(segment, readings))
  {
    readings := ActiveAfterMeaning(calls, dbs, segment, i);
    DecidedAnswers(calls, dbs, segment, t, answer);
    assert RunAt(calls, segment, t) == Some(i);
  }

  /** Without a run not after t there is nothing to answer. */
  lemma NoRunNoAnswer(calls: seq<Call>, dbs: seq<Db>, segment: Segment, t: int, answer: Option<HistoryRow>)
    requires IsRun(calls, dbs) && Answers(dbs[|calls|].history, segment, t, answer)
    requires forall j :: 0 <= j < |calls| && Concerns(calls[j], segment) ==> calls[j].at > t
    ensures answer == None
  {
    AnswerIsNewest(calls, dbs, segment, t, answer);
  }

  /** Whatever the timestamps, every answer names what some visible run of the greatest stamp left active. */
  lemma AnyAnswerMeaning(calls: seq<Call>, dbs: seq<Db>, segment: Segment, t: int, answer: HistoryRow)
    returns (i: nat, readings: seq<Reading>)
    requires IsRun(calls, dbs) && Answers(dbs[|calls|].history, segment, t, Some(answer))
    ensures i < |calls| && Concerns(calls[i], segment) && calls[i].at <= t
    ensures ListsGiven(readings, Given(calls[..i + 1], segment))
    ensures NamesActive(Some(answer), i, calls[i].at, Timeline(segment, readings))
  {
    AnswerIsNewest(calls, dbs, segment, t, Some(answer));
    i :| 0 <= i < |calls| && IsNewest(calls, dbs, segment, t, i) && Some(answer) == ActiveAfter(calls, dbs, segment, i);
    readings := ActiveAfterMeaning(calls, dbs, segment, i);
  }

  // ---------------------------------------------------------------------------
  // Signal versions
  // ---------------------------------------------------------------------------

  predicate SameWindow(a: Signal, b: Signal) {
    a.segment == b.segment && a.reading.window == b.reading.window
  }

  /** The earlier signals of the same window. */
  ghost function Earlier(signals: seq<Signal>, i: nat): set<nat>
    requires i < |signals|
  {
    set j: nat | j < i && SameWindow(signals[j], signals[i])
  }

  /** The versions of every window are 1, 2, 3, ... in the order of its signals. */
  ghost predicate AreNumbered(signals: seq<Signal>) {
    forall i {:trigger Earlier(signals, i)} :: 0 <= i < |signals| ==> signals[i].version == |Earlier(signals, i)| + 1
  }

  /** The signals of a window before position n. */
  ghost function Of(signals: seq<Signal>, segment: Segment, window: int, n: nat): set<nat>
    requires n <= |signals|
  {
    set j: nat | j < n && signals[j].segment == segment && signals[j].reading.window == window
  }

  lemma OfGrows(signals: seq<Signal>, segment: Segment, window: int, n: nat)
    requires n < |signals|
    ensures Of(signals[..n], segment, window, n) == Of(signals, segment, window, n)
    ensures |Of(signals, segment, window, n + 1)|
            == |Of(signals, segment, window, n)|
               + (if signals[n].segment == segment && signals[n].reading.window == window then 1 else 0)
  {
    var before := Of(signals, segment, window, n);
    assert n !in before;
    assert Of(signals, segment, window, n + 1)
           == before + (if signals[n].segment == segment && signals[n].reading.window == window then {n} else {});
  }

  lemma EarlierIsOf(signals: seq<Signal>, i: nat)
    requires i < |signals|
    ensures Earlier(signals, i) == Of(signals, signals[i].segment, signals[i].reading.window, i)
  {
  }

  /** The greatest version of a window is the number of its signals. */
  lemma {:induction false} MaxIsCount(signals: seq<Signal>, segment: Segment, window: int)
    requires AreNumbered(signals)
    ensures MaxVersion(signals, segment, window) == |Of(signals, segment, window, |signals|)|
  {
    if signals != [] {
      var n := |signals| - 1;
      PrefixIsNumbered(signals, n);
      MaxIsCount(signals[..n], segment, window);
      OfGrows(signals, segment, window, n);
      EarlierIsOf(signals, n);
      assert signals[n].version == |Earlier(signals, n)| + 1;
    }
  }

  lemma PrefixIsNumbered(signals: seq<Signal>, n: nat)
    requires AreNumbered(signals) && n <= |signals|
    ensures AreNumbered(signals[..n])
  {
    forall i | 0 <= i < n
      ensures signals[..n][i].version == |Earlier(signals[..n], i)| + 1
    {
      assert Earlier(signals[..n], i) == Earlier(signals, i);
    }
  }

  lemma NextIsNumbered(signals: seq<Signal>, s: Snapshot, at: int)
    requires AreNumbered(signals) && s.Valid()
    ensures AreNumbered(signals + [NextSignal(signals, s, at)])
  {
    var next := NextSignal(signals, s, at);
    var all, n := signals + [next], |signals|;
    MaxIsCount(signals, s.segment, s.window);
    forall i | 0 <= i < |all|
      ensures all[i].version == |Earlier(all, i)| + 1
    {
      if i < n {
        assert Earlier(all, i) == Earlier(signals, i);
      } else {
        assert Earlier(all, i) == Of(signals, s.segment, s.window, n);
      }
    }
  }

  lemma {:induction false} AppendedAreNumbered(signals: seq<Signal>, snapshots: seq<Snapshot>, at: int)
    requires AreNumbered(signals) && forall s <- snapshots :: s.Valid()
    ensures AreNumbered(AppendSignals(signals, snapshots, at))
  {
    if snapshots != [] {
      var n := |snapshots| - 1;
      AppendedAreNumbered(signals, snapshots[..n], at);
      NextIsNumbered(AppendSignals(signals, snapshots[..n], at), snapshots[n], at);
    }
  }

  /** After any calls, the signals of every window are numbered 1, 2, 3, ... in the order they were appended. */
  lemma {:induction false} SignalsAreNumbered(calls: seq<Call>, dbs: seq<Db>)
    requires IsRun(calls, dbs)
    ensures AreNumbered(dbs[|calls|].signals)
  {
    if calls != [] {
      var n := |calls| - 1;
      assert Ran(calls, dbs, n);
      PrefixIsRun(calls, dbs, n);
      SignalsAreNumbered(calls[..n], dbs[..n + 1]);
      if calls[n].snapshots != [] {
        AppendedAreNumbered(dbs[n].signals, SortByWindow(calls[n].snapshots), calls[n].at);
      }
    }
  }
}

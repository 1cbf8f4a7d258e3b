/**
 * A reconciliation stamped no later than the one before it, after which the as-of query keeps answering the
 * older run.
 */
module LateRun {
  import opened Common
  import opened Degradation
  import opened TimelineMeaning
  import opened DegradationLedger
  import opened DegradationHistory

  // ---------------------------------------------------------------------------
  // Every list of calls has a run
  // ---------------------------------------------------------------------------

  lemma StaleRowsExist(episodes: map<EpisodeId, Episode>, ids: set<EpisodeId>, run: nat, at: int)
    returns (rows: seq<HistoryRow>)
    requires ids <= episodes.Keys && forall id <- ids :: episodes[id].id == id
    ensures StaleRows(episodes, ids, run, at, rows)
    decreases |ids|
  {
    if ids == {} {
      rows := [];
    } else {
      var id :| id in ids;
      rows := StaleRowsExist(episodes, ids - {id}, run, at);
      AddStaleRow(episodes, ids - {id}, run, at, rows, id);
      assert ids - {id} + {id} == ids;
      rows := rows + [RowOf(run, at, Invalidate(episodes[id]))];
    }
  }

  lemma SegmentCanRun(before: Db, c: Call, segment: Segment, run: nat) returns (after: Db)
    requires Keyed(before) && ValidCall(c) && c.snapshots != [] && segment == c.snapshots[0].segment
    ensures Keyed(after) && Processed(before, c.snapshots, c.at, run, after)
  {
    SortKeeps(c.snapshots);
    var signals := AppendSignals(before.signals, SortByWindow(c.snapshots), c.at);
    var valid := Timeline(segment, Readings(Latest(signals, segment)));
    var stale := Stale(before.episodes, segment, valid);
    var rows := StaleRowsExist(before.episodes, stale, run, c.at);
    RowsAreAsserted(before, segment, valid, run, c.at, rows);
    after := Db(signals, Reconcile(before.episodes, segment, valid), before.history + rows + RowsOf(run, c.at, valid));
    ReconciledIsKeyed(before.episodes, segment, valid);
  }

  lemma RowsAreAsserted(before: Db, segment: Segment, valid: seq<Episode>, run: nat, at: int, rows: seq<HistoryRow>)
    requires StaleRows(before.episodes, Stale(before.episodes, segment, valid), run, at, rows)
    ensures Asserted(before.episodes, before.history, before.history + rows + RowsOf(run, at, valid), segment, valid, run, at)
  {
    assert (before.history + rows)[|before.history|..] == rows;
    RunIsAsserted(before.episodes, before.history, before.history + rows, segment, valid, run, at);
  }

  lemma CallCanRun(before: Db, c: Call, run: nat) returns (after: Db)
    requires Keyed(before) && ValidCall(c)
    ensures Keyed(after) && Processed(before, c.snapshots, c.at, run, after)
  {
    if c.snapshots == [] {
      after := before;
    } else {
      after := SegmentCanRun(before, c, c.snapshots[0].segment, run);
    }
  }

  lemma RunExtends(calls: seq<Call>, c: Call, before: seq<Db>, after: Db)
    requires IsRun(calls, before) && ValidCall(c)
    requires Processed(before[|calls|], c.snapshots, c.at, |calls|, after)
    ensures IsRun(calls + [c], before + [after])
  {
    var calls', dbs' := calls + [c], before + [after];
    forall i | 0 <= i < |calls'|
      ensures Ran(calls', dbs', i)
    {
      if i < |calls| {
        assert Ran(calls, before, i);
        assert calls'[i] == calls[i] && dbs'[i] == before[i] && dbs'[i + 1] == before[i + 1];
      } else {
        assert dbs'[i] == before[i] && dbs'[i + 1] == after;
      }
    }
  }

  lemma {:induction false} RunExists(calls: seq<Call>) returns (dbs: seq<Db>)
    requires forall c <- calls :: ValidCall(c)
    ensures IsRun(calls, dbs) && Keyed(dbs[|calls|])
  {
    if calls == [] {
      dbs := [Db([], map[], [])];
    } else {
      var n := |calls| - 1;
      assert calls == calls[..n] + [calls[n]] && calls[n] in calls;
      var before := RunExists(calls[..n]);
      var after := CallCanRun(before[n], calls[n], n);
      RunExtends(calls[..n], calls[n], before, after);
      dbs := before + [after];
    }
  }

  // ---------------------------------------------------------------------------
  // The late run
  // ---------------------------------------------------------------------------

  const EVERYTHING: Segment := Segment(Global, "ALL")

  function BadWindow(w: int): Snapshot {
    Snapshot(EVERYTHING, w, Some(0.5), Some(0.9), false)
  }

  function GoodWindow(w: int): Snapshot {
    Snapshot(EVERYTHING, w, Some(0.9), Some(0.9), false)
  }

  lemma WindowKinds(w: int)
    ensures Evaluate(BadWindow(w)).kind == Bad && Evaluate(GoodWindow(w)).kind == Normal
  {
    BadMeaning(BadWindow(w));
    BadMeaning(GoodWindow(w));
  }

  lemma ThreeReplayed(readings: seq<Reading>)
    requires |readings| == 3
    ensures var m := Step(EVERYTHING, Step(EVERYTHING, Machine([], Healthy, None), readings[0]), readings[1]);
            Replay(EVERYTHING, readings) == Step(EVERYTHING, m, readings[2])
  {
    assert readings[..0] == [] && readings[..3] == readings;
    ReplayMore(EVERYTHING, readings, 0);
    ReplayMore(EVERYTHING, readings, 1);
    ReplayMore(EVERYTHING, readings, 2);
  }

  lemma ThreeBadWindows(readings: seq<Reading>)
    requires |readings| == 3 && forall r <- readings :: r.kind == Bad
    ensures |Timeline(EVERYTHING, readings)| == 1 && Timeline(EVERYTHING, readings)[0].status == Active
  {
    assert readings[0] in readings && readings[1] in readings && readings[2] in readings;
    ThreeReplayed(readings);
  }

  lemma MiddleRecovered(readings: seq<Reading>)
    requires |readings| == 3 && readings[0].kind == Bad && readings[1].kind == Normal && readings[2].kind == Bad
    ensures Timeline(EVERYTHING, readings) == []
  {
    ThreeReplayed(readings);
  }

  lemma ListsThree(a: Snapshot, b: Snapshot, c: Snapshot, given: map<int, Snapshot>)
    requires a.Valid() && b.Valid() && c.Valid() && a.window == 0 && b.window == 1 && c.window == 2
    requires given == map[0 := a, 1 := b, 2 := c]
    ensures Lists([Evaluate(a), Evaluate(b), Evaluate(c)], given)
  {
    var readings := [Evaluate(a), Evaluate(b), Evaluate(c)];
    assert readings[0].window == 0 && readings[1].window == 1 && readings[2].window == 2;
    forall w | w in given
      ensures exists r <- readings :: r.window == w
    {
      assert readings[w] in readings;
    }
  }

  lemma GiveThree(a: Snapshot, b: Snapshot, c: Snapshot)
    ensures Give(map[], [a, b, c]) == map[a.window := a][b.window := b][c.window := c]
  {
    assert [] + [a] == [a] && [a] + [b] == [a, b] && [a, b] + [c] == [a, b, c];
    GiveAppend(map[], [], a);
    GiveAppend(map[], [a], b);
    GiveAppend(map[], [a, b], c);
  }

  lemma GivenOnce(calls: seq<Call>)
    requires |calls| == 1 && Concerns(calls[0], EVERYTHING)
    ensures Given(calls, EVERYTHING) == Give(map[], calls[0].snapshots)
  {
    assert calls[..0] == [];
  }

  lemma GiveOne(given: map<int, Snapshot>, d: Snapshot)
    ensures Give(given, [d]) == given[d.window := d]
  {
    assert [d][1..] == [];
  }

  lemma GivenMore(calls: seq<Call>, more: Call)
    requires Concerns(more, EVERYTHING)
    ensures Given(calls + [more], EVERYTHING) == Give(Given(calls, EVERYTHING), more.snapshots)
  {
    assert (calls + [more])[..|calls|] == calls;
  }

  /** Run 0 finds three bad windows; run 1, stamped no later, corrects the middle one. */
  lemma CorrectedTimelines(calls: seq<Call>, dbs: seq<Db>)
    requires |calls| == 2 && calls[0].snapshots == [BadWindow(0), BadWindow(1), BadWindow(2)]
    requires calls[1].snapshots == [GoodWindow(1)] && IsRun(calls, dbs)
    ensures |Rebuilt(dbs[1], EVERYTHING)| == 1 && Rebuilt(dbs[1], EVERYTHING)[0].status == Active
    ensures Rebuilt(dbs[2], EVERYTHING) == []
  {
    PrefixIsRun(calls, dbs, 1);
    GivenOnce(calls[..1]);
    GiveThree(BadWindow(0), BadWindow(1), BadWindow(2));
    assert calls == calls[..1] + [calls[1]];
    GivenMore(calls[..1], calls[1]);
    GiveOne(Given(calls[..1], EVERYTHING), GoodWindow(1));
    var before := ViewOfThree(calls[..1], dbs[..2], BadWindow(0), BadWindow(1), BadWindow(2));
    var after := ViewOfThree(calls, dbs, BadWindow(0), GoodWindow(1), BadWindow(2));
    WindowKinds(0);
    WindowKinds(1);
    WindowKinds(2);
    ThreeBadWindows(before);
    MiddleRecovered(after);
  }

  lemma ViewOfThree(calls: seq<Call>, dbs: seq<Db>, a: Snapshot, b: Snapshot, c: Snapshot) returns (readings: seq<Reading>)
    requires IsRun(calls, dbs) && Given(calls, EVERYTHING) == map[0 := a, 1 := b, 2 := c]
    requires a.Valid() && b.Valid() && c.Valid() && a.window == 0 && b.window == 1 && c.window == 2
    ensures readings == [Evaluate(a), Evaluate(b), Evaluate(c)]
    ensures Rebuilt(dbs[|calls|], EVERYTHING) == Timeline(EVERYTHING, readings)
  {
    readings := MaterialisedView(calls, dbs, EVERYTHING);
    ListsThree(a, b, c, Given(calls, EVERYTHING));
    SameListing(readings, [Evaluate(a), Evaluate(b), Evaluate(c)], Given(calls, EVERYTHING));
  }

  /**
   * A correction stamped at or before the run it corrects, as two events in one second or a late event give,
   * is missed: nothing is active any more, but the query may still answer the ACTIVE row of the older run.
   */
  lemma LateRunIsMissed(first: int, second: int) returns (calls: seq<Call>, dbs: seq<Db>, row: HistoryRow)
    requires second <= first
    ensures IsRun(calls, dbs) && |calls| == 2 && calls[0].at == first && calls[1].at == second
    ensures ActiveAt(calls, dbs, EVERYTHING, first) == None
    ensures row.status == Active && Answers(dbs[2].history, EVERYTHING, first, Some(row))
    ensures !LastRunDecides(calls, dbs, EVERYTHING, first)
  {
    calls := [Call([BadWindow(0), BadWindow(1), BadWindow(2)], first), Call([GoodWindow(1)], second)];
    dbs := RunExists(calls);
    CorrectedTimelines(calls, dbs);
    row := ActiveAfter(calls, dbs, EVERYTHING, 0).value;
    RunHolds(calls, dbs, EVERYTHING, 0);
    assert IsNewest(calls, dbs, EVERYTHING, first, 0);
    NewestAnswers(calls, dbs, EVERYTHING, first, 0);
  }
}

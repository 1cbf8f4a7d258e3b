/**
 * Stage 2 on its keyed table: saving a window, and recalculating the windows of late events so that the table
 * matches a full computation again.
 */
module LateEvents {
  import opened Common
  import opened Attempts
  import opened Degradation
  import opened Analytics

  type Table = map<Key, Health>

  /** get_events_in_window. */
  function Select(events: seq<Payment>, start: int, end: int): seq<Payment> {
    if events == [] then []
    else
      var n := |events| - 1;
      Select(events[..n], start, end)
      + (if InWindow(events[n], start, end) && events[n].source != PAYPAL then [events[n]] else [])
  }

  /** get_events_ingested_after. */
  function IngestedAfter(events: seq<Payment>, since: int): seq<Payment> {
    if events == [] then []
    else
      var n := |events| - 1;
      IngestedAfter(events[..n], since)
      + (if events[n].ingestedAt > since && events[n].source != PAYPAL then [events[n]] else [])
  }

  function IngestedBy(events: seq<Payment>, since: int): seq<Payment> {
    if events == [] then []
    else
      var n := |events| - 1;
      IngestedBy(events[..n], since) + (if events[n].ingestedAt <= since then [events[n]] else [])
  }

  /** The start of the five-minute window around a time, counted from a full hour. */
  function WindowStart(t: int): (start: int)
    ensures start % WINDOW == 0 && start <= t < start + WINDOW
  {
    t - t % WINDOW
  }

  /** Keyed rows, a later one replacing an earlier one. */
  function AsMap(rows: seq<Row>): Table {
    if rows == [] then map[] else AsMap(rows[..|rows| - 1])[rows[|rows| - 1].key := rows[|rows| - 1].health]
  }

  /** A full computation of one window over the given events. */
  function Full(events: seq<Payment>, start: int): Table {
    AsMap(RowsOver(Select(events, start, start + WINDOW), start, start + WINDOW, DIMENSIONS))
  }

  function Affected(events: seq<Payment>, since: int): set<int> {
    WindowsOf(IngestedAfter(events, since))
  }

  function WindowsOf(late: seq<Payment>): set<int> {
    set e <- late :: WindowStart(e.timestamp)
  }

  lemma WindowsMore(late: seq<Payment>, i: nat)
    requires i < |late|
    ensures WindowsOf(late[..i + 1]) == WindowsOf(late[..i]) + {WindowStart(late[i].timestamp)}
  {
    assert late[..i + 1] == late[..i] + [late[i]];
  }

  /** The table after some windows were recomputed: their rows are replaced, all other rows stay. */
  ghost predicate Refreshed(before: Table, after: Table, events: seq<Payment>, windows: set<int>) {
    && (forall k :: k in after <==> k in before || (k.start in windows && k in Full(events, k.start)))
    && (forall k <- after ::
          after[k] == if k.start in windows && k in Full(events, k.start) then Full(events, k.start)[k] else before[k])
  }

  class PaymentHealthAnalyticsService {
    var events: seq<Payment>
    var snapshots: Table

    constructor (events: seq<Payment>)
      ensures this.events == events && snapshots == map[]
    {
      this.events, snapshots := events, map[];
    }

    method UpsertSnapshots(rows: seq<Row>)
      modifies this`snapshots
      ensures snapshots == old(snapshots) + AsMap(rows)
    {
      for i := 0 to |rows|
        invariant snapshots == old(snapshots) + AsMap(rows[..i])
      {
        assert rows[..i + 1][..i] == rows[..i];
        snapshots := snapshots[rows[i].key := rows[i].health];
      }
      assert rows[..|rows|] == rows;
    }

    method CalculateAndSaveWindow(start: int, end: int)
      modifies this`snapshots
      ensures snapshots == old(snapshots) + AsMap(RowsOver(Select(events, start, end), start, end, DIMENSIONS))
    {
      var rows := CalculateHealthMetricsForWindow(Select(events, start, end), start, end);
      UpsertSnapshots(rows);
    }

    method RecalculateLateEvents(since: int)
      modifies this`snapshots
      ensures Refreshed(old(snapshots), snapshots, events, Affected(events, since))
    {
      var late := IngestedAfter(events, since);
      var windows: set<int> := {};
      for i := 0 to |late|
        invariant windows == WindowsOf(late[..i]) && snapshots == old(snapshots)
      {
        WindowsMore(late, i);
        windows := windows + {WindowStart(late[i].timestamp)};
      }
      assert late[..|late|] == late;
      var todo := windows;
      ghost var done: set<int> := {};
      NothingRefreshed(snapshots, events);
      while todo != {}
        invariant done + todo == windows && done !! todo
        invariant Refreshed(old(snapshots), snapshots, events, done)
        decreases |todo|
      {
        var w :| w in todo;
        ghost var before := snapshots;
        CalculateAndSaveWindow(w, w + WINDOW);
        RefreshOneMore(old(snapshots), before, events, done, w);
        todo, done := todo - {w}, done + {w};
      }
      assert done == windows;
    }
  }

  // ---------------------------------------------------------------------------
  // What a full computation holds
  // ---------------------------------------------------------------------------

  lemma {:induction false} AsMapMeaning(rows: seq<Row>, inside: seq<Payment>, k: Key)
    requires forall r <- rows :: r.health == HealthAt(inside, r.key)
    ensures k in AsMap(rows) <==> Row(k, HealthAt(inside, k)) in rows
    ensures k in AsMap(rows) ==> AsMap(rows)[k] == HealthAt(inside, k)
  {
    if rows != [] {
      var front, last := rows[..|rows| - 1], rows[|rows| - 1];
      assert rows == front + [last];
      assert last in rows && forall r <- front :: r in rows;
      AsMapMeaning(front, inside, k);
    }
  }

  /** At key k: the window has a row exactly for a reported segment, and it holds the health of that segment. */
  predicate HoldsSegment(table: Table, inside: seq<Payment>, start: int, end: int, k: Key) {
    && (k in table <==> k.start == start && k.end == end && k.value in Reported(inside, start, end, k.dimension))
    && (k in table ==> table[k] == HealthAt(inside, k))
  }

  lemma AsMapOfRows(inside: seq<Payment>, start: int, end: int, dimensions: seq<Dimension>, k: Key)
    requires Within(inside, start, end) == inside && k.dimension in dimensions
    ensures HoldsSegment(AsMap(RowsOver(inside, start, end, dimensions)), inside, start, end, k)
  {
    var rows := RowsOver(inside, start, end, dimensions);
    forall r | r in rows
      ensures r.health == HealthAt(inside, r.key)
    {
      RowsOverMeaning(inside, start, end, dimensions, r);
    }
    AsMapMeaning(rows, inside, k);
    RowsOverMeaning(inside, start, end, dimensions, Row(k, HealthAt(inside, k)));
  }

  lemma {:induction false} SelectedByHand(events: seq<Payment>, k: Key)
    ensures TallyOf(Group(Select(events, k.start, k.end), k.dimension, k.value)) == ByHand(events, k, false)
  {
    if events != [] {
      var front, e := events[..|events| - 1], events[|events| - 1];
      assert events == front + [e];
      SelectedByHand(front, k);
      SelectMore(front, e, k.start, k.end);
      ByHandMore(front, e, k, false);
      ValueInMeaning(e, k.dimension, k.value);
      if InWindow(e, k.start, k.end) && e.source != PAYPAL {
        GroupWithOneMore(Select(front, k.start, k.end), e, k.dimension, k.value);
      } else {
        assert Select(events, k.start, k.end) == Select(front, k.start, k.end);
      }
    }
  }

  /** A counted event of a provider other than PayPal, or the GLOBAL row of a window without any. */
  ghost predicate IsDue(events: seq<Payment>, start: int, k: Key) {
    && k.start == start && k.end == start + WINDOW
    && (|| (exists e <- events :: IsCounted(e, k, false))
        || (k.dimension == Global && k.value == "ALL"
            && forall e <- events :: e.source != "paypal" ==> !(start <= e.timestamp < start + WINDOW)))
  }

  lemma DueIsReported(events: seq<Payment>, start: int, k: Key)
    ensures IsReported(Select(events, start, start + WINDOW), start, start + WINDOW, k) <==> IsDue(events, start, k)
  {
    var inside := Select(events, start, start + WINDOW);
    forall e: Payment
      ensures e in inside <==> e in events && InWindow(e, start, start + WINDOW) && e.source != PAYPAL
    {
      SelectMeaning(events, start, start + WINDOW, e);
    }
    assert inside != [] ==> inside[0] in inside;
  }

  /**
   * A full computation has a row exactly for a segment with an event of a provider other than PayPal in the
   * window, or the GLOBAL row of a window without any, and it measures exactly those events.
   */
  lemma FullMeasures(events: seq<Payment>, start: int, k: Key)
    ensures k in Full(events, start) <==> IsDue(events, start, k)
    ensures k in Full(events, start) ==> Measures(events, k, false, Full(events, start)[k])
  {
    FullMeaning(events, start, k);
    DueIsReported(events, start, k);
    if k.start == start && k.end == start + WINDOW {
      ReportedMeaning(Select(events, start, start + WINDOW), start, start + WINDOW, k);
      SelectedByHand(events, k);
      HealthMeasures(events, k, false, ByHand(events, k, false));
    }
  }

  /** A full computation holds one row per reported segment, with the health of exactly that segment's events. */
  lemma FullMeaning(events: seq<Payment>, start: int, k: Key)
    ensures HoldsSegment(Full(events, start), Select(events, start, start + WINDOW), start, start + WINDOW, k)
  {
    EveryDimension(k.dimension);
    SelectedIsWithin(events, start, start + WINDOW);
    AsMapOfRows(Select(events, start, start + WINDOW), start, start + WINDOW, DIMENSIONS, k);
  }

  lemma {:induction false} SelectedIsWithin(events: seq<Payment>, start: int, end: int)
    ensures Within(Select(events, start, end), start, end) == Select(events, start, end)
  {
    if events != [] {
      var n := |events| - 1;
      SelectedIsWithin(events[..n], start, end);
      WithinMore(Select(events[..n], start, end), events[n], start, end);
      assert Select(events[..n], start, end) + [] == Select(events[..n], start, end);
    }
  }

  lemma NothingRefreshed(before: Table, events: seq<Payment>)
    ensures Refreshed(before, before, events, {})
  {
  }

  lemma RefreshOneMore(before: Table, mid: Table, events: seq<Payment>, windows: set<int>, w: int)
    requires Refreshed(before, mid, events, windows)
    ensures Refreshed(before, mid + Full(events, w), events, windows + {w})
  {
    forall k
      ensures k in Full(events, w) ==> k.start == w
    {
      FullMeaning(events, w, k);
    }
  }

  // ---------------------------------------------------------------------------
  // Late events
  // ---------------------------------------------------------------------------

  lemma {:induction false} SelectMeaning(events: seq<Payment>, start: int, end: int, e: Payment)
    ensures e in Select(events, start, end) <==> e in events && InWindow(e, start, end) && e.source != PAYPAL
  {
    if events != [] {
      assert events == events[..|events| - 1] + [events[|events| - 1]];
      SelectMeaning(events[..|events| - 1], start, end, e);
    }
  }

  lemma {:induction false} IngestedMeaning(events: seq<Payment>, since: int, e: Payment)
    ensures e in IngestedAfter(events, since) <==> e in events && e.ingestedAt > since && e.source != PAYPAL
    ensures e in IngestedBy(events, since) <==> e in events && e.ingestedAt <= since
  {
    if events != [] {
      assert events == events[..|events| - 1] + [events[|events| - 1]];
      IngestedMeaning(events[..|events| - 1], since, e);
    }
  }

  lemma SelectMore(events: seq<Payment>, e: Payment, start: int, end: int)
    ensures Select(events + [e], start, end)
            == Select(events, start, end) + (if InWindow(e, start, end) && e.source != PAYPAL then [e] else [])
  {
    assert (events + [e])[..|events|] == events;
  }

  lemma IngestedMore(events: seq<Payment>, e: Payment, since: int)
    ensures IngestedBy(events + [e], since) == IngestedBy(events, since) + (if e.ingestedAt <= since then [e] else [])
  {
    assert (events + [e])[..|events|] == events;
  }

  lemma AffectedGrows(events: seq<Payment>, e: Payment, since: int)
    ensures Affected(events, since) <= Affected(events + [e], since)
  {
    forall x | x in IngestedAfter(events, since)
      ensures x in IngestedAfter(events + [e], since)
    {
      IngestedMeaning(events, since, x);
      IngestedMeaning(events + [e], since, x);
    }
  }

  /** A window without late events reads the same events as before them. */
  lemma {:induction false} QuietWindow(events: seq<Payment>, since: int, start: int)
    requires start % WINDOW == 0 && start !in Affected(events, since)
    ensures Select(IngestedBy(events, since), start, start + WINDOW) == Select(events, start, start + WINDOW)
  {
    if events != [] {
      var front, last := events[..|events| - 1], events[|events| - 1];
      assert events == front + [last];
      AffectedGrows(front, last, since);
      QuietWindow(front, since, start);
      QuietOneMore(front, last, since, start);
    }
  }

  lemma QuietOneMore(front: seq<Payment>, last: Payment, since: int, start: int)
    requires start % WINDOW == 0 && start !in Affected(front + [last], since)
    requires Select(IngestedBy(front, since), start, start + WINDOW) == Select(front, start, start + WINDOW)
    ensures Select(IngestedBy(front + [last], since), start, start + WINDOW)
            == Select(front + [last], start, start + WINDOW)
  {
    var early := IngestedBy(front, since);
    SelectMore(front, last, start, start + WINDOW);
    IngestedMore(front, last, since);
    if last.ingestedAt <= since {
      SelectMore(early, last, start, start + WINDOW);
    } else {
      assert IngestedBy(front + [last], since) == early;
      assert Select(front, start, start + WINDOW) + [] == Select(front, start, start + WINDOW);
      LateMeansAffected(front + [last], since, last, start);
    }
  }

  lemma LateMeansAffected(events: seq<Payment>, since: int, e: Payment, start: int)
    requires e in events && e.ingestedAt > since
    requires start % WINDOW == 0 && start !in Affected(events, since)
    ensures !(InWindow(e, start, start + WINDOW) && e.source != PAYPAL)
  {
    IngestedMeaning(events, since, e);
    if InWindow(e, start, start + WINDOW) {
      SameWindow(e.timestamp, start);
    }
  }

  lemma SameWindow(t: int, start: int)
    requires start % WINDOW == 0 && start <= t < start + WINDOW
    ensures WindowStart(t) == start
  {
    assert WINDOW == 300000000;
  }

  /** More events never remove a segment from a window that has any. */
  lemma FullGrows(events: seq<Payment>, since: int, start: int, k: Key)
    requires k in Full(IngestedBy(events, since), start)
    requires Select(events, start, start + WINDOW) != []
    ensures k in Full(events, start)
  {
    var early := Select(IngestedBy(events, since), start, start + WINDOW);
    var all := Select(events, start, start + WINDOW);
    FullMeaning(IngestedBy(events, since), start, k);
    FullMeaning(events, start, k);
    SelectedIsWithin(IngestedBy(events, since), start, start + WINDOW);
    SelectedIsWithin(events, start, start + WINDOW);
    ValuesMeaning(early, k.dimension, k.value);
    ValuesMeaning(all, k.dimension, k.value);
    if early == [] && k.dimension == Global {
      assert all[0] in all && ValueIn(all[0], Global) == "ALL";
    } else {
      var e :| e in early && ValueIn(e, k.dimension) == k.value;
      SelectMeaning(IngestedBy(events, since), start, start + WINDOW, e);
      IngestedMeaning(events, since, e);
      SelectMeaning(events, start, start + WINDOW, e);
    }
  }

  /**
   * The stored rows of a window are those of a full computation over the events. A window without events
   * may have no row at all.
   */
  ghost predicate FreshAt(table: Table, events: seq<Payment>, start: int) {
    Holds(table, Full(events, start), start, Select(events, start, start + WINDOW) != [])
  }

  ghost predicate Holds(table: Table, full: Table, start: int, complete: bool) {
    && (forall k <- table :: k.start == start && k.end == start + WINDOW ==> k in full && table[k] == full[k])
    && (complete ==> forall k <- full :: k in table)
  }

  ghost predicate Fresh(table: Table, events: seq<Payment>) {
    forall start :: start % WINDOW == 0 ==> FreshAt(table, events, start)
  }

  lemma AffectedIsFresh(before: Table, after: Table, events: seq<Payment>, since: int, start: int)
    requires FreshAt(before, IngestedBy(events, since), start)
    requires Refreshed(before, after, events, Affected(events, since))
    requires start % WINDOW == 0 && start in Affected(events, since)
    ensures FreshAt(after, events, start)
  {
    var e :| e in IngestedAfter(events, since) && WindowStart(e.timestamp) == start;
    IngestedMeaning(events, since, e);
    SelectMeaning(events, start, start + WINDOW, e);
    forall k | k in after && k.start == start && k.end == start + WINDOW
      ensures k in Full(events, start) && after[k] == Full(events, start)[k]
    {
      if k in before {
        FullGrows(events, since, start, k);
      }
    }
    forall k | k in Full(events, start)
      ensures k in after
    {
      FullMeaning(events, start, k);
    }
  }

  /** The rows of a window agree in two tables. */
  ghost predicate SameRows(before: Table, after: Table, start: int) {
    forall k: Key :: k.start == start ==> (k in after <==> k in before) && (k in before ==> after[k] == before[k])
  }

  lemma OthersStay(before: Table, after: Table, events: seq<Payment>, windows: set<int>, start: int)
    requires Refreshed(before, after, events, windows) && start !in windows
    ensures SameRows(before, after, start)
  {
  }

  lemma SameRowsHold(before: Table, after: Table, full: Table, start: int, complete: bool)
    requires Holds(before, full, start, complete) && SameRows(before, after, start)
    requires forall k <- full :: k.start == start
    ensures Holds(after, full, start, complete)
  {
  }

  lemma SameFull(events: seq<Payment>, others: seq<Payment>, start: int)
    requires Select(events, start, start + WINDOW) == Select(others, start, start + WINDOW)
    ensures Full(events, start) == Full(others, start)
  {
  }

  lemma QuietStaysFresh(before: Table, after: Table, events: seq<Payment>, since: int, start: int)
    requires FreshAt(before, IngestedBy(events, since), start)
    requires Refreshed(before, after, events, Affected(events, since))
    requires start % WINDOW == 0 && start !in Affected(events, since)
    ensures FreshAt(after, events, start)
  {
    QuietWindow(events, since, start);
    SameFull(IngestedBy(events, since), events, start);
    OthersStay(before, after, events, Affected(events, since), start);
    var full, complete := Full(events, start), Select(events, start, start + WINDOW) != [];
    forall k | k in full
      ensures k.start == start
    {
      FullMeaning(events, start, k);
    }
    SameRowsHold(before, after, full, start, complete);
  }

  /**
   * If the table matched all events ingested up to a time, then after the recalculation for the events
   * ingested since it matches a full computation over all events, in every window.
   */
  lemma LateRecalculation(before: Table, after: Table, events: seq<Payment>, since: int)
    requires Fresh(before, IngestedBy(events, since))
    requires Refreshed(before, after, events, Affected(events, since))
    ensures Fresh(after, events)
  {
    forall start | start % WINDOW == 0
      ensures FreshAt(after, events, start)
    {
      if start in Affected(events, since) {
        AffectedIsFresh(before, after, events, since, start);
      } else {
        QuietStaysFresh(before, after, events, since, start);
      }
    }
  }
}

/** Stage 3 storage: versioned signals, the episode table and the append-only assertion history. */
module DegradationLedger {
  import opened Common
  import opened Degradation

  datatype HistoryRow = HistoryRow(run: nat, id: EpisodeId, status: EpisodeStatus, severity: Severity, at: int)

  datatype Db = Db(signals: seq<Signal>, episodes: map<EpisodeId, Episode>, history: seq<HistoryRow>)

  // ---------------------------------------------------------------------------
  // Queries
  // ---------------------------------------------------------------------------

  function MaxVersion(signals: seq<Signal>, segment: Segment, window: int): (v: nat)
    ensures forall s <- signals :: s.segment == segment && s.reading.window == window ==> s.version <= v
    ensures v == 0 || exists s <- signals :: s.segment == segment && s.reading.window == window && s.version == v
  {
    if signals == [] then 0
    else
      var n := |signals| - 1;
      var v := MaxVersion(signals[..n], segment, window);
      if signals[n].segment == segment && signals[n].reading.window == window && signals[n].version > v
      then signals[n].version else v
  }

  /** Adds one row to a chronological list that keeps only the highest version of each window. */
  function Keep(list: seq<Signal>, s: Signal): seq<Signal> {
    if list == [] || s.reading.window < list[0].reading.window then [s] + list
    else if s.reading.window == list[0].reading.window then
      if s.version > list[0].version then [s] + list[1..] else list
    else [list[0]] + Keep(list[1..], s)
  }

  /** SELECT DISTINCT ON (window_start) ... ORDER BY window_start, evaluation_version DESC. */
  function Latest(signals: seq<Signal>, segment: Segment): seq<Signal> {
    if signals == [] then []
    else
      var n := |signals| - 1;
      var rest := Latest(signals[..n], segment);
      if signals[n].segment == segment then Keep(rest, signals[n]) else rest
  }

  ghost predicate Chronological(list: seq<Signal>) {
    forall i, j :: 0 <= i < j < |list| ==> list[i].reading.window < list[j].reading.window
  }

  /** Some row of the list stands for the window of s at its version or a higher one. */
  ghost predicate Represented(list: seq<Signal>, s: Signal) {
    exists x <- list :: x.reading.window == s.reading.window && x.version >= s.version
  }

  lemma {:induction false} KeepStaysChronological(list: seq<Signal>, s: Signal)
    requires Chronological(list)
    ensures Chronological(Keep(list, s))
    ensures forall x <- Keep(list, s) :: x in list || x == s
  {
    if list != [] && s.reading.window > list[0].reading.window {
      KeepStaysChronological(list[1..], s);
      var tail := Keep(list[1..], s);
      forall i | 0 <= i < |tail|
        ensures list[0].reading.window < tail[i].reading.window
      {
        assert tail[i] in list[1..] || tail[i] == s;
      }
    }
  }

  lemma {:induction false} KeepKeeps(list: seq<Signal>, s: Signal)
    ensures forall x <- list :: Represented(Keep(list, s), x)
    ensures Represented(Keep(list, s), s)
  {
    var kept := Keep(list, s);
    if list == [] || s.reading.window < list[0].reading.window {
      assert kept[0] == s && forall x <- list :: x in kept;
    } else if s.reading.window == list[0].reading.window {
      assert list == [list[0]] + list[1..];
      assert kept[0] in kept && forall x <- list[1..] :: x in kept;
    } else {
      assert list == [list[0]] + list[1..];
      KeepKeeps(list[1..], s);
      assert kept[0] in kept && forall x <- Keep(list[1..], s) :: x in kept;
    }
  }

  lemma KeepMeaning(list: seq<Signal>, s: Signal)
    requires Chronological(list)
    ensures Chronological(Keep(list, s))
    ensures forall x <- Keep(list, s) :: x in list || x == s
    ensures forall x <- list :: Represented(Keep(list, s), x)
    ensures Represented(Keep(list, s), s)
  {
    KeepStaysChronological(list, s);
    KeepKeeps(list, s);
  }

  lemma KeepRepresents(list: seq<Signal>, s: Signal, x: Signal)
    requires Chronological(list) && Represented(list, x)
    ensures Represented(Keep(list, s), x)
  {
    KeepMeaning(list, s);
    var y :| y in list && y.reading.window == x.reading.window && y.version >= x.version;
    assert Represented(Keep(list, s), y);
  }

  /** What the query returns: one row per window, in order, each of the highest version stored. */
  ghost predicate IsDistinctOn(signals: seq<Signal>, segment: Segment, list: seq<Signal>) {
    && Chronological(list)
    && (forall x <- list :: x in signals && x.segment == segment)
    && (forall s {:trigger Represented(list, s)} :: s in signals && s.segment == segment ==> Represented(list, s))
  }

  lemma KeepDistinctOn(signals: seq<Signal>, segment: Segment, list: seq<Signal>, s: Signal)
    requires IsDistinctOn(signals, segment, list)
    ensures IsDistinctOn(signals + [s], segment, if s.segment == segment then Keep(list, s) else list)
  {
    if s.segment == segment {
      KeepMeaning(list, s);
      forall x | x in signals && x.segment == segment
        ensures Represented(Keep(list, s), x)
      {
        assert Represented(list, x);
        KeepRepresents(list, s, x);
      }
    }
  }

  lemma {:induction false} LatestMeaning(signals: seq<Signal>, segment: Segment)
    ensures IsDistinctOn(signals, segment, Latest(signals, segment))
  {
    if signals != [] {
      var n := |signals| - 1;
      LatestMeaning(signals[..n], segment);
      KeepDistinctOn(signals[..n], segment, Latest(signals[..n], segment), signals[n]);
      assert signals == signals[..n] + [signals[n]];
    }
  }

  // ---------------------------------------------------------------------------
  // process_snapshots
  // ---------------------------------------------------------------------------

  /** sorted(snapshots, key=window_start), which is stable. */
  function SortByWindow(snapshots: seq<Snapshot>): seq<Snapshot> {
    if snapshots == [] then [] else InsertFirst(snapshots[0], SortByWindow(snapshots[1..]))
  }

  function InsertFirst(s: Snapshot, sorted: seq<Snapshot>): seq<Snapshot> {
    if sorted == [] || s.window <= sorted[0].window then [s] + sorted
    else [sorted[0]] + InsertFirst(s, sorted[1..])
  }

  ghost predicate OneSegment(snapshots: seq<Snapshot>, segment: Segment) {
    forall s <- snapshots :: s.segment == segment && s.Valid()
  }

  function NextSignal(signals: seq<Signal>, s: Snapshot, at: int): Signal
    requires s.Valid()
  {
    Signal(s.segment, MaxVersion(signals, s.segment, s.window) + 1, at, Evaluate(s))
  }

  function AppendSignals(signals: seq<Signal>, snapshots: seq<Snapshot>, at: int): seq<Signal>
    requires forall s <- snapshots :: s.Valid()
  {
    if snapshots == [] then signals
    else
      var n := |snapshots| - 1;
      var before := AppendSignals(signals, snapshots[..n], at);
      before + [NextSignal(before, snapshots[n], at)]
  }

  function ById(episodes: seq<Episode>): map<EpisodeId, Episode> {
    if episodes == [] then map[]
    else ById(episodes[..|episodes| - 1])[episodes[|episodes| - 1].id := episodes[|episodes| - 1]]
  }

  function RowOf(run: nat, at: int, e: Episode): HistoryRow {
    HistoryRow(run, e.id, e.status, e.severity, at)
  }

  function RowsOf(run: nat, at: int, episodes: seq<Episode>): seq<HistoryRow> {
    seq(|episodes|, i requires 0 <= i < |episodes| => RowOf(run, at, episodes[i]))
  }

  /** Stored episodes of the segment that the rebuilt timeline no longer asserts. */
  function StaleIds(episodes: map<EpisodeId, Episode>, segment: Segment, valid: set<EpisodeId>): set<EpisodeId> {
    set id <- episodes | id.segment == segment && id !in valid && episodes[id].status != Invalidated
  }

  function Stale(episodes: map<EpisodeId, Episode>, segment: Segment, valid: seq<Episode>): set<EpisodeId> {
    StaleIds(episodes, segment, ById(valid).Keys)
  }

  function Invalidate(e: Episode): Episode {
    e.(status := Invalidated)
  }

  function InvalidateAll(episodes: map<EpisodeId, Episode>, ids: set<EpisodeId>): map<EpisodeId, Episode> {
    map id <- episodes :: if id in ids then Invalidate(episodes[id]) else episodes[id]
  }

  function Reconcile(episodes: map<EpisodeId, Episode>, segment: Segment, valid: seq<Episode>): map<EpisodeId, Episode> {
    InvalidateAll(episodes, Stale(episodes, segment, valid)) + ById(valid)
  }

  /** Exactly one INVALIDATED assertion per episode of `ids`, in the order the database listed them. */
  ghost predicate StaleRows(
    episodes: map<EpisodeId, Episode>, ids: set<EpisodeId>, run: nat, at: int, rows: seq<HistoryRow>)
  {
    && ids <= episodes.Keys
    && |rows| == |ids|
    && (forall row <- rows :: row.id in ids && row == RowOf(run, at, Invalidate(episodes[row.id])))
    && (forall id <- ids :: exists row <- rows :: row.id == id)
  }

  lemma AddStaleRow(
    episodes: map<EpisodeId, Episode>, ids: set<EpisodeId>, run: nat, at: int, rows: seq<HistoryRow>, id: EpisodeId)
    requires StaleRows(episodes, ids, run, at, rows) && id in episodes && id !in ids && episodes[id].id == id
    ensures StaleRows(episodes, ids + {id}, run, at, rows + [RowOf(run, at, Invalidate(episodes[id]))])
  {
    var row := RowOf(run, at, Invalidate(episodes[id]));
    assert row in rows + [row];
    forall other | other in ids
      ensures exists r <- rows + [row] :: r.id == other
    {
      var r :| r in rows && r.id == other;
      assert r in rows + [row];
    }
  }

  lemma NothingStaleYet(episodes: map<EpisodeId, Episode>, run: nat, at: int)
    ensures InvalidateAll(episodes, {}) == episodes
    ensures StaleRows(episodes, {}, run, at, [])
  {
  }

  /** One assertion per stale episode, then one per valid episode in timeline order. */
  ghost predicate Asserted(
    episodes: map<EpisodeId, Episode>, before: seq<HistoryRow>, after: seq<HistoryRow>,
    segment: Segment, valid: seq<Episode>, run: nat, at: int)
  {
    var stale := Stale(episodes, segment, valid);
    var h := |before|;
    && |after| == h + |stale| + |valid|
    && after[..h] == before
    && StaleRows(episodes, stale, run, at, after[h..h + |stale|])
    && after[h + |stale|..] == RowsOf(run, at, valid)
  }

  ghost predicate Processed(before: Db, snapshots: seq<Snapshot>, at: int, run: nat, after: Db)
    requires snapshots != [] ==> OneSegment(snapshots, snapshots[0].segment)
  {
    if snapshots == [] then after == before
    else
      var segment := snapshots[0].segment;
      var valid := Timeline(segment, Readings(Latest(after.signals, segment)));
      && (forall s <- SortByWindow(snapshots) :: s.Valid())
      && after.signals == AppendSignals(before.signals, SortByWindow(snapshots), at)
      && after.episodes == Reconcile(before.episodes, segment, valid)
      && Asserted(before.episodes, before.history, after.history, segment, valid, run, at)
  }

  lemma {:induction false} SortKeeps(snapshots: seq<Snapshot>)
    ensures multiset(SortByWindow(snapshots)) == multiset(snapshots)
    ensures forall s :: s in SortByWindow(snapshots) <==> s in snapshots
  {
    if snapshots != [] {
      SortKeeps(snapshots[1..]);
      InsertKeeps(snapshots[0], SortByWindow(snapshots[1..]));
      assert snapshots == [snapshots[0]] + snapshots[1..];
    }
    forall s
      ensures s in SortByWindow(snapshots) <==> s in snapshots
    {
      assert s in SortByWindow(snapshots) <==> s in multiset(SortByWindow(snapshots));
      assert s in snapshots <==> s in multiset(snapshots);
    }
  }

  lemma {:induction false} InsertKeeps(s: Snapshot, sorted: seq<Snapshot>)
    ensures multiset(InsertFirst(s, sorted)) == multiset([s] + sorted)
  {
    if sorted != [] && s.window > sorted[0].window {
      InsertKeeps(s, sorted[1..]);
      assert sorted == [sorted[0]] + sorted[1..];
    }
  }

  class DegradationRepository {
    var signals: seq<Signal>
    var episodes: map<EpisodeId, Episode>
    var history: seq<HistoryRow>

    constructor ()
      ensures Contents() == Db([], map[], [])
    {
      signals, episodes, history := [], map[], [];
    }

    function Contents(): Db
      reads this
    {
      Db(signals, episodes, history)
    }

    ghost predicate Keyed()
      reads this
    {
      forall id <- episodes :: episodes[id].id == id
    }

    method AppendSignal(s: Signal)
      modifies this`signals
      ensures signals == old(signals) + [s]
    {
      signals := signals + [s];
    }

    method UpsertEpisode(e: Episode, run: nat, at: int)
      requires Keyed()
      modifies this`episodes, this`history
      ensures Keyed()
      ensures episodes == old(episodes)[e.id := e]
      ensures history == old(history) + [RowOf(run, at, e)]
      ensures var row := history[|old(history)|];
              row.id == e.id && row.status == e.status && row.severity == e.severity && row.run == run && row.at == at
    {
      episodes := episodes[e.id := e];
      history := history + [RowOf(run, at, e)];
    }

    /** The rows of a segment, in whatever order the database lists them. */
    method GetEpisodesForSegment(segment: Segment) returns (ids: seq<EpisodeId>)
      ensures forall i, j :: 0 <= i < j < |ids| ==> ids[i] != ids[j]
      ensures forall id :: id in ids <==> id in episodes && id.segment == segment
    {
      ids := [];
      var todo := set id <- episodes | id.segment == segment;
      while todo != {}
        invariant forall i, j :: 0 <= i < j < |ids| ==> ids[i] != ids[j]
        invariant forall id :: id in ids || id in todo <==> id in episodes && id.segment == segment
        invariant forall id <- ids :: id !in todo
        decreases |todo|
      {
        var id :| id in todo;
        ids, todo := ids + [id], todo - {id};
      }
    }
  }

  lemma {:induction false} ByIdMeaning(episodes: seq<Episode>)
    ensures forall id :: id in ById(episodes) <==> exists e <- episodes :: e.id == id
    ensures forall id <- ById(episodes) :: ById(episodes)[id] in episodes && ById(episodes)[id].id == id
  {
    if episodes != [] {
      var n := |episodes| - 1;
      ByIdMeaning(episodes[..n]);
      assert episodes == episodes[..n] + [episodes[n]];
      assert episodes[n] in episodes;
    }
  }

  /** The listed episodes that are no longer valid. */
  ghost function StaleIn(episodes: map<EpisodeId, Episode>, valid: set<EpisodeId>, ids: seq<EpisodeId>): set<EpisodeId> {
    set id <- ids | id in episodes && id !in valid && episodes[id].status != Invalidated
  }

  lemma OneMoreId(episodes: map<EpisodeId, Episode>, valid: set<EpisodeId>, ids: seq<EpisodeId>, i: nat)
    requires i < |ids| && ids[i] in episodes && forall j, k :: 0 <= j < k < |ids| ==> ids[j] != ids[k]
    ensures ids[i] !in StaleIn(episodes, valid, ids[..i])
    ensures StaleIn(episodes, valid, ids[..i + 1])
            == StaleIn(episodes, valid, ids[..i])
               + (if ids[i] !in valid && episodes[ids[i]].status != Invalidated then {ids[i]} else {})
  {
    assert ids[..i + 1] == ids[..i] + [ids[i]];
  }

  /** The rows of one run: first the invalidations, then the rebuilt timeline. */
  lemma RunIsAsserted(
    episodes: map<EpisodeId, Episode>, before: seq<HistoryRow>, middle: seq<HistoryRow>, segment: Segment,
    valid: seq<Episode>, run: nat, at: int)
    requires before <= middle && StaleRows(episodes, Stale(episodes, segment, valid), run, at, middle[|before|..])
    ensures Asserted(episodes, before, middle + RowsOf(run, at, valid), segment, valid, run, at)
  {
    var after, h := middle + RowsOf(run, at, valid), |before|;
    assert after[..h] == before;
    assert after[h..|middle|] == middle[h..];
    assert after[|middle|..] == RowsOf(run, at, valid);
  }

  class DegradationService {
    const repository: DegradationRepository

    constructor (repository: DegradationRepository)
      ensures this.repository == repository
    {
      this.repository := repository;
    }

    method AppendEvaluations(sorted: seq<Snapshot>, segment: Segment, at: int)
      requires OneSegment(sorted, segment)
      modifies repository`signals
      ensures repository.signals == AppendSignals(old(repository.signals), sorted, at)
    {
      for i := 0 to |sorted|
        invariant repository.signals == AppendSignals(old(repository.signals), sorted[..i], at)
      {
        assert sorted[..i + 1][..i] == sorted[..i] && sorted[i] in sorted;
        var maxVersion := MaxVersion(repository.signals, segment, sorted[i].window);
        repository.AppendSignal(Signal(segment, maxVersion + 1, at, Evaluate(sorted[i])));
      }
      assert sorted[..|sorted|] == sorted;
    }

    /** Reads the row as a domain object and, when it is stale, stores it back as invalidated. */
    method InvalidateIfStale(
      id: EpisodeId, valid: set<EpisodeId>, run: nat, at: int, ghost before: map<EpisodeId, Episode>,
      ghost history: seq<HistoryRow>, ghost stale: set<EpisodeId>, ghost rows: seq<HistoryRow>)
      returns (ghost stale': set<EpisodeId>, ghost rows': seq<HistoryRow>)
      requires repository.Keyed() && repository.episodes == InvalidateAll(before, stale)
      requires repository.history == history + rows && StaleRows(before, stale, run, at, rows)
      requires id in before && before[id].id == id && id !in stale
      modifies repository`episodes, repository`history
      ensures repository.Keyed() && repository.episodes == InvalidateAll(before, stale')
      ensures repository.history == history + rows' && StaleRows(before, stale', run, at, rows')
      ensures stale' == stale + (if id !in valid && before[id].status != Invalidated then {id} else {})
    {
      stale', rows' := stale, rows;
      var episode := new DegradationEpisode(repository.episodes[id]);
      if episode.id !in valid && episode.status != Invalidated {
        episode.status := Invalidated;
        repository.UpsertEpisode(episode.Value(), run, at);
        AddStaleRow(before, stale, run, at, rows, id);
        stale', rows' := stale + {id}, rows + [RowOf(run, at, Invalidate(before[id]))];
      }
    }

    method InvalidateStale(segment: Segment, valid: set<EpisodeId>, run: nat, at: int) returns (ghost stale: set<EpisodeId>)
      requires repository.Keyed()
      modifies repository`episodes, repository`history
      ensures repository.Keyed()
      ensures stale == StaleIds(old(repository.episodes), segment, valid)
      ensures repository.episodes == InvalidateAll(old(repository.episodes), stale)
      ensures old(repository.history) <= repository.history
      ensures StaleRows(old(repository.episodes), stale, run, at, repository.history[|old(repository.history)|..])
    {
      var existing := repository.GetEpisodesForSegment(segment);
      ghost var before, history := repository.episodes, repository.history;
      ghost var rows: seq<HistoryRow> := [];
      stale := {};
      NothingStaleYet(before, run, at);
      assert history + rows == history;
      for i := 0 to |existing|
        invariant repository.Keyed() && repository.episodes == InvalidateAll(before, stale)
        invariant stale == StaleIn(before, valid, existing[..i])
        invariant repository.history == history + rows && StaleRows(before, stale, run, at, rows)
      {
        OneMoreId(before, valid, existing, i);
        assert existing[i] in existing;
        stale, rows := InvalidateIfStale(existing[i], valid, run, at, before, history, stale, rows);
      }
      assert existing[..|existing|] == existing;
      assert repository.history[|history|..] == rows;
    }

    method AssertValid(valid: seq<DegradationEpisode>, ghost timeline: seq<Episode>, run: nat, at: int)
      requires repository.Keyed()
      requires |valid| == |timeline| && forall i :: 0 <= i < |valid| ==> valid[i].Value() == timeline[i]
      modifies repository`episodes, repository`history
      ensures repository.Keyed()
      ensures repository.episodes == old(repository.episodes) + ById(timeline)
      ensures repository.history == old(repository.history) + RowsOf(run, at, timeline)
    {
      for i := 0 to |valid|
        invariant repository.Keyed()
        invariant repository.episodes == old(repository.episodes) + ById(timeline[..i])
        invariant repository.history == old(repository.history) + RowsOf(run, at, timeline[..i])
      {
        assert timeline[..i + 1][..i] == timeline[..i];
        repository.UpsertEpisode(valid[i].Value(), run, at);
      }
      assert timeline[..|valid|] == timeline;
    }

    lemma IdsOf(valid: seq<DegradationEpisode>, timeline: seq<Episode>)
      requires |valid| == |timeline| && forall i :: 0 <= i < |valid| ==> valid[i].Value() == timeline[i]
      ensures (set e <- valid :: e.id) == ById(timeline).Keys
    {
      ByIdMeaning(timeline);
      forall i | 0 <= i < |valid|
        ensures valid[i].id == timeline[i].id
      {
        assert valid[i].Value() == timeline[i];
      }
      forall id
        ensures id in (set e <- valid :: e.id) <==> id in ById(timeline)
      {
        if id in ById(timeline) {
          var i :| 0 <= i < |timeline| && timeline[i].id == id;
          assert valid[i] in valid;
        }
        if e :| e in valid && e.id == id {
          var i :| 0 <= i < |valid| && valid[i] == e;
          assert timeline[i] in timeline;
        }
      }
    }

    /** Rebuilds the timeline of the segment and reconciles the stored episodes with it. */
    method Rebuild(segment: Segment, run: nat, at: int)
      requires repository.Keyed()
      modifies repository`episodes, repository`history
      ensures repository.Keyed()
      ensures var valid := Timeline(segment, Readings(Latest(repository.signals, segment)));
              && repository.episodes == Reconcile(old(repository.episodes), segment, valid)
              && Asserted(old(repository.episodes), old(repository.history), repository.history, segment, valid, run, at)
    {
      var latest := Latest(repository.signals, segment);
      LatestMeaning(repository.signals, segment);
      assert latest != [] ==> latest[0] in latest;
      var valid := ReconcileTimeline(latest);
      ghost var timeline := Timeline(segment, Readings(latest));
      IdsOf(valid, timeline);
      var ids := set e <- valid :: e.id;
      ghost var stale := InvalidateStale(segment, ids, run, at);
      ghost var middle := repository.history;
      AssertValid(valid, timeline, run, at);
      RunIsAsserted(old(repository.episodes), old(repository.history), middle, segment, timeline, run, at);
    }

    method ProcessSnapshots(snapshots: seq<Snapshot>, at: int, run: nat)
      requires repository.Keyed()
      requires snapshots != [] ==> OneSegment(snapshots, snapshots[0].segment)
      modifies repository
      ensures repository.Keyed()
      ensures Processed(old(repository.Contents()), snapshots, at, run, repository.Contents())
    {
      if snapshots == [] {
        return;
      }
      var segment := snapshots[0].segment;
      var sorted := SortByWindow(snapshots);
      SortKeeps(snapshots);
      AppendEvaluations(sorted, segment, at);
      Rebuild(segment, run, at);
    }
  }
}

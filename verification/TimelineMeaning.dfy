/** What the episode state machine computes, said without the machine. */
module TimelineMeaning {
  import opened Common
  import opened Degradation

  // ---------------------------------------------------------------------------
  // Neutral signals
  // ---------------------------------------------------------------------------

  predicate IsDecisive(r: Reading) {
    r.kind == Bad || r.kind == Normal
  }

  /** The readings without the LOW_VOLUME and NO_BASELINE ones. */
  function Decisive(readings: seq<Reading>): (d: seq<Reading>)
    ensures forall r <- d :: IsDecisive(r)
  {
    if readings == [] then []
    else
      var n := |readings| - 1;
      Decisive(readings[..n]) + (if IsDecisive(readings[n]) then [readings[n]] else [])
  }

  lemma {:induction false} ReplayIgnoresNeutrals(segment: Segment, readings: seq<Reading>)
    ensures Replay(segment, readings) == Replay(segment, Decisive(readings))
  {
    if readings != [] {
      var n := |readings| - 1;
      ReplayIgnoresNeutrals(segment, readings[..n]);
      if IsDecisive(readings[n]) {
        var d := Decisive(readings);
        assert d[..|d| - 1] == Decisive(readings[..n]) && d[|d| - 1] == readings[n];
      } else {
        assert Decisive(readings) == Decisive(readings[..n]);
      }
    }
  }

  lemma NeutralErasure(segment: Segment, readings: seq<Reading>)
    ensures Timeline(segment, readings) == Timeline(segment, Decisive(readings))
  {
    ReplayIgnoresNeutrals(segment, readings);
  }

  // ---------------------------------------------------------------------------
  // Episodes as spans of the decisive readings
  // ---------------------------------------------------------------------------

  /** The first and the last bad window of an episode, as positions. */
  datatype Span = Span(first: nat, last: nat)

  predicate BadAt(d: seq<Reading>, i: int) {
    0 <= i < |d| && d[i].kind == Bad
  }

  predicate NormalAt(d: seq<Reading>, i: int) {
    0 <= i < |d| && d[i].kind == Normal
  }

  /** Three bad windows in a row open an episode. */
  predicate OpensAt(d: seq<Reading>, i: int) {
    BadAt(d, i) && BadAt(d, i + 1) && BadAt(d, i + 2)
  }

  /** Two normal windows in a row. */
  predicate RecoversAt(d: seq<Reading>, i: int) {
    NormalAt(d, i) && NormalAt(d, i + 1)
  }

  ghost predicate Covers(d: seq<Reading>, s: Span) {
    && s.first + 2 <= s.last
    && OpensAt(d, s.first)
    && BadAt(d, s.last)
    && forall i :: s.first <= i < s.last ==> !RecoversAt(d, i)
  }

  predicate IsClosed(d: seq<Reading>, s: Span) {
    RecoversAt(d, s.last + 1)
  }

  /** Still open: at most one window, a normal one, follows the last bad one. */
  predicate IsOpen(d: seq<Reading>, s: Span) {
    s.last + 1 == |d| || (s.last + 2 == |d| && NormalAt(d, s.last + 1))
  }

  /** Where the search for the k-th episode begins. */
  function SearchFrom(spans: seq<Span>, k: nat): nat
    requires k <= |spans|
  {
    if k == 0 then 0 else spans[k - 1].last + 3
  }

  ghost predicate NothingOpensBetween(d: seq<Reading>, from: int, to: int) {
    forall i :: from <= i < to ==> !OpensAt(d, i)
  }

  /** The k-th span lies after the one before it and opens at the first possible place. */
  ghost predicate Fits(d: seq<Reading>, spans: seq<Span>, k: nat)
    requires k < |spans|
  {
    && SearchFrom(spans, k) <= spans[k].first
    && Covers(d, spans[k])
    && NothingOpensBetween(d, SearchFrom(spans, k), spans[k].first)
  }

  /**
   * The spans are ordered and disjoint, each opens at the first possible place, holds no recovery, ends
   * at its last bad window and is followed by a recovery; only the last may be open; and no three bad
   * windows in a row are left uncovered.
   */
  ghost predicate IsTimeline(d: seq<Reading>, spans: seq<Span>) {
    && (forall k {:trigger Fits(d, spans, k)} :: 0 <= k < |spans| ==> Fits(d, spans, k))
    && (forall k {:trigger IsClosed(d, spans[k])} :: 0 <= k < |spans| - 1 ==> IsClosed(d, spans[k]))
    && (spans != [] ==> IsClosed(d, spans[|spans| - 1]) || IsOpen(d, spans[|spans| - 1]))
    && NothingOpensBetween(d, SearchFrom(spans, |spans|), |d|)
  }

  /** The bad windows among some readings. */
  function Bads(readings: seq<Reading>): (b: seq<Reading>)
    ensures forall r <- b :: r.kind == Bad
  {
    if readings == [] then []
    else
      var n := |readings| - 1;
      Bads(readings[..n]) + (if readings[n].kind == Bad then [readings[n]] else [])
  }

  function Covered(d: seq<Reading>, s: Span): seq<Reading>
    requires s.first <= s.last < |d|
  {
    Bads(d[s.first..s.last + 1])
  }

  /** The maximum of the recorded drops, or of 0.0 and them when the three opening windows record none. */
  ghost predicate IsPeak(bads: seq<Reading>, peak: real)
    requires |bads| >= 3
  {
    && (forall b <- bads :: b.absoluteDrop.Some? ==> b.absoluteDrop.value <= peak)
    && ((exists b <- bads :: b.absoluteDrop == Some(peak))
        || (peak == 0.0 && forall b <- bads[..3] :: b.absoluteDrop.None?))
    && ((forall b <- bads[..3] :: b.absoluteDrop.None?) ==> peak >= 0.0)
  }

  ghost predicate IsWorst(bads: seq<Reading>, severity: Severity) {
    && (forall b <- bads :: Rank(SeverityOf(b)) <= Rank(severity))
    && (exists b <- bads :: SeverityOf(b) == severity)
  }

  /** Everything an episode records about the span it stands for. */
  ghost predicate Describes(segment: Segment, d: seq<Reading>, s: Span, e: Episode) {
    && s.first <= s.last < |d|
    && |Covered(d, s)| >= 3
    && e.id == EpisodeId(segment, d[s.first].window)
    && e.status == (if IsClosed(d, s) then Recovered else Active)
    && e.endedAt == (if IsClosed(d, s) then Some(d[s.last].window) else None)
    && e.count == |Covered(d, s)|
    && IsPeak(Covered(d, s), e.peak)
    && IsWorst(Covered(d, s), e.severity)
  }

  ghost predicate Tells(segment: Segment, d: seq<Reading>, spans: seq<Span>, episodes: seq<Episode>) {
    && IsTimeline(d, spans)
    && |episodes| == |spans|
    && forall k :: 0 <= k < |spans| ==> Describes(segment, d, spans[k], episodes[k])
  }

  // ---------------------------------------------------------------------------
  // At most one timeline fits
  // ---------------------------------------------------------------------------

  lemma SpanFacts(d: seq<Reading>, spans: seq<Span>, k: nat)
    requires IsTimeline(d, spans) && k < |spans|
    ensures Covers(d, spans[k]) && (IsClosed(d, spans[k]) || IsOpen(d, spans[k]))
    ensures SearchFrom(spans, k) <= spans[k].first
    ensures NothingOpensBetween(d, SearchFrom(spans, k), spans[k].first)
  {
    assert Fits(d, spans, k);
    assert k < |spans| - 1 ==> IsClosed(d, spans[k]);
  }

  lemma SameFirst(d: seq<Reading>, from: int, x: Span, y: Span)
    requires Covers(d, x) && from <= x.first && NothingOpensBetween(d, from, x.first)
    requires Covers(d, y) && from <= y.first && NothingOpensBetween(d, from, y.first)
    ensures x.first == y.first
  {
  }

  lemma NoLaterLast(d: seq<Reading>, x: Span, y: Span)
    requires Covers(d, x) && (IsClosed(d, x) || IsOpen(d, x))
    requires Covers(d, y) && x.first == y.first
    ensures y.last <= x.last
  {
    assert BadAt(d, y.last);
    assert y.last > x.last ==> !RecoversAt(d, x.last + 1);
  }

  lemma SameSpan(d: seq<Reading>, a: seq<Span>, b: seq<Span>, k: nat)
    requires IsTimeline(d, a) && IsTimeline(d, b)
    requires k < |a| && k < |b| && a[..k] == b[..k]
    ensures a[k] == b[k]
  {
    if k > 0 {
      assert a[..k][k - 1] == b[..k][k - 1];
    }
    SpanFacts(d, a, k);
    SpanFacts(d, b, k);
    SameFirst(d, SearchFrom(a, k), a[k], b[k]);
    NoLaterLast(d, a[k], b[k]);
    NoLaterLast(d, b[k], a[k]);
  }

  lemma {:induction false} SamePrefix(d: seq<Reading>, a: seq<Span>, b: seq<Span>, k: nat)
    requires IsTimeline(d, a) && IsTimeline(d, b)
    requires k <= |a| && k <= |b|
    ensures a[..k] == b[..k]
  {
    if k > 0 {
      SamePrefix(d, a, b, k - 1);
      SameSpan(d, a, b, k - 1);
      assert a[..k] == a[..k - 1] + [a[k - 1]];
      assert b[..k] == b[..k - 1] + [b[k - 1]];
    }
  }

  /** Where one timeline stops looking, no other one finds an episode. */
  lemma NotShorter(d: seq<Reading>, a: seq<Span>, b: seq<Span>)
    requires IsTimeline(d, a) && IsTimeline(d, b)
    ensures |b| <= |a|
  {
    if |a| <= |b| {
      SamePrefix(d, a, b, |a|);
      assert a[..|a|] == a;
      assert SearchFrom(a, |a|) == SearchFrom(b, |a|);
      assert |a| < |b| ==> Fits(d, b, |a|) && OpensAt(d, b[|a|].first);
    }
  }

  lemma TimelineIsUnique(d: seq<Reading>, a: seq<Span>, b: seq<Span>)
    requires IsTimeline(d, a) && IsTimeline(d, b)
    ensures a == b
  {
    NotShorter(d, a, b);
    NotShorter(d, b, a);
    SamePrefix(d, a, b, |a|);
    assert a[..|a|] == a && b[..|b|] == b;
  }

  lemma DescriptionIsUnique(segment: Segment, d: seq<Reading>, s: Span, e: Episode, f: Episode)
    requires Describes(segment, d, s, e) && Describes(segment, d, s, f)
    ensures e == f
  {
    var bads := Covered(d, s);
    assert e.peak == f.peak;
    assert e.severity == f.severity;
  }

  // ---------------------------------------------------------------------------
  // The machine finds it
  // ---------------------------------------------------------------------------

  /** The closed episodes of the machine are the first spans. */
  ghost predicate ClosedSpans(segment: Segment, d: seq<Reading>, closed: seq<Episode>, spans: seq<Span>) {
    && |closed| <= |spans|
    && (forall k {:trigger Fits(d, spans, k)} :: 0 <= k < |spans| ==> Fits(d, spans, k))
    && (forall k {:trigger closed[k]} :: 0 <= k < |closed| ==>
          IsClosed(d, spans[k]) && Describes(segment, d, spans[k], closed[k]))
  }

  /** No episode is open: the search resumes after the last span and `tail` bad windows have been seen. */
  ghost predicate Searching(d: seq<Reading>, spans: seq<Span>, tail: nat) {
    var from := SearchFrom(spans, |spans|);
    && from <= |d| - tail
    && NothingOpensBetween(d, from, |d|)
    && (forall i :: |d| - tail <= i < |d| ==> BadAt(d, i))
    && (|d| - tail == from || NormalAt(d, |d| - tail - 1))
  }

  /** The last span is the open episode e and `tail` normal windows follow its last bad one. */
  ghost predicate Running(
    segment: Segment, d: seq<Reading>, m: Machine, spans: seq<Span>, e: Episode, tail: nat)
  {
    && |spans| == |m.closed| + 1
    && var s := spans[|spans| - 1];
    && s.last + 1 + tail == |d|
    && (forall i :: s.last < i < |d| ==> NormalAt(d, i))
    && Describes(segment, d, s, e)
    && m.lastBad == Some(d[s.last].window)
  }

  ghost predicate Tracks(segment: Segment, d: seq<Reading>, m: Machine, spans: seq<Span>) {
    && ClosedSpans(segment, d, m.closed, spans)
    && match m.phase
       case Healthy => |spans| == |m.closed| && Searching(d, spans, 0)
       case BadPending(bads) =>
         |spans| == |m.closed| && 1 <= |bads| <= 2 && Searching(d, spans, |bads|) && d[|d| - |bads|..] == bads
       case Degraded(e) => Running(segment, d, m, spans, e, 0)
       case RecoveryPending(e) => Running(segment, d, m, spans, e, 1)
  }

  lemma GrowCovers(d: seq<Reading>, r: Reading, s: Span)
    requires Covers(d, s)
    ensures Covers(d + [r], s) && Covered(d + [r], s) == Covered(d, s)
  {
    forall i | s.first <= i < s.last
      ensures !RecoversAt(d + [r], i)
    {
      assert !RecoversAt(d, i);
    }
    assert (d + [r])[s.first..s.last + 1] == d[s.first..s.last + 1];
  }

  lemma GrowFits(d: seq<Reading>, r: Reading, spans: seq<Span>, k: nat)
    requires k < |spans| && Fits(d, spans, k)
    ensures Fits(d + [r], spans, k)
  {
    GrowCovers(d, r, spans[k]);
    forall i | SearchFrom(spans, k) <= i < spans[k].first
      ensures !OpensAt(d + [r], i)
    {
      assert !OpensAt(d, i);
    }
  }

  lemma GrowDescribes(segment: Segment, d: seq<Reading>, r: Reading, s: Span, e: Episode)
    requires IsClosed(d, s) && Describes(segment, d, s, e) && Covers(d, s)
    ensures IsClosed(d + [r], s) && Describes(segment, d + [r], s, e)
  {
    GrowCovers(d, r, s);
  }

  lemma GrowClosed(segment: Segment, d: seq<Reading>, r: Reading, closed: seq<Episode>, spans: seq<Span>)
    requires ClosedSpans(segment, d, closed, spans)
    ensures ClosedSpans(segment, d + [r], closed, spans)
  {
    var d' := d + [r];
    forall k | 0 <= k < |spans|
      ensures Fits(d', spans, k)
    {
      assert Fits(d, spans, k);
      GrowFits(d, r, spans, k);
    }
    forall k | 0 <= k < |closed|
      ensures IsClosed(d', spans[k]) && Describes(segment, d', spans[k], closed[k])
    {
      assert Fits(d, spans, k);
      GrowDescribes(segment, d, r, spans[k], closed[k]);
    }
  }

  lemma AppendSpan(segment: Segment, d: seq<Reading>, closed: seq<Episode>, spans: seq<Span>, s: Span)
    requires ClosedSpans(segment, d, closed, spans)
    requires SearchFrom(spans, |spans|) <= s.first && Covers(d, s)
    requires NothingOpensBetween(d, SearchFrom(spans, |spans|), s.first)
    ensures ClosedSpans(segment, d, closed, spans + [s])
  {
    forall k | 0 <= k < |spans| + 1
      ensures Fits(d, spans + [s], k)
    {
      if k < |spans| {
        assert Fits(d, spans, k);
      }
    }
    forall k | 0 <= k < |closed|
      ensures IsClosed(d, (spans + [s])[k]) && Describes(segment, d, (spans + [s])[k], closed[k])
    {
      assert (spans + [s])[k] == spans[k];
      assert Describes(segment, d, spans[k], closed[k]) && IsClosed(d, spans[k]);
    }
  }

  lemma DropSpan(segment: Segment, d: seq<Reading>, closed: seq<Episode>, spans: seq<Span>)
    requires ClosedSpans(segment, d, closed, spans) && |closed| < |spans|
    ensures ClosedSpans(segment, d, closed, spans[..|spans| - 1])
  {
    var rest := spans[..|spans| - 1];
    forall k | 0 <= k < |rest|
      ensures Fits(d, rest, k)
    {
      assert Fits(d, spans, k);
    }
    forall k | 0 <= k < |closed|
      ensures IsClosed(d, rest[k]) && Describes(segment, d, rest[k], closed[k])
    {
      assert Describes(segment, d, spans[k], closed[k]);
    }
  }

  lemma {:induction false} OpeningPeakIsPeak(bads: seq<Reading>)
    requires |bads| == 3
    ensures IsPeak(bads, OpeningPeak(bads))
  {
    var one, two := bads[..1], bads[..2];
    assert bads[..3] == bads && two[..1] == one && one[..0] == [];
    assert OpeningPeak([]) == 0.0;
    assert one[0] == bads[0] && two[1] == bads[1];
    assert forall b <- two :: b == bads[0] || b == bads[1];
    assert forall b <- bads :: b == bads[0] || b == bads[1] || b == bads[2];
    assert OpeningPeak(one) == if bads[0].absoluteDrop.Some? then bads[0].absoluteDrop.value else 0.0;
    assert bads[0] in two && bads[1] in two;
    assert bads[0] in bads && bads[1] in bads && bads[2] in bads;
  }

  lemma {:induction false} WorstSeverityIsWorst(bads: seq<Reading>)
    requires bads != []
    ensures IsWorst(bads, WorstSeverity(bads))
  {
    var n := |bads| - 1;
    assert bads == bads[..n] + [bads[n]];
    if n == 0 {
      assert WorstSeverity(bads[..n]) == Moderate;
      assert bads[0] in bads;
    } else {
      WorstSeverityIsWorst(bads[..n]);
      var b :| b in bads[..n] && SeverityOf(b) == WorstSeverity(bads[..n]);
      assert b in bads && bads[n] in bads;
    }
  }

  lemma WorsenKeepsPeak(bads: seq<Reading>, r: Reading, e: Episode)
    requires |bads| >= 3 && IsPeak(bads, e.peak)
    ensures IsPeak(bads + [r], Worsen(e, r).peak)
  {
    var bads', peak' := bads + [r], Worsen(e, r).peak;
    assert bads'[..3] == bads[..3];
    if peak' == e.peak {
      if b :| b in bads && b.absoluteDrop == Some(e.peak) {
        assert b in bads';
      }
    } else {
      assert bads'[|bads|] == r;
    }
  }

  lemma WorsenKeepsWorst(bads: seq<Reading>, r: Reading, e: Episode)
    requires IsWorst(bads, e.severity)
    ensures IsWorst(bads + [r], Worsen(e, r).severity)
  {
    var b :| b in bads && SeverityOf(b) == e.severity;
    assert b in bads + [r] && r in bads + [r];
  }

  lemma {:induction false} BadsOfBads(b: seq<Reading>)
    requires forall r <- b :: r.kind == Bad
    ensures Bads(b) == b
  {
    if b != [] {
      var front, last := b[..|b| - 1], b[|b| - 1];
      assert b == front + [last];
      assert last in b && forall r <- front :: r in b;
      BadsOfBads(front);
    }
  }

  lemma OpenedDescribes(segment: Segment, d: seq<Reading>, s: Span, bads: seq<Reading>)
    requires |bads| == 3 && forall b <- bads :: b.kind == Bad
    requires s.last + 1 == |d| && s.first + 2 == s.last && d[s.first..s.last + 1] == bads
    ensures Describes(segment, d, s, Open(segment, bads))
  {
    BadsOfBads(bads);
    OpeningPeakIsPeak(bads);
    WorstSeverityIsWorst(bads);
    assert bads[0] == d[s.first];
  }

  /** A third bad window in a row opens an episode. */
  lemma StepOpens(segment: Segment, d: seq<Reading>, m: Machine, spans: seq<Span>, r: Reading, s: Span)
    requires Tracks(segment, d, m, spans) && r.kind == Bad && m.phase.BadPending? && |m.phase.bads| == 2
    requires s == Span(|d| - 2, |d|)
    ensures Tracks(segment, d + [r], Step(segment, m, r), spans + [s])
  {
    var d', bads := d + [r], m.phase.bads + [r];
    GrowClosed(segment, d, r, m.closed, spans);
    forall i | SearchFrom(spans, |spans|) <= i < s.first
      ensures !OpensAt(d', i)
    {
      assert !OpensAt(d, i);
    }
    assert BadAt(d, |d| - 2) && BadAt(d, |d| - 1);
    assert d'[s.first..s.last + 1] == bads;
    assert bads[0] == d'[s.first] && bads[1] == d'[s.first + 1];
    AppendSpan(segment, d', m.closed, spans, s);
    OpenedDescribes(segment, d', s, bads);
  }

  lemma NothingNewOpens(d: seq<Reading>, r: Reading, from: int, tail: nat)
    requires 0 <= from <= |d| - tail && NothingOpensBetween(d, from, |d|) && (r.kind == Bad ==> tail <= 1)
    requires |d| - tail == from || !BadAt(d, |d| - tail - 1)
    ensures NothingOpensBetween(d + [r], from, |d| + 1)
  {
    forall i | from <= i < |d| + 1
      ensures !OpensAt(d + [r], i)
    {
      assert i < |d| ==> !OpensAt(d, i);
    }
  }

  lemma SearchContinues(d: seq<Reading>, spans: seq<Span>, r: Reading, tail: nat)
    requires Searching(d, spans, tail) && IsDecisive(r) && (r.kind == Bad ==> tail <= 1)
    ensures Searching(d + [r], spans, if r.kind == Bad then tail + 1 else 0)
  {
    var d' := d + [r];
    NothingNewOpens(d, r, SearchFrom(spans, |spans|), tail);
    forall i | |d| - tail <= i < |d|
      ensures BadAt(d', i)
    {
      assert BadAt(d, i);
    }
    assert r.kind == Normal ==> NormalAt(d', |d|);
    assert |d| - tail != SearchFrom(spans, |spans|) ==> NormalAt(d', |d| - tail - 1);
  }

  /** The search goes on: nothing opens and nothing is open. */
  lemma StepSearches(segment: Segment, d: seq<Reading>, m: Machine, spans: seq<Span>, r: Reading)
    requires Tracks(segment, d, m, spans) && IsDecisive(r)
    requires m.phase.Healthy? || (m.phase.BadPending? && (r.kind == Normal || |m.phase.bads| == 1))
    ensures Tracks(segment, d + [r], Step(segment, m, r), spans)
  {
    var tail := if m.phase.BadPending? then |m.phase.bads| else 0;
    GrowClosed(segment, d, r, m.closed, spans);
    SearchContinues(d, spans, r, tail);
    assert m.phase.BadPending? && r.kind == Bad ==> (d + [r])[|d| - 1..] == m.phase.bads + [r];
  }

  lemma CoveredGrows(d: seq<Reading>, r: Reading, was: Span, s: Span)
    requires r.kind == Bad && was.first <= was.last < |d| <= was.last + 2 && s == Span(was.first, |d|)
    requires forall i :: was.last < i < |d| ==> NormalAt(d, i)
    ensures Covered(d + [r], s) == Covered(d, was) + [r]
  {
    var seen, upTo := d[was.first..was.last + 1], d[was.first..];
    var all := (d + [r])[s.first..s.last + 1];
    assert all == upTo + [r];
    assert all[..|all| - 1] == upTo && all[|all| - 1] == r;
    if |d| == was.last + 1 {
      assert upTo == seen;
    } else {
      assert NormalAt(d, was.last + 1);
      assert upTo[..|upTo| - 1] == seen && upTo[|upTo| - 1] == d[was.last + 1];
      assert Bads(upTo) == Bads(seen);
    }
  }

  lemma WorsenedDescribes(segment: Segment, d: seq<Reading>, r: Reading, was: Span, s: Span, e: Episode)
    requires Describes(segment, d, was, e) && e.status == Active
    requires r.kind == Bad && |d| <= was.last + 2 && s == Span(was.first, |d|)
    requires forall i :: was.last < i < |d| ==> NormalAt(d, i)
    ensures Describes(segment, d + [r], s, Worsen(e, r))
  {
    CoveredGrows(d, r, was, s);
    WorsenKeepsPeak(Covered(d, was), r, e);
    WorsenKeepsWorst(Covered(d, was), r, e);
    assert (d + [r])[s.first] == d[was.first];
  }

  lemma WorsenedCovers(d: seq<Reading>, r: Reading, was: Span, s: Span)
    requires Covers(d, was) && r.kind == Bad && |d| <= was.last + 2 && s == Span(was.first, |d|)
    ensures Covers(d + [r], s)
  {
    forall i | s.first <= i < s.last
      ensures !RecoversAt(d + [r], i)
    {
      assert i < was.last ==> !RecoversAt(d, i);
    }
  }

  /** One more bad window, right after the last one or after a single normal window. */
  lemma StepWorsens(
    segment: Segment, d: seq<Reading>, m: Machine, spans: seq<Span>, r: Reading, e: Episode, s: Span)
    requires Tracks(segment, d, m, spans) && r.kind == Bad
    requires m.phase == Degraded(e) || m.phase == RecoveryPending(e)
    requires s == Span(spans[|spans| - 1].first, |d|)
    ensures Tracks(segment, d + [r], Step(segment, m, r), spans[..|spans| - 1] + [s])
  {
    var d', n := d + [r], |spans| - 1;
    var rest := spans[..n];
    assert Fits(d, spans, n);
    GrowClosed(segment, d, r, m.closed, spans);
    assert Fits(d', spans, n);
    DropSpan(segment, d', m.closed, spans);
    assert SearchFrom(rest, n) == SearchFrom(spans, n);
    WorsenedCovers(d, r, spans[n], s);
    AppendSpan(segment, d', m.closed, rest, s);
    WorsenedDescribes(segment, d, r, spans[n], s, e);
  }

  lemma StepPauses(segment: Segment, d: seq<Reading>, m: Machine, spans: seq<Span>, r: Reading)
    requires Tracks(segment, d, m, spans) && r.kind == Normal && m.phase.Degraded?
    ensures Tracks(segment, d + [r], Step(segment, m, r), spans)
  {
    var n := |spans| - 1;
    GrowClosed(segment, d, r, m.closed, spans);
    assert Fits(d, spans, n);
    GrowCovers(d, r, spans[n]);
  }

  lemma ClosedDescribes(segment: Segment, d: seq<Reading>, r: Reading, s: Span, e: Episode)
    requires Describes(segment, d, s, e) && Covers(d, s)
    requires r.kind == Normal && s.last + 2 == |d| && NormalAt(d, s.last + 1)
    ensures IsClosed(d + [r], s) && Describes(segment, d + [r], s, Close(e, Some(d[s.last].window)))
  {
    GrowCovers(d, r, s);
    assert (d + [r])[s.first] == d[s.first] && (d + [r])[s.last] == d[s.last];
  }

  lemma CloseSpan(segment: Segment, d: seq<Reading>, closed: seq<Episode>, spans: seq<Span>, e: Episode)
    requires ClosedSpans(segment, d, closed, spans) && |spans| == |closed| + 1
    requires IsClosed(d, spans[|closed|]) && Describes(segment, d, spans[|closed|], e)
    ensures ClosedSpans(segment, d, closed + [e], spans)
  {
    forall k | 0 <= k < |closed| + 1
      ensures IsClosed(d, spans[k]) && Describes(segment, d, spans[k], (closed + [e])[k])
    {
      assert k < |closed| ==> (closed + [e])[k] == closed[k];
    }
  }

  lemma StepCloses(segment: Segment, d: seq<Reading>, m: Machine, spans: seq<Span>, r: Reading)
    requires Tracks(segment, d, m, spans) && r.kind == Normal && m.phase.RecoveryPending?
    ensures Tracks(segment, d + [r], Step(segment, m, r), spans)
  {
    var n := |spans| - 1;
    GrowClosed(segment, d, r, m.closed, spans);
    assert Fits(d, spans, n) && NormalAt(d, |d| - 1);
    ClosedDescribes(segment, d, r, spans[n], m.phase.episode);
    CloseSpan(segment, d + [r], m.closed, spans, Close(m.phase.episode, m.lastBad));
  }

  lemma StepTracks(segment: Segment, d: seq<Reading>, m: Machine, spans: seq<Span>, r: Reading)
    returns (spans': seq<Span>)
    requires Tracks(segment, d, m, spans) && IsDecisive(r)
    ensures Tracks(segment, d + [r], Step(segment, m, r), spans')
  {
    spans' := spans;
    if m.phase.Degraded? || m.phase.RecoveryPending? {
      if r.kind == Bad {
        var s := Span(spans[|spans| - 1].first, |d|);
        spans' := spans[..|spans| - 1] + [s];
        StepWorsens(segment, d, m, spans, r, m.phase.episode, s);
      } else if m.phase.Degraded? {
        StepPauses(segment, d, m, spans, r);
      } else {
        StepCloses(segment, d, m, spans, r);
      }
    } else if m.phase.BadPending? && r.kind == Bad && |m.phase.bads| == 2 {
      var s := Span(|d| - 2, |d|);
      spans' := spans + [s];
      StepOpens(segment, d, m, spans, r, s);
    } else {
      StepSearches(segment, d, m, spans, r);
    }
  }

  lemma {:induction false} ReplayTracks(segment: Segment, d: seq<Reading>) returns (spans: seq<Span>)
    requires forall r <- d :: IsDecisive(r)
    ensures Tracks(segment, d, Replay(segment, d), spans)
  {
    if d == [] {
      spans := [];
    } else {
      var n := |d| - 1;
      assert d == d[..n] + [d[n]];
      var before := ReplayTracks(segment, d[..n]);
      spans := StepTracks(segment, d[..n], Replay(segment, d[..n]), before, d[n]);
    }
  }

  lemma TracksTells(segment: Segment, d: seq<Reading>, m: Machine, spans: seq<Span>)
    requires Tracks(segment, d, m, spans)
    ensures Tells(segment, d, spans, Finish(m))
  {
    forall k | 0 <= k < |m.closed|
      ensures IsClosed(d, spans[k])
    {
      assert Describes(segment, d, spans[k], m.closed[k]);
    }
  }

  /**
   * The timeline of a segment is the only list of episodes that describes the spans of a well-formed
   * timeline of its decisive readings.
   */
  lemma TimelineMeaning(segment: Segment, readings: seq<Reading>, episodes: seq<Episode>)
    ensures episodes == Timeline(segment, readings)
            <==> exists spans :: Tells(segment, Decisive(readings), spans, episodes)
  {
    var d := Decisive(readings);
    NeutralErasure(segment, readings);
    var spans := ReplayTracks(segment, d);
    TracksTells(segment, d, Replay(segment, d), spans);
    if other :| Tells(segment, d, other, episodes) {
      TimelineIsUnique(d, spans, other);
      forall k | 0 <= k < |spans|
        ensures episodes[k] == Timeline(segment, d)[k]
      {
        DescriptionIsUnique(segment, d, spans[k], episodes[k], Timeline(segment, d)[k]);
      }
    }
  }

  // ---------------------------------------------------------------------------
  // Order
  // ---------------------------------------------------------------------------

  ghost predicate Increasing(readings: seq<Reading>) {
    forall i, j :: 0 <= i < j < |readings| ==> readings[i].window < readings[j].window
  }

  /** Episodes follow one another, and only the last may still be active. */
  ghost predicate Ordered(segment: Segment, episodes: seq<Episode>) {
    && (forall k :: 0 <= k < |episodes| ==>
          episodes[k].id.segment == segment
          && (episodes[k].status == Active || episodes[k].status == Recovered)
          && (episodes[k].status == Active ==> k == |episodes| - 1)
          && (episodes[k].status == Recovered <==> episodes[k].endedAt.Some?)
          && (episodes[k].endedAt.Some? ==> episodes[k].id.startedAt < episodes[k].endedAt.value))
    && (forall j, k :: 0 <= j < k < |episodes| ==>
          episodes[j].endedAt.Some? && episodes[j].endedAt.value < episodes[k].id.startedAt)
  }

  lemma IncreasingMore(readings: seq<Reading>, r: Reading)
    requires Increasing(readings) && forall x <- readings :: x.window < r.window
    ensures Increasing(readings + [r])
  {
  }

  lemma {:induction false} DecisiveIncreasing(readings: seq<Reading>)
    requires Increasing(readings)
    ensures Increasing(Decisive(readings))
    ensures forall r <- Decisive(readings) :: r in readings
  {
    if readings != [] {
      var n := |readings| - 1;
      DecisiveIncreasing(readings[..n]);
      forall r | r in Decisive(readings[..n])
        ensures r in readings && r.window < readings[n].window
      {
        var i :| 0 <= i < n && readings[..n][i] == r;
        assert readings[i] == r;
      }
      IncreasingMore(Decisive(readings[..n]), readings[n]);
    }
  }

  lemma {:induction false} SpansOrdered(d: seq<Reading>, spans: seq<Span>, j: nat, k: nat)
    requires IsTimeline(d, spans) && j < k < |spans|
    ensures spans[j].last < spans[k].first
  {
    SpanFacts(d, spans, k);
    if j < k - 1 {
      SpansOrdered(d, spans, j, k - 1);
      SpanFacts(d, spans, k - 1);
    }
  }

  lemma TellsOrdered(segment: Segment, d: seq<Reading>, spans: seq<Span>, episodes: seq<Episode>)
    requires Increasing(d) && Tells(segment, d, spans, episodes)
    ensures Ordered(segment, episodes)
  {
    forall k | 0 <= k < |spans|
      ensures Describes(segment, d, spans[k], episodes[k]) && spans[k].first < spans[k].last < |d|
      ensures k < |spans| - 1 ==> IsClosed(d, spans[k])
    {
      SpanFacts(d, spans, k);
    }
    forall j, k | 0 <= j < k < |spans|
      ensures episodes[j].endedAt.Some? && episodes[j].endedAt.value < episodes[k].id.startedAt
    {
      SpansOrdered(d, spans, j, k);
    }
  }

  lemma TimelineOrdered(segment: Segment, readings: seq<Reading>)
    requires Increasing(readings)
    ensures Ordered(segment, Timeline(segment, readings))
  {
    var d, episodes := Decisive(readings), Timeline(segment, readings);
    DecisiveIncreasing(readings);
    TimelineMeaning(segment, readings, episodes);
    var spans: seq<Span> :| Tells(segment, d, spans, episodes);
    TellsOrdered(segment, d, spans, episodes);
  }

  // ---------------------------------------------------------------------------
  // Prefix stability
  // ---------------------------------------------------------------------------

  predicate Grown(e: Episode, e': Episode) {
    e'.id == e.id && e'.count >= e.count && e'.peak >= e.peak && Rank(e'.severity) >= Rank(e.severity)
  }

  /** Recovered episodes stay as they were; an open one keeps its identity and never shrinks. */
  ghost predicate Continues(before: seq<Episode>, after: seq<Episode>) {
    && |before| <= |after|
    && forall k :: 0 <= k < |before| ==>
         if before[k].status == Recovered then after[k] == before[k] else Grown(before[k], after[k])
  }

  lemma {:induction false} ClosedAreRecovered(segment: Segment, readings: seq<Reading>)
    ensures var m := Replay(segment, readings);
            && (forall e <- m.closed :: e.status == Recovered)
            && (m.phase.Degraded? || m.phase.RecoveryPending? ==> m.phase.episode.status == Active)
  {
    if readings != [] {
      ClosedAreRecovered(segment, readings[..|readings| - 1]);
    }
  }

  lemma {:induction false} PrefixStability(segment: Segment, readings: seq<Reading>, more: seq<Reading>)
    ensures Continues(Timeline(segment, readings), Timeline(segment, readings + more))
  {
    if more == [] {
      assert readings + more == readings;
    } else {
      var n := |more| - 1;
      PrefixStability(segment, readings, more[..n]);
      assert (readings + more)[..|readings + more| - 1] == readings + more[..n];
      ClosedAreRecovered(segment, readings + more[..n]);
      var before, after := Timeline(segment, readings + more[..n]), Timeline(segment, readings + more);
      assert Continues(before, after);
    }
  }
}

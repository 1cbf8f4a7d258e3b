/** Stage 2: payment health per window and segment, its keyed store, and recalculation for late events. */
module Analytics {
  import opened Common
  import opened Attempts
  import opened Degradation

  const MIN_TRANSACTION_THRESHOLD: nat := 50
  const WINDOW: int := 300 * SECOND

  datatype Payment = Payment(
    source: string, kind: EventType, timestamp: int, ingestedAt: int, amount: int, currency: string,
    paymentMethod: Option<string>, bank: Option<string>, wallet: Option<string>, errorSource: Option<string>)

  const DIMENSIONS: seq<Dimension> := [Global, Currency, PaymentMethod, Bank, Wallet, ErrorSource]

  function OrNull(o: Option<string>): string {
    if o.Some? then o.value else "NULL"
  }

  /** _get_segment_value. */
  function ValueIn(e: Payment, d: Dimension): string {
    match d
    case Global => "ALL"
    case Currency => e.currency
    case PaymentMethod => OrNull(e.paymentMethod)
    case Bank => OrNull(e.bank)
    case Wallet => OrNull(e.wallet)
    case ErrorSource => OrNull(e.errorSource)
  }

  /** Transactions and revenue, captured and failed. */
  datatype Tally = Tally(successes: int, failures: int, successGmv: int, failureGmv: int)

  function Plus(a: Tally, b: Tally): Tally {
    Tally(a.successes + b.successes, a.failures + b.failures, a.successGmv + b.successGmv, a.failureGmv + b.failureGmv)
  }

  const NOTHING: Tally := Tally(0, 0, 0, 0)

  function TallyOne(e: Payment): Tally {
    if e.kind == PaymentCaptured then Tally(1, 0, e.amount, 0)
    else if e.kind == PaymentFailed then Tally(0, 1, 0, e.amount)
    else NOTHING
  }

  function TallyOf(events: seq<Payment>): Tally {
    if events == [] then NOTHING else Plus(TallyOf(events[..|events| - 1]), TallyOne(events[|events| - 1]))
  }

  datatype Key = Key(start: int, end: int, dimension: Dimension, value: string)

  datatype Health = Health(tally: Tally, successRate: Option<real>, failureRate: Option<real>, insufficientVolume: bool)

  datatype Row = Row(key: Key, health: Health)

  function HealthOf(t: Tally): Health {
    var n := t.successes + t.failures;
    Health(t,
           if n > 0 then Some(t.successes as real / n as real) else None,
           if n > 0 then Some(t.failures as real / n as real) else None,
           n < MIN_TRANSACTION_THRESHOLD)
  }

  // ---------------------------------------------------------------------------
  // Windows and segments
  // ---------------------------------------------------------------------------

  predicate InWindow(e: Payment, start: int, end: int) {
    start <= e.timestamp < end
  }

  function Within(events: seq<Payment>, start: int, end: int): seq<Payment> {
    if events == [] then []
    else
      var n := |events| - 1;
      Within(events[..n], start, end) + (if InWindow(events[n], start, end) then [events[n]] else [])
  }

  /** The values of a dimension, in the order of their first events. */
  function Values(events: seq<Payment>, d: Dimension): seq<string> {
    if events == [] then []
    else
      var n := |events| - 1;
      var before := Values(events[..n], d);
      if ValueIn(events[n], d) in before then before else before + [ValueIn(events[n], d)]
  }

  function Group(events: seq<Payment>, d: Dimension, value: string): seq<Payment> {
    if events == [] then []
    else
      var n := |events| - 1;
      Group(events[..n], d, value) + (if ValueIn(events[n], d) == value then [events[n]] else [])
  }

  function RowFor(events: seq<Payment>, start: int, end: int, d: Dimension, value: string): Row {
    Row(Key(start, end, d, value), HealthOf(TallyOf(Group(events, d, value))))
  }

  /** The segment values reported for a dimension; an empty event list still reports GLOBAL. */
  function Reported(events: seq<Payment>, start: int, end: int, d: Dimension): seq<string> {
    if events == [] && d == Global then ["ALL"] else Values(Within(events, start, end), d)
  }

  function RowsIn(events: seq<Payment>, start: int, end: int, d: Dimension): seq<Row> {
    var values := Reported(events, start, end, d);
    seq(|values|, i requires 0 <= i < |values| => RowFor(Within(events, start, end), start, end, d, values[i]))
  }

  function RowsOver(events: seq<Payment>, start: int, end: int, dimensions: seq<Dimension>): seq<Row> {
    if dimensions == [] then []
    else
      var n := |dimensions| - 1;
      RowsOver(events, start, end, dimensions[..n]) + RowsIn(events, start, end, dimensions[n])
  }

  function SumOver(events: seq<Payment>, d: Dimension, values: seq<string>): Tally {
    if values == [] then NOTHING
    else
      var n := |values| - 1;
      Plus(SumOver(events, d, values[..n]), TallyOf(Group(events, d, values[n])))
  }

  // One more event

  lemma WithinMore(events: seq<Payment>, e: Payment, start: int, end: int)
    ensures Within(events + [e], start, end)
            == Within(events, start, end) + (if InWindow(e, start, end) then [e] else [])
  {
    assert (events + [e])[..|events|] == events;
  }

  lemma ValuesMore(events: seq<Payment>, e: Payment, d: Dimension)
    ensures Values(events + [e], d)
            == Values(events, d) + (if ValueIn(e, d) in Values(events, d) then [] else [ValueIn(e, d)])
  {
    assert (events + [e])[..|events|] == events;
  }

  lemma GroupMore(events: seq<Payment>, e: Payment, d: Dimension, value: string)
    ensures Group(events + [e], d, value) == Group(events, d, value) + (if ValueIn(e, d) == value then [e] else [])
  {
    assert (events + [e])[..|events|] == events;
  }

  lemma TallyMore(events: seq<Payment>, e: Payment)
    ensures TallyOf(events + [e]) == Plus(TallyOf(events), TallyOne(e))
  {
    assert (events + [e])[..|events|] == events;
  }

  lemma SumMore(events: seq<Payment>, d: Dimension, values: seq<string>, value: string)
    ensures SumOver(events, d, values + [value]) == Plus(SumOver(events, d, values), TallyOf(Group(events, d, value)))
  {
    assert (values + [value])[..|values|] == values;
  }

  lemma {:induction false} NoValueNoGroup(events: seq<Payment>, d: Dimension, value: string)
    ensures value in Values(events, d) <==> Group(events, d, value) != []
  {
    if events != [] {
      NoValueNoGroup(events[..|events| - 1], d, value);
    }
  }

  lemma {:induction false} ValuesMeaning(events: seq<Payment>, d: Dimension, value: string)
    ensures value in Values(events, d) <==> exists e <- events :: ValueIn(e, d) == value
  {
    if events != [] {
      var front, last := events[..|events| - 1], events[|events| - 1];
      assert events == front + [last];
      ValuesMeaning(front, d, value);
      ValuesMore(front, last, d);
    }
  }

  // ---------------------------------------------------------------------------
  // Counting by hand
  // ---------------------------------------------------------------------------

  predicate IsNamed(o: Option<string>, value: string) {
    o == Some(value) || (o == None && value == "NULL")
  }

  /** The event belongs to the segment: the dimension names the column that holds the value. */
  predicate InSegment(e: Payment, d: Dimension, value: string) {
    || (d == Global && value == "ALL")
    || (d == Currency && value == e.currency)
    || (d == PaymentMethod && IsNamed(e.paymentMethod, value))
    || (d == Bank && IsNamed(e.bank, value))
    || (d == Wallet && IsNamed(e.wallet, value))
    || (d == ErrorSource && IsNamed(e.errorSource, value))
  }

  lemma ValueInMeaning(e: Payment, d: Dimension, value: string)
    ensures ValueIn(e, d) == value <==> InSegment(e, d, value)
  {
  }

  /** The event counts for the row: its window, its segment, and PayPal's events only where they are given. */
  predicate IsCounted(e: Payment, k: Key, payPalToo: bool) {
    k.start <= e.timestamp < k.end && InSegment(e, k.dimension, k.value) && (payPalToo || e.source != "paypal")
  }

  /** The positions of the counted events of a kind. */
  ghost function Places(events: seq<Payment>, kind: EventType, k: Key, payPalToo: bool): set<nat> {
    set i: nat | i < |events| && events[i].kind == kind && IsCounted(events[i], k, payPalToo)
  }

  /** Their amounts, added up from the first event on. */
  function Revenue(events: seq<Payment>, kind: EventType, k: Key, payPalToo: bool): int {
    if events == [] then 0
    else (if events[0].kind == kind && IsCounted(events[0], k, payPalToo) then events[0].amount else 0)
         + Revenue(events[1..], kind, k, payPalToo)
  }

  ghost function ByHand(events: seq<Payment>, k: Key, payPalToo: bool): Tally {
    Tally(|Places(events, PaymentCaptured, k, payPalToo)|, |Places(events, PaymentFailed, k, payPalToo)|,
          Revenue(events, PaymentCaptured, k, payPalToo), Revenue(events, PaymentFailed, k, payPalToo))
  }

  /**
   * The health is that of the counted events: their numbers and revenues, each rate the share of its kind,
   * and too little volume below 50 of them.
   */
  ghost predicate Measures(events: seq<Payment>, k: Key, payPalToo: bool, h: Health) {
    var captured, failed := |Places(events, PaymentCaptured, k, payPalToo)|, |Places(events, PaymentFailed, k, payPalToo)|;
    && h.tally.successes == captured && h.tally.failures == failed
    && h.tally.successGmv == Revenue(events, PaymentCaptured, k, payPalToo)
    && h.tally.failureGmv == Revenue(events, PaymentFailed, k, payPalToo)
    && (h.successRate.Some? <==> captured + failed > 0) && (h.failureRate.Some? <==> captured + failed > 0)
    && (captured + failed > 0 ==>
          && h.successRate.value * (captured + failed) as real == captured as real
          && h.failureRate.value * (captured + failed) as real == failed as real)
    && (h.insufficientVolume <==> captured + failed < 50)
  }

  lemma PlacesGrow(events: seq<Payment>, e: Payment, kind: EventType, k: Key, payPalToo: bool)
    ensures Places(events + [e], kind, k, payPalToo)
            == Places(events, kind, k, payPalToo)
               + (if e.kind == kind && IsCounted(e, k, payPalToo) then {|events|} else {})
  {
    forall i: nat | i < |events|
      ensures (events + [e])[i] == events[i]
    {
    }
  }

  lemma PlacesMore(events: seq<Payment>, e: Payment, kind: EventType, k: Key, payPalToo: bool)
    ensures |Places(events + [e], kind, k, payPalToo)|
            == |Places(events, kind, k, payPalToo)| + (if e.kind == kind && IsCounted(e, k, payPalToo) then 1 else 0)
  {
    PlacesGrow(events, e, kind, k, payPalToo);
    var before := Places(events, kind, k, payPalToo);
    assert |events| !in before;
  }

  lemma {:induction false} RevenueMore(events: seq<Payment>, e: Payment, kind: EventType, k: Key, payPalToo: bool)
    ensures Revenue(events + [e], kind, k, payPalToo)
            == Revenue(events, kind, k, payPalToo)
               + (if e.kind == kind && IsCounted(e, k, payPalToo) then e.amount else 0)
  {
    if events == [] {
      assert ([] + [e])[1..] == [];
    } else {
      assert (events + [e])[1..] == events[1..] + [e];
      RevenueMore(events[1..], e, kind, k, payPalToo);
    }
  }

  lemma ByHandMore(events: seq<Payment>, e: Payment, k: Key, payPalToo: bool)
    ensures ByHand(events + [e], k, payPalToo)
            == if IsCounted(e, k, payPalToo) then Plus(ByHand(events, k, payPalToo), TallyOne(e))
               else ByHand(events, k, payPalToo)
  {
    PlacesMore(events, e, PaymentCaptured, k, payPalToo);
    PlacesMore(events, e, PaymentFailed, k, payPalToo);
    RevenueMore(events, e, PaymentCaptured, k, payPalToo);
    RevenueMore(events, e, PaymentFailed, k, payPalToo);
  }

  lemma HealthMeasures(events: seq<Payment>, k: Key, payPalToo: bool, t: Tally)
    requires t == ByHand(events, k, payPalToo)
    ensures Measures(events, k, payPalToo, HealthOf(t))
  {
    if t.successes + t.failures > 0 {
      RateMeaning(t.successes, t.successes + t.failures);
      RateMeaning(t.failures, t.successes + t.failures);
    }
  }

  lemma RateMeaning(part: int, whole: int)
    requires whole > 0
    ensures part as real / whole as real * whole as real == part as real
  {
  }

  lemma RatesAddUp(a: int, b: int)
    requires a + b > 0
    ensures a as real / (a + b) as real + b as real / (a + b) as real == 1.0
  {
    assert (a + b) as real / (a + b) as real == 1.0;
  }

  lemma RateInUnit(part: int, whole: int)
    requires 0 <= part <= whole && whole > 0
    ensures 0.0 <= part as real / whole as real <= 1.0
  {
  }

  /** The tally of a segment's list is what counting its events by hand gives. */
  lemma {:induction false} TallyIsByHand(events: seq<Payment>, k: Key)
    ensures TallyOf(Group(Within(events, k.start, k.end), k.dimension, k.value)) == ByHand(events, k, true)
  {
    if events != [] {
      var front, e := events[..|events| - 1], events[|events| - 1];
      assert events == front + [e];
      TallyIsByHand(front, k);
      WithinMore(front, e, k.start, k.end);
      ByHandMore(front, e, k, true);
      ValueInMeaning(e, k.dimension, k.value);
      if InWindow(e, k.start, k.end) {
        GroupWithOneMore(Within(front, k.start, k.end), e, k.dimension, k.value);
      } else {
        assert Within(events, k.start, k.end) == Within(front, k.start, k.end);
      }
    }
  }

  // ---------------------------------------------------------------------------
  // The rows of a window
  // ---------------------------------------------------------------------------

  function HealthAt(inside: seq<Payment>, k: Key): Health {
    HealthOf(TallyOf(Group(inside, k.dimension, k.value)))
  }

  lemma RowsInMeaning(events: seq<Payment>, start: int, end: int, d: Dimension, r: Row)
    ensures r in RowsIn(events, start, end, d) <==>
              && r.key.start == start && r.key.end == end && r.key.dimension == d
              && r.key.value in Reported(events, start, end, d)
              && r.health == HealthAt(Within(events, start, end), r.key)
  {
    var values := Reported(events, start, end, d);
    if r.key.value in values {
      var i :| 0 <= i < |values| && values[i] == r.key.value;
      assert RowsIn(events, start, end, d)[i] == RowFor(Within(events, start, end), start, end, d, values[i]);
    }
  }

  lemma {:induction false} RowsOverMeaning(
    events: seq<Payment>, start: int, end: int, dimensions: seq<Dimension>, r: Row)
    ensures r in RowsOver(events, start, end, dimensions) <==>
              && r.key.start == start && r.key.end == end && r.key.dimension in dimensions
              && r.key.value in Reported(events, start, end, r.key.dimension)
              && r.health == HealthAt(Within(events, start, end), r.key)
  {
    if dimensions != [] {
      var n := |dimensions| - 1;
      assert dimensions == dimensions[..n] + [dimensions[n]];
      RowsOverMeaning(events, start, end, dimensions[..n], r);
      RowsInMeaning(events, start, end, dimensions[n], r);
    }
  }

  lemma EveryDimension(d: Dimension)
    ensures d in DIMENSIONS
  {
    assert DIMENSIONS[0] == Global && DIMENSIONS[1] == Currency && DIMENSIONS[2] == PaymentMethod;
    assert DIMENSIONS[3] == Bank && DIMENSIONS[4] == Wallet && DIMENSIONS[5] == ErrorSource;
  }

  /** The row exists: a counted event, or the GLOBAL row of an empty event list. */
  ghost predicate IsReported(events: seq<Payment>, start: int, end: int, k: Key) {
    && k.start == start && k.end == end
    && ((exists e <- events :: IsCounted(e, k, true)) || (events == [] && k.dimension == Global && k.value == "ALL"))
  }

  lemma ReportedMeaning(events: seq<Payment>, start: int, end: int, k: Key)
    requires k.start == start && k.end == end
    ensures k.value in Reported(events, start, end, k.dimension) <==> IsReported(events, start, end, k)
  {
    ValuesMeaning(Within(events, start, end), k.dimension, k.value);
    forall e: Payment
      ensures e in Within(events, start, end) <==> e in events && InWindow(e, start, end)
      ensures ValueIn(e, k.dimension) == k.value <==> InSegment(e, k.dimension, k.value)
    {
      WithinMeaning(events, start, end, e);
      ValueInMeaning(e, k.dimension, k.value);
    }
  }

  lemma {:induction false} WithinMeaning(events: seq<Payment>, start: int, end: int, e: Payment)
    ensures e in Within(events, start, end) <==> e in events && InWindow(e, start, end)
  {
    if events != [] {
      assert events == events[..|events| - 1] + [events[|events| - 1]];
      WithinMeaning(events[..|events| - 1], start, end, e);
    }
  }

  lemma HealthAtMeasures(events: seq<Payment>, k: Key)
    ensures Measures(events, k, true, HealthAt(Within(events, k.start, k.end), k))
  {
    TallyIsByHand(events, k);
    HealthMeasures(events, k, true, ByHand(events, k, true));
  }

  /** Every row is of a reported key and measures its segment. */
  lemma RowMeasures(events: seq<Payment>, start: int, end: int, r: Row)
    requires r in RowsOver(events, start, end, DIMENSIONS)
    ensures IsReported(events, start, end, r.key) && Measures(events, r.key, true, r.health)
  {
    RowsOverMeaning(events, start, end, DIMENSIONS, r);
    ReportedMeaning(events, start, end, r.key);
    HealthAtMeasures(events, r.key);
  }

  lemma ReportedHasRow(events: seq<Payment>, start: int, end: int, k: Key)
    requires IsReported(events, start, end, k)
    ensures exists r <- RowsOver(events, start, end, DIMENSIONS) :: r.key == k
  {
    var r := Row(k, HealthAt(Within(events, start, end), k));
    EveryDimension(k.dimension);
    ReportedMeaning(events, start, end, k);
    RowsOverMeaning(events, start, end, DIMENSIONS, r);
  }

  // ---------------------------------------------------------------------------
  // The calculation
  // ---------------------------------------------------------------------------

  /** The pass over one event: its value's list grows, and a value seen for the first time joins the order. */
  lemma GroupsMore(
    inside: seq<Payment>, e: Payment, d: Dimension, order: seq<string>, segments: map<string, seq<Payment>>)
    requires Grouped(inside, d, order, segments)
    ensures var v := ValueIn(e, d);
            && (v in segments <==> v in order)
            && Grouped(inside + [e], d, if v in segments then order else order + [v],
                       segments[v := (if v in segments then segments[v] else []) + [e]])
  {
    var v := ValueIn(e, d);
    ValuesMore(inside, e, d);
    NoValueNoGroup(inside, d, v);
    forall x {
      GroupMore(inside, e, d, x);
    }
  }

  ghost predicate Grouped(
    inside: seq<Payment>, d: Dimension, order: seq<string>, segments: map<string, seq<Payment>>)
  {
    && order == Values(inside, d)
    && (forall v :: v in segments <==> v in order)
    && (forall v <- order :: segments[v] == Group(inside, d, v))
  }

  method AddToGroup(order: seq<string>, segments: map<string, seq<Payment>>, v: string, e: Payment)
    returns (order': seq<string>, segments': map<string, seq<Payment>>)
    ensures order' == if v in segments then order else order + [v]
    ensures segments' == segments[v := (if v in segments then segments[v] else []) + [e]]
  {
    order', segments' := order, segments;
    if v !in segments' {
      order', segments' := order' + [v], segments'[v := []];
    }
    segments' := segments'[v := segments'[v] + [e]];
  }

  /** The dictionary is kept with the insertion order that its iteration follows. */
  method GroupByValue(events: seq<Payment>, start: int, end: int, d: Dimension)
    returns (order: seq<string>, segments: map<string, seq<Payment>>)
    ensures order == Reported(events, start, end, d)
    ensures forall v <- order :: v in segments && segments[v] == Group(Within(events, start, end), d, v)
  {
    order, segments := [], map[];
    if events == [] && d == Global {
      order, segments := ["ALL"], map["ALL" := []];
      return;
    }
    for i := 0 to |events|
      invariant Grouped(Within(events[..i], start, end), d, order, segments)
    {
      var e := events[i];
      assert events[..i + 1] == events[..i] + [e];
      WithinMore(events[..i], e, start, end);
      if InWindow(e, start, end) {
        GroupsMore(Within(events[..i], start, end), e, d, order, segments);
        order, segments := AddToGroup(order, segments, ValueIn(e, d), e);
      } else {
        assert Within(events[..i + 1], start, end) == Within(events[..i], start, end);
      }
    }
    assert events[..|events|] == events;
  }

  method CountSegment(events: seq<Payment>) returns (tally: Tally)
    ensures tally == TallyOf(events)
  {
    var successes, failures, successGmv, failureGmv := 0, 0, 0, 0;
    for i := 0 to |events|
      invariant Tally(successes, failures, successGmv, failureGmv) == TallyOf(events[..i])
    {
      var e := events[i];
      assert events[..i + 1] == events[..i] + [e];
      TallyMore(events[..i], e);
      if e.kind == PaymentCaptured {
        successes, successGmv := successes + 1, successGmv + e.amount;
      } else if e.kind == PaymentFailed {
        failures, failureGmv := failures + 1, failureGmv + e.amount;
      }
    }
    assert events[..|events|] == events;
    tally := Tally(successes, failures, successGmv, failureGmv);
  }

  lemma RowAtIndex(events: seq<Payment>, start: int, end: int, d: Dimension, i: nat)
    requires i < |Reported(events, start, end, d)|
    ensures |RowsIn(events, start, end, d)| == |Reported(events, start, end, d)|
    ensures RowsIn(events, start, end, d)[i]
            == RowFor(Within(events, start, end), start, end, d, Reported(events, start, end, d)[i])
  {
  }

  method RowsOfDimension(events: seq<Payment>, start: int, end: int, d: Dimension) returns (rows: seq<Row>)
    ensures rows == RowsIn(events, start, end, d)
  {
    rows := [];
    var order, segments := GroupByValue(events, start, end, d);
    ghost var all := RowsIn(events, start, end, d);
    for i := 0 to |order|
      invariant rows == all[..i]
    {
      var tally := CountSegment(segments[order[i]]);
      var row := Row(Key(start, end, d, order[i]), HealthOf(tally));
      RowAtIndex(events, start, end, d, i);
      assert row == all[i] && all[..i + 1] == all[..i] + [all[i]];
      rows := rows + [row];
    }
    assert all[..|order|] == all;
  }

  /** calculate_health_metrics_for_window: a dictionary of event lists per dimension, then a count per list. */
  method CalculateHealthMetricsForWindow(events: seq<Payment>, start: int, end: int) returns (rows: seq<Row>)
    ensures rows == RowsOver(events, start, end, DIMENSIONS)
    ensures forall r <- rows :: IsReported(events, start, end, r.key) && Measures(events, r.key, true, r.health)
    ensures forall k :: IsReported(events, start, end, k) ==> exists r <- rows :: r.key == k
  {
    rows := [];
    for k := 0 to |DIMENSIONS|
      invariant rows == RowsOver(events, start, end, DIMENSIONS[..k])
    {
      var made := RowsOfDimension(events, start, end, DIMENSIONS[k]);
      assert DIMENSIONS[..k + 1][..k] == DIMENSIONS[..k];
      rows := rows + made;
    }
    assert DIMENSIONS[..|DIMENSIONS|] == DIMENSIONS;
    forall r | r in rows
      ensures IsReported(events, start, end, r.key) && Measures(events, r.key, true, r.health)
    {
      RowMeasures(events, start, end, r);
    }
    forall k | IsReported(events, start, end, k)
      ensures exists r <- rows :: r.key == k
    {
      ReportedHasRow(events, start, end, k);
    }
  }

  // ---------------------------------------------------------------------------
  // Segments partition the window
  // ---------------------------------------------------------------------------

  predicate Distinct(values: seq<string>) {
    values == [] || (values[|values| - 1] !in values[..|values| - 1] && Distinct(values[..|values| - 1]))
  }

  lemma InFrontOrLast(values: seq<string>, v: string)
    requires values != []
    ensures v in values <==> v in values[..|values| - 1] || v == values[|values| - 1]
  {
    assert values == values[..|values| - 1] + [values[|values| - 1]];
  }

  lemma SumSplits(events: seq<Payment>, d: Dimension, values: seq<string>)
    requires values != []
    ensures SumOver(events, d, values)
            == Plus(SumOver(events, d, values[..|values| - 1]), TallyOf(Group(events, d, values[|values| - 1])))
  {
  }

  /** One more event adds its tally to the one segment it belongs to. */
  lemma {:induction false} SumWithOneMore(
    events: seq<Payment>, e: Payment, events': seq<Payment>, d: Dimension, values: seq<string>)
    requires Distinct(values) && events' == events + [e]
    ensures SumOver(events', d, values)
            == if ValueIn(e, d) in values then Plus(SumOver(events, d, values), TallyOne(e)) else SumOver(events, d, values)
  {
    if values != [] {
      var front, last := values[..|values| - 1], values[|values| - 1];
      SumWithOneMore(events, e, events', d, front);
      InFrontOrLast(values, ValueIn(e, d));
      GroupWithOneMore(events, e, d, last);
      SumSplits(events, d, values);
      SumSplits(events', d, values);
      OneSegmentGains(SumOver(events, d, front), TallyOf(Group(events, d, last)), TallyOne(e),
                      SumOver(events', d, front), TallyOf(Group(events', d, last)),
                      ValueIn(e, d) in front, ValueIn(e, d) == last);
    }
  }

  lemma OneSegmentGains(rest: Tally, mine: Tally, one: Tally, rest': Tally, mine': Tally, inRest: bool, isMine: bool)
    requires !(inRest && isMine)
    requires rest' == (if inRest then Plus(rest, one) else rest) && mine' == (if isMine then Plus(mine, one) else mine)
    ensures Plus(rest', mine') == if inRest || isMine then Plus(Plus(rest, mine), one) else Plus(rest, mine)
  {
  }

  lemma GroupWithOneMore(events: seq<Payment>, e: Payment, d: Dimension, value: string)
    ensures TallyOf(Group(events + [e], d, value))
            == if ValueIn(e, d) == value then Plus(TallyOf(Group(events, d, value)), TallyOne(e))
               else TallyOf(Group(events, d, value))
  {
    GroupMore(events, e, d, value);
    if ValueIn(e, d) == value {
      TallyMore(Group(events, d, value), e);
    } else {
      assert Group(events + [e], d, value) == Group(events, d, value);
    }
  }

  lemma {:induction false} ValuesAreDistinct(events: seq<Payment>, d: Dimension)
    ensures Distinct(Values(events, d))
  {
    if events != [] {
      ValuesAreDistinct(events[..|events| - 1], d);
    }
  }

  /** The first event of a new segment is that segment's whole tally. */
  lemma NewSegmentTally(before: seq<Payment>, e: Payment, d: Dimension)
    requires ValueIn(e, d) !in Values(before, d)
    ensures TallyOf(Group(before + [e], d, ValueIn(e, d))) == TallyOne(e)
  {
    NoValueNoGroup(before, d, ValueIn(e, d));
    GroupWithOneMore(before, e, d, ValueIn(e, d));
  }

  lemma {:induction false} SegmentsSumToWhole(events: seq<Payment>, d: Dimension)
    ensures SumOver(events, d, Values(events, d)) == TallyOf(events)
  {
    if events != [] {
      var before, e := events[..|events| - 1], events[|events| - 1];
      assert events == before + [e];
      SegmentsSumToWhole(before, d);
      WholeWithOneMore(before, e, d);
    }
  }

  lemma WholeWithOneMore(before: seq<Payment>, e: Payment, d: Dimension)
    requires SumOver(before, d, Values(before, d)) == TallyOf(before)
    ensures SumOver(before + [e], d, Values(before + [e], d)) == TallyOf(before + [e])
  {
    var values, v := Values(before, d), ValueIn(e, d);
    ValuesAreDistinct(before, d);
    TallyMore(before, e);
    ValuesMore(before, e, d);
    SumWithOneMore(before, e, before + [e], d, values);
    if v in values {
      assert Values(before + [e], d) == values;
    } else {
      NewSegmentTally(before, e, d);
      SumMore(before + [e], d, values, v);
    }
  }

  lemma {:induction false} GlobalIsWhole(events: seq<Payment>)
    ensures Group(events, Global, "ALL") == events
    ensures events != [] ==> Values(events, Global) == ["ALL"]
  {
    if events != [] {
      GlobalIsWhole(events[..|events| - 1]);
    }
  }

  function SumOfRows(rows: seq<Row>): Tally {
    if rows == [] then NOTHING else Plus(SumOfRows(rows[..|rows| - 1]), rows[|rows| - 1].health.tally)
  }

  lemma {:induction false} SumOfRowsFor(rows: seq<Row>, events: seq<Payment>, start: int, end: int, d: Dimension, values: seq<string>)
    requires |rows| == |values|
    requires forall i :: 0 <= i < |rows| ==> rows[i] == RowFor(events, start, end, d, values[i])
    ensures SumOfRows(rows) == SumOver(events, d, values)
  {
    if rows != [] {
      SumOfRowsFor(rows[..|rows| - 1], events, start, end, d, values[..|values| - 1]);
    }
  }

  /** In every dimension the counts and the revenue of the segments add up to the GLOBAL row. */
  lemma DimensionsSumToGlobal(events: seq<Payment>, start: int, end: int, d: Dimension)
    ensures SumOfRows(RowsIn(events, start, end, d)) == SumOfRows(RowsIn(events, start, end, Global))
    ensures SumOfRows(RowsIn(events, start, end, d)) == TallyOf(Within(events, start, end))
    ensures |RowsIn(events, start, end, Global)| <= 1
  {
    SumIsWhole(events, start, end, d);
    SumIsWhole(events, start, end, Global);
    GlobalIsWhole(Within(events, start, end));
  }

  lemma SumIsWhole(events: seq<Payment>, start: int, end: int, d: Dimension)
    ensures SumOfRows(RowsIn(events, start, end, d)) == TallyOf(Within(events, start, end))
  {
    if events == [] && d == Global {
      EmptyGlobalSum(events, start, end);
    } else {
      var inside := Within(events, start, end);
      SumOfRowsFor(RowsIn(events, start, end, d), inside, start, end, d, Values(inside, d));
      SegmentsSumToWhole(inside, d);
    }
  }

  lemma EmptyGlobalSum(events: seq<Payment>, start: int, end: int)
    requires events == []
    ensures SumOfRows(RowsIn(events, start, end, Global)) == NOTHING
  {
    var rows := RowsIn(events, start, end, Global);
    assert |rows| == 1 && rows[0].health.tally == NOTHING;
    assert SumOfRows(rows[..0]) == NOTHING;
  }

  /** A row with enough transactions has a success rate, which is what Stage 3 asks of a snapshot. */
  lemma RowsAreValidSnapshots(t: Tally, segment: Segment, window: int, baseline: Option<real>)
    ensures var h := HealthOf(t);
            && Snapshot(segment, window, h.successRate, baseline, h.insufficientVolume).Valid()
            && (h.successRate.Some? <==> t.successes + t.failures > 0)
            && (h.successRate.Some? ==> h.failureRate.Some? && h.successRate.value + h.failureRate.value == 1.0)
            && (h.successRate.Some? ==> h.successRate.value * (t.successes + t.failures) as real == t.successes as real)
            && (h.successRate.Some? && t.successes >= 0 && t.failures >= 0 ==> 0.0 <= h.successRate.value <= 1.0)
  {
    var n := t.successes + t.failures;
    if n > 0 {
      RatesAddUp(t.successes, t.failures);
      RateMeaning(t.successes, n);
      if t.successes >= 0 && t.failures >= 0 {
        RateInUnit(t.successes, n);
      }
    }
  }
}

/**
 The dashboard's aggregations. The database groups events; the service spreads
 the grouped rows over the buckets of a chart and over the overview's counters.
 Instants are whole microseconds since 1970-01-01, as `datetime` keeps them.
 */
module Stats {
  datatype Action = Allow | Deny | Monitor

  datatype Severity = Low | Medium | High

  datatype Event = Event(at: int, action: Action, severity: Severity)

  datatype Window = OneHour | OneDay | SevenDays | ThirtyDays

  /** Both in whole seconds. */
  datatype WindowSpec = WindowSpec(span: nat, bucket: nat) {
    predicate Valid() {
      0 < bucket <= span && span % bucket == 0
    }

    function BucketCount(): nat
      requires bucket > 0
    {
      span / bucket
    }
  }

  const SECOND := 1_000_000
  const HOUR := 3600
  const DAY := 24 * HOUR

  function SpecOf(window: Window): (spec: WindowSpec)
    ensures spec.Valid() && 12 <= spec.BucketCount() <= 30
  {
    match window
    case OneHour => WindowSpec(HOUR, 300)
    case OneDay => WindowSpec(DAY, HOUR)
    case SevenDays => WindowSpec(7 * DAY, 6 * HOUR)
    case ThirtyDays => WindowSpec(30 * DAY, DAY)
  }

  function StartOf(window: Window, now: int): int {
    now - SpecOf(window).span * SECOND
  }

  /** What each window spans, and its bars: an hour in twelves of five minutes, a day by the hour, a week by six hours, a month by days. */
  lemma WindowsAreAsNamed(now: int)
    ensures now - StartOf(OneHour, now) == 3_600_000_000 && SpecOf(OneHour).BucketCount() == 12
    ensures now - StartOf(OneDay, now) == 86_400_000_000 && SpecOf(OneDay).BucketCount() == 24
    ensures now - StartOf(SevenDays, now) == 604_800_000_000 && SpecOf(SevenDays).BucketCount() == 28
    ensures now - StartOf(ThirtyDays, now) == 2_592_000_000_000 && SpecOf(ThirtyDays).BucketCount() == 30
  {
  }

  /** Division that drops the fraction: Python's `int` of a quotient, and integer `/` in SQL. */
  function Truncated(a: int, b: int): int
    requires b > 0
  {
    if a >= 0 then a / b else -(-a / b)
  }

  /** The window's start in epoch seconds, as the service computes it. */
  function ToEpoch(start: int): int {
    Truncated(start, SECOND)
  }

  /** An event's epoch seconds, as the database computes it: floored. */
  function EpochSeconds(at: int): int {
    at / SECOND
  }

  function BucketIndex(at: int, startEpoch: int, bucketSeconds: nat): int
    requires bucketSeconds > 0
  {
    Truncated(EpochSeconds(at) - startEpoch, bucketSeconds)
  }

  function SlotOf(index: int, count: nat): int {
    if index < count - 1 then index else count - 1
  }

  predicate InWindow(at: int, start: int, spec: WindowSpec) {
    start <= at < start + spec.span * SECOND
  }

  function IndexIn(at: int, start: int, spec: WindowSpec): int
    requires spec.Valid()
  {
    BucketIndex(at, ToEpoch(start), spec.bucket)
  }

  // --- every event of a window has a slot ---------------------------------

  lemma FloorOfSum(x: int, s: int)
    ensures (x + s * SECOND) / SECOND == x / SECOND + s
  {
  }

  /** How far an event is from the start, in the seconds the two clocks count. */
  lemma SecondsFromStart(at: int, start: int, spec: WindowSpec)
    requires InWindow(at, start, spec)
    ensures var d := EpochSeconds(at) - ToEpoch(start);
            && (start >= 0 || start % SECOND == 0 ==> ToEpoch(start) == start / SECOND && 0 <= d <= spec.span)
            && (start < 0 && start % SECOND != 0 ==> ToEpoch(start) == start / SECOND + 1 && -1 <= d < spec.span)
  {
    FloorOfSum(start, spec.span);
    assert start / SECOND <= at / SECOND <= start / SECOND + spec.span;
    if start < 0 && start % SECOND != 0 {
      assert -((-start) / SECOND) == start / SECOND + 1;
    }
  }

  lemma DivisionBounds(d: int, b: nat)
    requires b > 0
    ensures d >= 0 ==> Truncated(d, b) * b <= d < (Truncated(d, b) + 1) * b && Truncated(d, b) >= 0
    ensures d == -1 && b > 1 ==> Truncated(d, b) == 0
  {
    if d >= 0 {
      assert d == d / b * b + d % b;
    }
  }

  lemma QuotientBelow(d: int, count: nat, b: nat)
    requires b > 0 && d >= 0
    ensures Truncated(d, b) >= count <==> d >= count * b
  {
    DivisionBounds(d, b);
    if Truncated(d, b) >= count {
      assert Truncated(d, b) * b >= count * b;
    } else {
      assert (Truncated(d, b) + 1) * b <= count * b;
    }
  }

  /** No event of the window is dropped: its slot is one of the chart's. */
  lemma EveryEventHasASlot(at: int, start: int, window: Window)
    requires InWindow(at, start, SpecOf(window))
    ensures var spec := SpecOf(window);
            0 <= IndexIn(at, start, spec) && 0 <= SlotOf(IndexIn(at, start, spec), spec.BucketCount()) < spec.BucketCount()
  {
    var spec := SpecOf(window);
    SecondsFromStart(at, start, spec);
    DivisionBounds(EpochSeconds(at) - ToEpoch(start), spec.bucket);
  }

  /** Clamping is for the last, partial second of the window and for nothing else. */
  lemma ClampedOnlyInTheLastSecond(at: int, now: int, window: Window)
    requires InWindow(at, StartOf(window, now), SpecOf(window))
    ensures var spec := SpecOf(window);
            var start := StartOf(window, now);
            spec.BucketCount() <= IndexIn(at, start, spec) <==> start >= 0 && at / SECOND == now / SECOND
  {
    var spec := SpecOf(window);
    var start := StartOf(window, now);
    var d := EpochSeconds(at) - ToEpoch(start);
    SecondsFromStart(at, start, spec);
    FloorOfSum(start, spec.span);
    if d >= 0 {
      QuotientBelow(d, spec.BucketCount(), spec.bucket);
      assert spec.BucketCount() * spec.bucket == spec.span;
    } else {
      DivisionBounds(d, spec.bucket);
    }
  }

  /** An event `secs` to `secs + bucket` seconds from the start by the two clocks, in microseconds. */
  lemma PlacedBySeconds(at: int, start: int, secs: int, bucket: nat)
    requires secs <= EpochSeconds(at) - ToEpoch(start) < secs + bucket
    ensures start + secs * SECOND - SECOND < at < start + (secs + bucket + 1) * SECOND
    ensures start >= 0 ==> at < start + (secs + bucket) * SECOND
    ensures start % SECOND == 0 ==> start + secs * SECOND <= at < start + (secs + bucket) * SECOND
  {
    assert at == at / SECOND * SECOND + at % SECOND && start == start / SECOND * SECOND + start % SECOND;
  }

  /** The seconds of the slot an event gets hold the event, but for the clamped and the truncated ends. */
  lemma SecondsOfSlot(d: int, spec: WindowSpec, slot: int)
    requires spec.Valid() && spec.bucket > 1 && -1 <= d <= spec.span
    requires slot == SlotOf(Truncated(d, spec.bucket), spec.BucketCount())
    ensures 0 <= slot < spec.BucketCount()
    ensures 0 <= d < spec.span ==> slot * spec.bucket <= d < slot * spec.bucket + spec.bucket
    ensures d == spec.span ==> slot * spec.bucket + spec.bucket == d
    ensures d == -1 ==> slot == 0
  {
    var b, count := spec.bucket, spec.BucketCount();
    assert count * b == spec.span;
    DivisionBounds(d, b);
    if d >= 0 {
      QuotientBelow(d, count, b);
      assert (Truncated(d, b) + 1) * b == Truncated(d, b) * b + b;
      assert (count - 1) * b == spec.span - b;
      if d == spec.span {
        assert slot == count - 1;
      }
    }
  }

  /** The bucket an event is counted in is, to within a second, the one it happened in. */
  lemma SlotIsWhereItHappened(at: int, start: int, window: Window)
    requires InWindow(at, start, SpecOf(window))
    ensures var spec := SpecOf(window);
            var slot := SlotOf(IndexIn(at, start, spec), spec.BucketCount());
            var bucketAt := start + slot * spec.bucket * SECOND;
            && bucketAt - SECOND < at < bucketAt + (spec.bucket + 1) * SECOND
            && (start >= 0 ==> at < bucketAt + spec.bucket * SECOND)
            && (start % SECOND == 0 ==> bucketAt <= at)
  {
    var spec := SpecOf(window);
    var d := EpochSeconds(at) - ToEpoch(start);
    var slot := SlotOf(IndexIn(at, start, spec), spec.BucketCount());
    SecondsFromStart(at, start, spec);
    SecondsOfSlot(d, spec, slot);
    hide Truncated, SlotOf, IndexIn, BucketIndex;
    var secs := slot * spec.bucket;
    if 0 <= d < spec.span {
      PlacedBySeconds(at, start, secs, spec.bucket);
    } else {
      PlacedBySeconds(at, start, d, 1);
    }
  }

  /**
   The code writes `//` for the division, but the databases it runs on truncate.
   Flooring would lose events: exactly those in the first partial second of a
   window that starts before 1970 within a second.
   */
  lemma FlooringWouldDrop(at: int, start: int, window: Window)
    requires InWindow(at, start, SpecOf(window))
    ensures (EpochSeconds(at) - ToEpoch(start)) / SpecOf(window).bucket < 0 <==>
      start < 0 && start % SECOND != 0 && at / SECOND == start / SECOND
  {
    SecondsFromStart(at, start, SpecOf(window));
  }

  // --- grouped rows --------------------------------------------------------

  datatype Row<K> = Row(key: K, total: nat)

  ghost function CountIf(events: seq<Event>, p: Event -> bool): nat {
    if events == [] then 0
    else CountIf(events[1..], p) + if p(events[0]) then 1 else 0
  }

  /** What `SELECT key, count(*) ... WHERE selected GROUP BY key` returns, in any order. */
  ghost predicate IsGroupBy<K(!new)>(events: seq<Event>, selected: Event -> bool, key: Event -> K, rows: seq<Row<K>>) {
    && (forall i, j :: 0 <= i < j < |rows| ==> rows[i].key != rows[j].key)
    && (forall i :: 0 <= i < |rows| ==> rows[i].total == CountIf(events, e => selected(e) && key(e) == rows[i].key))
    && forall e :: e in events && selected(e) ==> HasRow(rows, key(e))
  }

  ghost predicate HasRow<K(!new)>(rows: seq<Row<K>>, k: K) {
    exists i :: 0 <= i < |rows| && rows[i].key == k
  }

  ghost function SumIf<K>(rows: seq<Row<K>>, p: K -> bool): nat {
    if rows == [] then 0
    else SumIf(rows[..|rows| - 1], p) + if p(rows[|rows| - 1].key) then rows[|rows| - 1].total else 0
  }

  lemma {:induction false} CountAgrees(events: seq<Event>, p: Event -> bool, q: Event -> bool)
    requires forall e :: e in events ==> p(e) == q(e)
    ensures CountIf(events, p) == CountIf(events, q)
  {
    if events != [] {
      assert events[0] in events;
      CountAgrees(events[1..], p, q);
    }
  }

  lemma {:induction false} CountSplits(events: seq<Event>, p: Event -> bool, q: Event -> bool, both: Event -> bool)
    requires forall e :: e in events ==> !(p(e) && q(e)) && both(e) == (p(e) || q(e))
    ensures CountIf(events, both) == CountIf(events, p) + CountIf(events, q)
  {
    if events != [] {
      assert events[0] in events;
      CountSplits(events[1..], p, q, both);
    }
  }

  lemma {:induction false} SumOfFirstRows<K(!new)>(events: seq<Event>, selected: Event -> bool, key: Event -> K,
                                                  rows: seq<Row<K>>, p: K -> bool, n: nat)
    requires IsGroupBy(events, selected, key, rows) && n <= |rows|
    ensures SumIf(rows[..n], p) == CountIf(events, e => selected(e) && p(key(e)) && HasRow(rows[..n], key(e)))
  {
    var counted := e => selected(e) && p(key(e)) && HasRow(rows[..n], key(e));
    if n == 0 {
      CountAgrees(events, counted, e => false);
      CountNothing(events);
    } else {
      var before, row := rows[..n - 1], rows[n - 1];
      assert rows[..n][..n - 1] == before;
      SumOfFirstRows(events, selected, key, rows, p, n - 1);
      var earlier := e => selected(e) && p(key(e)) && HasRow(before, key(e));
      var ofRow := e => selected(e) && key(e) == row.key;
      forall e ensures HasRow(rows[..n], key(e)) <==> HasRow(before, key(e)) || key(e) == row.key {
        assert rows[..n] == before + [row];
        if HasRow(before, key(e)) {
          var i :| 0 <= i < |before| && before[i].key == key(e);
          assert rows[..n][i].key == key(e);
        }
        if key(e) == row.key {
          assert rows[..n][n - 1].key == key(e);
        }
      }
      assert !HasRow(before, row.key);
      if p(row.key) {
        CountSplits(events, earlier, ofRow, counted);
      } else {
        CountAgrees(events, earlier, counted);
      }
    }
  }

  lemma {:induction false} CountNothing(events: seq<Event>)
    ensures CountIf(events, e => false) == 0
  {
    if events != [] {
      CountNothing(events[1..]);
    }
  }

  /** Adding up grouped rows counts events. */
  lemma SumOfRowsCountsEvents<K(!new)>(events: seq<Event>, selected: Event -> bool, key: Event -> K,
                                       rows: seq<Row<K>>, p: K -> bool, counted: Event -> bool)
    requires IsGroupBy(events, selected, key, rows)
    requires forall e :: e in events ==> counted(e) == (selected(e) && p(key(e)))
    ensures SumIf(rows, p) == CountIf(events, counted)
  {
    SumOfFirstRows(events, selected, key, rows, p, |rows|);
    assert rows[..|rows|] == rows;
    CountAgrees(events, e => selected(e) && p(key(e)) && HasRow(rows[..|rows|], key(e)), counted);
  }

  // --- the chart -----------------------------------------------------------

  datatype ChartKey = ChartKey(index: int, action: Action)

  datatype Bucket = Bucket(bucketAt: int, allow: nat, deny: nat, monitor: nat) {
    function Of(action: Action): nat {
      match action
      case Allow => allow
      case Deny => deny
      case Monitor => monitor
    }

    function Plus(action: Action, total: nat): Bucket {
      match action
      case Allow => this.(allow := allow + total)
      case Deny => this.(deny := deny + total)
      case Monitor => this.(monitor := monitor + total)
    }
  }

  predicate Within(window: Window, now: int, e: Event) {
    InWindow(e.at, StartOf(window, now), SpecOf(window))
  }

  ghost function During(window: Window, now: int): Event -> bool {
    (e: Event) => Within(window, now, e)
  }

  ghost function Acted(window: Window, now: int, action: Action): Event -> bool {
    (e: Event) => Within(window, now, e) && e.action == action
  }

  ghost function ChartKeyOf(window: Window, now: int): Event -> ChartKey {
    (e: Event) => ChartKey(IndexIn(e.at, StartOf(window, now), SpecOf(window)), e.action)
  }

  function EventSlot(window: Window, now: int, at: int): int {
    SlotOf(IndexIn(at, StartOf(window, now), SpecOf(window)), SpecOf(window).BucketCount())
  }

  /** The events with an action whose slot is `slot`. */
  ghost function Charted(window: Window, now: int, action: Action, slot: int): Event -> bool {
    (e: Event) => Within(window, now, e) && e.action == action && EventSlot(window, now, e.at) == slot
  }

  ghost function ChartedBelow(window: Window, now: int, action: Action, slots: int): Event -> bool {
    (e: Event) => Within(window, now, e) && e.action == action && EventSlot(window, now, e.at) < slots
  }

  ghost function KeyInSlot(slot: int, count: nat, action: Action): ChartKey -> bool {
    (key: ChartKey) => SlotOf(key.index, count) == slot && key.action == action
  }

  ghost function Total(buckets: seq<Bucket>, action: Action): nat {
    if buckets == [] then 0 else Total(buckets[..|buckets| - 1], action) + buckets[|buckets| - 1].Of(action)
  }

  lemma SlotCountsItsEvents(events: seq<Event>, window: Window, now: int, rows: seq<Row<ChartKey>>, slot: int, action: Action)
    requires IsGroupBy(events, During(window, now), ChartKeyOf(window, now), rows)
    ensures SumIf(rows, KeyInSlot(slot, SpecOf(window).BucketCount(), action)) == CountIf(events, Charted(window, now, action, slot))
  {
    var p := KeyInSlot(slot, SpecOf(window).BucketCount(), action);
    forall e: Event ensures (During(window, now)(e) && p(ChartKeyOf(window, now)(e))) == Charted(window, now, action, slot)(e) {
      assert During(window, now)(e) == Within(window, now, e);
      assert ChartKeyOf(window, now)(e) == ChartKey(IndexIn(e.at, StartOf(window, now), SpecOf(window)), e.action);
    }
    SumOfRowsCountsEvents(events, During(window, now), ChartKeyOf(window, now), rows, p, Charted(window, now, action, slot));
  }

  lemma {:induction false} TotalOfFirstBuckets(events: seq<Event>, window: Window, now: int, buckets: seq<Bucket>, action: Action, n: nat)
    requires n <= |buckets|
    requires forall k :: 0 <= k < n ==> buckets[k].Of(action) == CountIf(events, Charted(window, now, action, k))
    ensures Total(buckets[..n], action) == CountIf(events, ChartedBelow(window, now, action, n))
  {
    if n == 0 {
      forall e | e in events ensures !ChartedBelow(window, now, action, 0)(e) {
        if Within(window, now, e) {
          EveryEventHasASlot(e.at, StartOf(window, now), window);
        }
      }
      CountAgrees(events, ChartedBelow(window, now, action, 0), e => false);
      CountNothing(events);
    } else {
      assert buckets[..n][..n - 1] == buckets[..n - 1];
      TotalOfFirstBuckets(events, window, now, buckets, action, n - 1);
      CountSplits(events, ChartedBelow(window, now, action, n - 1), Charted(window, now, action, n - 1),
                  ChartedBelow(window, now, action, n));
    }
  }

  /** Buckets that hold what happened in their slots hold, together, all that happened. */
  lemma ChartLosesNothing(events: seq<Event>, window: Window, now: int, buckets: seq<Bucket>, action: Action)
    requires |buckets| == SpecOf(window).BucketCount()
    requires forall k :: 0 <= k < |buckets| ==> buckets[k].Of(action) == CountIf(events, Charted(window, now, action, k))
    ensures Total(buckets, action) == CountIf(events, Acted(window, now, action))
  {
    TotalOfFirstBuckets(events, window, now, buckets, action, |buckets|);
    assert buckets[..|buckets|] == buckets;
    forall e | e in events ensures ChartedBelow(window, now, action, |buckets|)(e) == Acted(window, now, action)(e) {
      if Within(window, now, e) {
        EveryEventHasASlot(e.at, StartOf(window, now), window);
      }
    }
    CountAgrees(events, ChartedBelow(window, now, action, |buckets|), Acted(window, now, action));
  }

  /** The rows a chart is made of: the database groups the window's events by bucket index and action. */
  method Timeseries(window: Window, now: int, rows: seq<Row<ChartKey>>, ghost events: seq<Event>) returns (buckets: seq<Bucket>)
    requires IsGroupBy(events, During(window, now), ChartKeyOf(window, now), rows)
    ensures |buckets| == SpecOf(window).BucketCount()
    ensures forall k :: 0 <= k < |buckets| ==> buckets[k].bucketAt == StartOf(window, now) + k * SpecOf(window).bucket * SECOND
    ensures forall k, action :: 0 <= k < |buckets| ==> buckets[k].Of(action) == CountIf(events, Charted(window, now, action, k))
    ensures forall action :: Total(buckets, action) == CountIf(events, Acted(window, now, action))
  {
    hide IsGroupBy, CountIf, Charted, Acted, StartOf;
    var spec := SpecOf(window);
    var count := spec.BucketCount();
    var start := StartOf(window, now);
    buckets := seq(count, k => Bucket(start + k * spec.bucket * SECOND, 0, 0, 0));
    for n := 0 to |rows|
      invariant |buckets| == count
      invariant forall k :: 0 <= k < count ==> buckets[k].bucketAt == start + k * spec.bucket * SECOND
      invariant forall k, action :: 0 <= k < count ==> buckets[k].Of(action) == SumIf(rows[..n], KeyInSlot(k, count, action))
    {
      assert rows[..n + 1][..n] == rows[..n];
      var row := rows[n];
      var slot := SlotOf(row.key.index, count);
      if slot >= 0 {
        buckets := buckets[slot := buckets[slot].Plus(row.key.action, row.total)];
      }
    }
    assert rows[..|rows|] == rows;
    forall k, action | 0 <= k < count ensures buckets[k].Of(action) == CountIf(events, Charted(window, now, action, k)) {
      SlotCountsItsEvents(events, window, now, rows, k, action);
    }
    forall action ensures Total(buckets, action) == CountIf(events, Acted(window, now, action)) {
      ChartLosesNothing(events, window, now, buckets, action);
    }
  }

  // --- the overview --------------------------------------------------------

  datatype OverviewKey = OverviewKey(current: bool, action: Action, severity: Severity)

  datatype Metric = Metric(current: nat, previous: nat)

  ghost function DuringBoth(window: Window, now: int): Event -> bool {
    (e: Event) => StartOf(window, now) - SpecOf(window).span * SECOND <= e.at < now
  }

  ghost function OverviewKeyOf(window: Window, now: int): Event -> OverviewKey {
    (e: Event) => OverviewKey(e.at >= StartOf(window, now), e.action, e.severity)
  }

  /** What a counter counts: everything, one action, or one severity. */
  datatype Counter = Requests | OfAction(action: Action) | HighSeverity {
    predicate Counts(acted: Action, severity: Severity) {
      match this
      case Requests => true
      case OfAction(a) => acted == a
      case HighSeverity => severity == High
    }
  }

  ghost function Counted(window: Window, now: int, counter: Counter): Event -> bool {
    (e: Event) => Within(window, now, e) && counter.Counts(e.action, e.severity)
  }

  ghost function KeyCounted(counter: Counter, current: bool): OverviewKey -> bool {
    (key: OverviewKey) => key.current == current && counter.Counts(key.action, key.severity)
  }

  /** A metric compares a counter over the window with the same counter over the window before it. */
  ghost predicate Measures(m: Metric, events: seq<Event>, window: Window, now: int, counter: Counter) {
    && m.current == CountIf(events, Counted(window, now, counter))
    && m.previous == CountIf(events, Counted(window, StartOf(window, now), counter))
  }

  lemma RowsMeasure(events: seq<Event>, window: Window, now: int, rows: seq<Row<OverviewKey>>, counter: Counter, m: Metric)
    requires IsGroupBy(events, DuringBoth(window, now), OverviewKeyOf(window, now), rows)
    requires m == Metric(SumIf(rows, KeyCounted(counter, true)), SumIf(rows, KeyCounted(counter, false)))
    ensures Measures(m, events, window, now, counter)
  {
    forall current: bool
      ensures SumIf(rows, KeyCounted(counter, current)) ==
        CountIf(events, Counted(window, if current then now else StartOf(window, now), counter))
    {
      var p := KeyCounted(counter, current);
      var counted := Counted(window, if current then now else StartOf(window, now), counter);
      forall e: Event ensures (DuringBoth(window, now)(e) && p(OverviewKeyOf(window, now)(e))) == counted(e) {
        assert OverviewKeyOf(window, now)(e) == OverviewKey(e.at >= StartOf(window, now), e.action, e.severity);
      }
      SumOfRowsCountsEvents(events, DuringBoth(window, now), OverviewKeyOf(window, now), rows, p, counted);
    }
  }

  method Overview(window: Window, now: int, rows: seq<Row<OverviewKey>>, ghost events: seq<Event>)
    returns (requests: Metric, blocked: Metric, monitored: Metric, highSeverity: Metric)
    requires IsGroupBy(events, DuringBoth(window, now), OverviewKeyOf(window, now), rows)
    ensures Measures(requests, events, window, now, Requests)
    ensures Measures(blocked, events, window, now, OfAction(Deny))
    ensures Measures(monitored, events, window, now, OfAction(Monitor))
    ensures Measures(highSeverity, events, window, now, HighSeverity)
  {
    hide IsGroupBy, Measures;
    requests, blocked, monitored, highSeverity := Metric(0, 0), Metric(0, 0), Metric(0, 0), Metric(0, 0);
    for n := 0 to |rows|
      invariant Adds(requests, rows[..n], Requests) && Adds(blocked, rows[..n], OfAction(Deny))
      invariant Adds(monitored, rows[..n], OfAction(Monitor)) && Adds(highSeverity, rows[..n], HighSeverity)
    {
      assert rows[..n + 1][..n] == rows[..n];
      var Row(key, total) := rows[n];
      requests := Count(requests, key.current, total);
      if key.action == Deny {
        blocked := Count(blocked, key.current, total);
      } else if key.action == Monitor {
        monitored := Count(monitored, key.current, total);
      }
      if key.severity == High {
        highSeverity := Count(highSeverity, key.current, total);
      }
    }
    assert rows[..|rows|] == rows;
    RowsMeasure(events, window, now, rows, Requests, requests);
    RowsMeasure(events, window, now, rows, OfAction(Deny), blocked);
    RowsMeasure(events, window, now, rows, OfAction(Monitor), monitored);
    RowsMeasure(events, window, now, rows, HighSeverity, highSeverity);
  }

  ghost predicate Adds(m: Metric, rows: seq<Row<OverviewKey>>, counter: Counter) {
    m == Metric(SumIf(rows, KeyCounted(counter, true)), SumIf(rows, KeyCounted(counter, false)))
  }

  function Count(m: Metric, current: bool, total: nat): Metric {
    if current then m.(current := m.current + total) else m.(previous := m.previous + total)
  }

  /** The two endpoints agree: the chart's bars add up to the overview's counters. */
  lemma ChartAddsUpToOverview(events: seq<Event>, window: Window, now: int, buckets: seq<Bucket>,
                              requests: Metric, blocked: Metric, monitored: Metric)
    requires forall action :: Total(buckets, action) == CountIf(events, Acted(window, now, action))
    requires Measures(requests, events, window, now, Requests)
    requires Measures(blocked, events, window, now, OfAction(Deny)) && Measures(monitored, events, window, now, OfAction(Monitor))
    ensures Total(buckets, Deny) == blocked.current && Total(buckets, Monitor) == monitored.current
    ensures Total(buckets, Allow) + Total(buckets, Deny) + Total(buckets, Monitor) == requests.current
  {
    CountAgrees(events, Acted(window, now, Deny), Counted(window, now, OfAction(Deny)));
    CountAgrees(events, Acted(window, now, Monitor), Counted(window, now, OfAction(Monitor)));
    var refused := (e: Event) => Within(window, now, e) && e.action != Allow;
    CountSplits(events, Acted(window, now, Deny), Acted(window, now, Monitor), refused);
    CountSplits(events, Acted(window, now, Allow), refused, Counted(window, now, Requests));
  }
}

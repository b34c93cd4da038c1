/** The report's periods and its revenue bars: by hour for today, by day otherwise. */
module ReportBars {
  import opened Bookings
  import opened Clock
  import opened Planning
  import opened Reports
  import opened Sums

  datatype Period = Today | Week | Month

  /** The period ending with today. Month runs from the first of the month, so it needs
      today's day of the month. */
  function PeriodBounds(period: Period, now: Instant, dayOfMonth: int): (Instant, Instant) {
    var today := DayBounds(now);
    match period
    case Today => today
    case Week => (today.0 - 6 * DAY, today.1)
    case Month => (today.0 - (dayOfMonth - 1) * DAY, today.1)
  }

  function PreviousPeriodBounds(start: Instant, end: Instant): (Instant, Instant) {
    (start - (end - start), start)
  }

  function WholeDays(span: Duration): int {
    TruncDiv(TruncDiv(span, HOUR), 24)
  }

  function LocalHour(t: Instant): int {
    (t + LOCAL_OFFSET) % DAY / HOUR
  }

  function BucketIndex(period: Period, start: Instant, t: Instant): int {
    if period.Today? then LocalHour(t) else WholeDays(t - start)
  }

  function BarWidth(period: Period): Duration {
    if period.Today? then HOUR else DAY
  }

  /** How many days a period spans. */
  function PeriodDays(period: Period, dayOfMonth: int): int {
    match period case Today => 1 case Week => 7 case Month => dayOfMonth
  }

  lemma PeriodSpan(period: Period, now: Instant, dayOfMonth: int)
    requires 1 <= dayOfMonth <= 31
    ensures var (start, end) := PeriodBounds(period, now, dayOfMonth);
            && end - start == PeriodDays(period, dayOfMonth) * DAY
            && (start + LOCAL_OFFSET) % DAY == 0
            && start <= now < end && end - DAY <= now
            && PreviousPeriodBounds(start, end) == (start - PeriodDays(period, dayOfMonth) * DAY, start)
  {
    DayBoundsTile(now, now);
  }

  lemma WholeDaysExact(span: Duration, n: int)
    requires span >= 0
    ensures n * DAY <= span < (n + 1) * DAY <==> WholeDays(span) == n
  {
    assert span / HOUR / 24 == span / DAY;
    assert n * DAY <= span < (n + 1) * DAY <==> span / DAY == n;
  }

  /** Within its period a booking's index is that of the bar holding its start. */
  lemma IndexIsHoldingBar(period: Period, now: Instant, dayOfMonth: int, t: Instant)
    requires 1 <= dayOfMonth <= 31
    ensures var (start, end) := PeriodBounds(period, now, dayOfMonth);
            var n := if period.Today? then 24 else PeriodDays(period, dayOfMonth);
            var i := BucketIndex(period, start, t);
            start <= t < end ==> 0 <= i < n && start + i * BarWidth(period) <= t < start + (i + 1) * BarWidth(period)
  {
    PeriodSpan(period, now, dayOfMonth);
    var (start, end) := PeriodBounds(period, now, dayOfMonth);
    if start <= t < end {
      if period.Today? {
        var k := (start + LOCAL_OFFSET) / DAY;
        assert start + LOCAL_OFFSET == k * DAY;
        OffsetInDay(t + LOCAL_OFFSET, k);
      } else {
        WholeDaysExact(t - start, WholeDays(t - start));
      }
    }
  }

  lemma OffsetInDay(x: int, k: int)
    requires k * DAY <= x < k * DAY + DAY
    ensures x % DAY == x - k * DAY
  {
    assert x / DAY == k;
  }

  // ----- the bars -----

  datatype Bar = Bar(timestamp: Instant, revenue: int, highlighted: bool)

  function BarRevenue(): Bar -> int {
    (b: Bar) => b.revenue
  }

  /** The revenue of the completed rows with bucket index i. */
  function BarTally(prices: Prices, period: Period, start: Instant, i: int, rows: seq<Row>): int {
    if rows == [] then 0
    else
      var row := rows[|rows| - 1];
      BarTally(prices, period, start, i, rows[..|rows| - 1]) +
      (if row.status == Ready && BucketIndex(period, start, row.start) == i then BookingPrice(prices, row) else 0)
  }

  ghost predicate AllWithin(rows: seq<Row>, start: Instant, end: Instant) {
    forall k :: 0 <= k < |rows| ==> start <= rows[k].start < end
  }

  function SameDay(a: Instant, b: Instant): bool {
    LocalDay(a) == LocalDay(b)
  }

  /** Hourly buckets for one day, or one per day of the period. */
  method EmptyBuckets(period: Period, start: Instant, end: Instant) returns (bars: seq<Bar>)
    requires start <= end
    ensures |bars| == if period.Today? then 24 else WholeDays(end - start)
    ensures forall i :: 0 <= i < |bars| ==> bars[i] == Bar(start + i * BarWidth(period), 0, false)
    ensures Sum(BarRevenue(), bars) == 0
  {
    var n := if period.Today? then 24 else WholeDays(end - start);
    bars := [];
    for i := 0 to n
      invariant |bars| == i && forall k :: 0 <= k < i ==> bars[k] == Bar(start + k * BarWidth(period), 0, false)
    {
      bars := bars + [Bar(start + i * BarWidth(period), 0, false)];
    }
    SumZero(BarRevenue(), bars);
  }

  /** Adds the completed rows' revenue to the bars. */
  method FillBars(period: Period, start: Instant, ghost end: Instant, rows: seq<Row>, prices: Prices, empty: seq<Bar>)
    returns (bars: seq<Bar>)
    requires forall i :: 0 <= i < |empty| ==> empty[i].revenue == 0
    requires Sum(BarRevenue(), empty) == 0
    requires forall t :: start <= t < end ==> 0 <= BucketIndex(period, start, t) < |empty|
    ensures |bars| == |empty|
    ensures forall i :: 0 <= i < |bars| ==>
      bars[i] == empty[i].(revenue := BarTally(prices, period, start, i, rows))
    ensures AllWithin(rows, start, end) ==> Sum(BarRevenue(), bars) == Tally(prices, TotalLine, Revenue, rows)
  {
    bars := empty;
    for k := 0 to |rows|
      invariant |bars| == |empty|
      invariant forall i :: 0 <= i < |bars| ==>
        bars[i] == empty[i].(revenue := BarTally(prices, period, start, i, rows[..k]))
      invariant AllWithin(rows, start, end) ==> Sum(BarRevenue(), bars) == Tally(prices, TotalLine, Revenue, rows[..k])
    {
      assert rows[..k + 1][..k] == rows[..k];
      bars := FillOne(period, start, rows[k], prices, bars);
    }
    assert rows[..|rows|] == rows;
  }

  /** Adds one row's revenue to the bar it falls into, if it is completed and there is one. */
  method FillOne(period: Period, start: Instant, row: Row, prices: Prices, before: seq<Bar>) returns (bars: seq<Bar>)
    ensures |bars| == |before|
    ensures forall i :: 0 <= i < |bars| ==>
      bars[i] == before[i].(revenue := before[i].revenue +
        if row.status == Ready && BucketIndex(period, start, row.start) == i then BookingPrice(prices, row) else 0)
    ensures row.status != Ready ==> bars == before
    ensures row.status == Ready && 0 <= BucketIndex(period, start, row.start) < |before| ==>
      Sum(BarRevenue(), bars) == Sum(BarRevenue(), before) + BookingPrice(prices, row)
  {
    bars := before;
    if row.status != Ready {
      return;
    }
    var idx := BucketIndex(period, start, row.start);
    if idx < 0 || idx >= |bars| {
      return;
    }
    var price := ComputePrice(row, prices);
    SumUpdate(BarRevenue(), bars, idx, bars[idx].(revenue := bars[idx].revenue + price));
    bars := bars[idx := bars[idx].(revenue := bars[idx].revenue + price)];
  }

  /** A bar covers the hour or day that begins at its timestamp. */
  predicate Holds(period: Period, timestamp: Instant, now: Instant) {
    timestamp <= now < timestamp + BarWidth(period)
  }

  predicate Highlighted(period: Period, timestamp: Instant, now: Instant) {
    if period.Today? then LocalHour(timestamp) == LocalHour(now) && SameDay(timestamp, now) else SameDay(timestamp, now)
  }

  lemma DayHolds(ts: Instant, now: Instant, k: int)
    requires ts + LOCAL_OFFSET == k * DAY
    ensures SameDay(ts, now) <==> ts <= now < ts + DAY
  {
    DayBoundsTile(ts, now);
  }

  lemma HourHolds(start: Instant, now: Instant, k: int, i: int)
    requires start + LOCAL_OFFSET == k * DAY && start <= now < start + DAY && 0 <= i < 24
    ensures var ts := start + i * HOUR;
            LocalHour(ts) == LocalHour(now) && SameDay(ts, now) <==> ts <= now < ts + HOUR
  {
    var ts := start + i * HOUR;
    OffsetInDay(ts + LOCAL_OFFSET, k);
    OffsetInDay(now + LOCAL_OFFSET, k);
    assert LocalHour(ts) == i && LocalHour(now) == (now - start) / HOUR;
    assert LocalDay(ts) == k && LocalDay(now) == k;
  }

  lemma HighlightHoldsNow(period: Period, now: Instant, dayOfMonth: int, i: int)
    requires 1 <= dayOfMonth <= 31 && 0 <= i < if period.Today? then 24 else PeriodDays(period, dayOfMonth)
    ensures var ts := PeriodBounds(period, now, dayOfMonth).0 + i * BarWidth(period);
            Highlighted(period, ts, now) <==> Holds(period, ts, now)
  {
    PeriodSpan(period, now, dayOfMonth);
    var start := PeriodBounds(period, now, dayOfMonth).0;
    var k := (start + LOCAL_OFFSET) / DAY;
    assert start + LOCAL_OFFSET == k * DAY;
    if period.Today? {
      HourHolds(start, now, k, i);
    } else {
      var ts := start + i * DAY;
      assert ts + LOCAL_OFFSET == (k + i) * DAY;
      DayHolds(ts, now, k + i);
    }
  }

  /** Marks the bars the report highlights. */
  method Highlight(period: Period, now: Instant, plain: seq<Bar>) returns (bars: seq<Bar>)
    ensures |bars| == |plain|
    ensures forall i :: 0 <= i < |bars| ==>
      bars[i] == plain[i].(highlighted := Highlighted(period, plain[i].timestamp, now))
    ensures Sum(BarRevenue(), bars) == Sum(BarRevenue(), plain)
  {
    bars := [];
    for i := 0 to |plain|
      invariant |bars| == i
      invariant forall j :: 0 <= j < i ==>
        bars[j] == plain[j].(highlighted := Highlighted(period, plain[j].timestamp, now))
      invariant Sum(BarRevenue(), bars) == Sum(BarRevenue(), plain[..i])
    {
      var bar := plain[i].(highlighted := Highlighted(period, plain[i].timestamp, now));
      assert (bars + [bar])[..i] == bars && plain[..i + 1][..i] == plain[..i];
      bars := bars + [bar];
    }
    assert plain[..|plain|] == plain;
  }

  /** Each bar has the revenue of the completed bookings that fall into it, so over rows
      within the period the bars add up to the report's total revenue; the one bar that
      holds now is highlighted. */
  method ComputeBars(period: Period, now: Instant, dayOfMonth: int, rows: seq<Row>, prices: Prices)
    returns (bars: seq<Bar>)
    requires 1 <= dayOfMonth <= 31
    ensures var (start, end) := PeriodBounds(period, now, dayOfMonth);
            && |bars| == (if period.Today? then 24 else PeriodDays(period, dayOfMonth))
            && (forall i :: 0 <= i < |bars| ==> bars[i].timestamp == start + i * BarWidth(period))
            && (forall i :: 0 <= i < |bars| ==> bars[i].revenue == BarTally(prices, period, start, i, rows))
            && (forall i :: 0 <= i < |bars| ==> (bars[i].highlighted <==> Holds(period, bars[i].timestamp, now)))
            && (AllWithin(rows, start, end) ==> Sum(BarRevenue(), bars) == Total(prices, TotalLine, rows).revenue)
  {
    var (start, end) := PeriodBounds(period, now, dayOfMonth);
    PeriodSpan(period, now, dayOfMonth);
    WholeDaysExact(end - start, PeriodDays(period, dayOfMonth));
    var empty := EmptyBuckets(period, start, end);
    forall t | start <= t < end ensures 0 <= BucketIndex(period, start, t) < |empty| {
      IndexIsHoldingBar(period, now, dayOfMonth, t);
    }
    var filled := FillBars(period, start, end, rows, prices, empty);
    bars := Highlight(period, now, filled);
    forall i | 0 <= i < |bars| ensures bars[i].highlighted <==> Holds(period, bars[i].timestamp, now) {
      HighlightHoldsNow(period, now, dayOfMonth, i);
    }
  }
}

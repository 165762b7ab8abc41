/** The scan reports: one filtered set of events, grouped in several ways. */
module Analytics {
  import opened Clock
  import opened Wrappers
  import opened Ordering

  /** A scan event; user agents are named by opaque codes. */
  datatype Scan = Scan(restaurant: Id, at: Time, agent: int)

  /** A midnight stands for the whole day that it opens. */
  function EndOfDay(t: Time): Time {
    if t % DAY == 0 then t + DAY - 1 else t
  }

  predicate InRange(s: Scan, r: Id, from: Option<Time>, to: Option<Time>) {
    && s.restaurant == r
    && (from.Some? ==> from.value <= s.at)
    && (to.Some? ==> s.at <= EndOfDay(to.value))
  }

  /** The rows that every report starts from. */
  function SelectScans(scans: seq<Scan>, r: Id, from: Option<Time>, to: Option<Time>): seq<Scan> {
    if scans == [] then []
    else
      var earlier := SelectScans(scans[..|scans| - 1], r, from, to);
      if InRange(scans[|scans| - 1], r, from, to) then earlier + [scans[|scans| - 1]] else earlier
  }

  lemma SelectMost(scans: seq<Scan>, r: Id, from: Option<Time>, to: Option<Time>, s: Scan)
    ensures SelectScans(scans + [s], r, from, to) ==
            SelectScans(scans, r, from, to) + (if InRange(s, r, from, to) then [s] else [])
  {
    assert (scans + [s])[..|scans|] == scans;
  }

  /** The reports start from exactly the restaurant's events from the first moment to the last, each as
      often as it occurs; a last moment at midnight stands for its whole day. */
  lemma {:induction false} SelectedAre(scans: seq<Scan>, r: Id, from: Option<Time>, to: Option<Time>, s: Scan)
    ensures multiset(SelectScans(scans, r, from, to))[s] ==
            if s.restaurant == r
               && (from.Some? ==> from.value <= s.at)
               && (to.Some? ==> s.at <= to.value
                                || (to.value % 86_400_000_000 == 0 && s.at < to.value + 86_400_000_000))
            then multiset(scans)[s] else 0
  {
    if scans != [] {
      var most, last := scans[..|scans| - 1], scans[|scans| - 1];
      assert scans == most + [last];
      SelectedAre(most, r, from, to, s);
      SelectMost(most, r, from, to, last);
    }
  }

  // ----- GROUP BY bucket ORDER BY bucket

  datatype Bar = Bar(bucket: int, count: nat)

  type Bucketing = Scan -> int

  function AddTo(report: seq<Bar>, b: int, n: nat): seq<Bar> {
    if report == [] then [Bar(b, n)]
    else if report[0].bucket == b then [Bar(b, report[0].count + n)] + report[1..]
    else if b < report[0].bucket then [Bar(b, n)] + report
    else [report[0]] + AddTo(report[1..], b, n)
  }

  function GroupBy(scans: seq<Scan>, f: Bucketing): seq<Bar> {
    if scans == [] then []
    else AddTo(GroupBy(scans[..|scans| - 1], f), f(scans[|scans| - 1]), 1)
  }

  /** Buckets strictly ascend, and no bar is empty. */
  ghost predicate Ascending(report: seq<Bar>) {
    report == [] ||
    (&& report[0].count > 0
     && (1 < |report| ==> report[0].bucket < report[1].bucket)
     && Ascending(report[1..]))
  }

  function Get(report: seq<Bar>, b: int): nat {
    if report == [] then 0 else (if report[0].bucket == b then report[0].count else 0) + Get(report[1..], b)
  }

  function Total(report: seq<Bar>): nat {
    if report == [] then 0 else report[0].count + Total(report[1..])
  }

  /** How many of the scans fall in a bucket. */
  function Count(scans: seq<Scan>, f: Bucketing, b: int): nat {
    if scans == [] then 0
    else Count(scans[..|scans| - 1], f, b) + (if f(scans[|scans| - 1]) == b then 1 else 0)
  }

  lemma {:induction false} AddToGet(report: seq<Bar>, b: int, n: nat, x: int)
    ensures Get(AddTo(report, b, n), x) == Get(report, x) + (if x == b then n else 0)
    ensures Total(AddTo(report, b, n)) == Total(report) + n
  {
    if report != [] && report[0].bucket < b { AddToGet(report[1..], b, n, x); }
  }

  lemma {:induction false} AddToAscending(report: seq<Bar>, b: int, n: nat)
    requires Ascending(report) && 0 < n
    ensures Ascending(AddTo(report, b, n))
    ensures AddTo(report, b, n)[0].bucket ==
            if report == [] || b < report[0].bucket then b else report[0].bucket
  {
    var more := AddTo(report, b, n);
    if report == [] {
      assert more[1..] == [];
    } else if report[0].bucket < b {
      AddToAscending(report[1..], b, n);
      assert more[1..] == AddTo(report[1..], b, n);
    } else if report[0].bucket == b {
      assert more[1..] == report[1..];
    } else {
      assert more[1..] == report;
    }
  }

  /** A report has exactly one bar per bucket that occurs, in order, with the bucket's count;
      its bars add up to the number of rows. */
  lemma {:induction false} ReportCounts(scans: seq<Scan>, f: Bucketing, b: int)
    ensures Ascending(GroupBy(scans, f))
    ensures Get(GroupBy(scans, f), b) == Count(scans, f, b)
    ensures Total(GroupBy(scans, f)) == |scans|
  {
    if scans != [] {
      var most := scans[..|scans| - 1];
      ReportCounts(most, f, b);
      AddToGet(GroupBy(most, f), f(scans[|scans| - 1]), 1, b);
      AddToAscending(GroupBy(most, f), f(scans[|scans| - 1]), 1);
    }
  }

  lemma {:induction false} GetBelow(report: seq<Bar>, b: int)
    requires Ascending(report) && (report != [] ==> b < report[0].bucket)
    ensures Get(report, b) == 0
  {
    if report != [] { GetBelow(report[1..], b); }
  }

  lemma HeadCount(report: seq<Bar>)
    requires Ascending(report)
    ensures report != [] ==>
              Get(report, report[0].bucket) == report[0].count > 0 && Get(report[1..], report[0].bucket) == 0
  {
    if report != [] { GetBelow(report[1..], report[0].bucket); }
  }

  /** Two ordered reports with the same counts are the same report. */
  lemma {:induction false} SameCountsSameReport(a: seq<Bar>, b: seq<Bar>)
    requires Ascending(a) && Ascending(b) && forall x :: Get(a, x) == Get(b, x)
    ensures a == b
  {
    HeadCount(a);
    HeadCount(b);
    if a != [] && b != [] {
      var x, y := a[0].bucket, b[0].bucket;
      if x < y { GetBelow(b, x); }
      if y < x { GetBelow(a, y); }
      assert a[0] == b[0];
      forall z ensures Get(a[1..], z) == Get(b[1..], z) {
        assert Get(a, z) == Get(b, z);
      }
      SameCountsSameReport(a[1..], b[1..]);
      assert a == [a[0]] + a[1..] && b == [b[0]] + b[1..];
    }
  }

  // ----- Coarser reports are sums of finer ones

  /** Adds up the bars whose buckets fall into the same coarser bucket. */
  function Rollup(report: seq<Bar>, g: int -> int): seq<Bar> {
    if report == [] then [] else AddTo(Rollup(report[1..], g), g(report[0].bucket), report[0].count)
  }

  lemma {:induction false} RollupAscending(report: seq<Bar>, g: int -> int)
    requires Ascending(report)
    ensures Ascending(Rollup(report, g))
  {
    if report != [] {
      RollupAscending(report[1..], g);
      AddToAscending(Rollup(report[1..], g), g(report[0].bucket), report[0].count);
    }
  }

  lemma {:induction false} RollupGet(report: seq<Bar>, b: int, n: nat, g: int -> int, x: int)
    ensures Get(Rollup(AddTo(report, b, n), g), x) == Get(Rollup(report, g), x) + (if g(b) == x then n else 0)
  {
    var more := AddTo(report, b, n);
    AddToGet(Rollup(more[1..], g), g(more[0].bucket), more[0].count, x);
    if report != [] {
      AddToGet(Rollup(report[1..], g), g(report[0].bucket), report[0].count, x);
      if report[0].bucket == b {
        assert more[1..] == report[1..];
      } else if b < report[0].bucket {
        assert more[1..] == report;
      } else {
        assert more[1..] == AddTo(report[1..], b, n);
        RollupGet(report[1..], b, n, g, x);
      }
    }
  }

  lemma {:induction false} RollupCounts(scans: seq<Scan>, f: Bucketing, h: Bucketing, g: int -> int, x: int)
    requires forall s :: h(s) == g(f(s))
    ensures Get(Rollup(GroupBy(scans, f), g), x) == Get(GroupBy(scans, h), x)
  {
    if scans != [] {
      var most, last := scans[..|scans| - 1], scans[|scans| - 1];
      RollupCounts(most, f, h, g, x);
      RollupGet(GroupBy(most, f), f(last), 1, g, x);
      AddToGet(GroupBy(most, h), h(last), 1, x);
    }
  }

  /** Summing the bars of a finer report gives the coarser report itself. */
  lemma RollupIsReport(scans: seq<Scan>, f: Bucketing, h: Bucketing, g: int -> int)
    requires forall s :: h(s) == g(f(s))
    ensures Rollup(GroupBy(scans, f), g) == GroupBy(scans, h)
  {
    ReportCounts(scans, f, 0);
    ReportCounts(scans, h, 0);
    RollupAscending(GroupBy(scans, f), g);
    forall x ensures Get(Rollup(GroupBy(scans, f), g), x) == Get(GroupBy(scans, h), x) {
      RollupCounts(scans, f, h, g, x);
    }
    SameCountsSameReport(Rollup(GroupBy(scans, f), g), GroupBy(scans, h));
  }

  // ----- The buckets of the reports

  function DayNumber(t: Time): int { t / DAY }

  function DayOf(t: Time): Time { DayNumber(t) * DAY }

  /** Weeks start on Monday; the first Monday after the epoch is day 4. */
  function WeekOf(t: Time): Time { (DayNumber(t) - (DayNumber(t) - 4) % 7) * DAY }

  /** A calendar says which month start each day belongs to. */
  function MonthOf(calendar: int -> Time, t: Time): Time { calendar(DayNumber(t)) }

  function HourOf(t: Time): int { t / HOUR % 24 }

  datatype Granularity = Daily | Weekly | Monthly

  /** Anything but the three known names means a daily report. */
  function ParseGranularity(name: string): Granularity {
    if name == "week" then Weekly else if name == "month" then Monthly else Daily
  }

  function Period(calendar: int -> Time, granularity: Granularity, t: Time): Time {
    match granularity
    case Daily => DayOf(t)
    case Weekly => WeekOf(t)
    case Monthly => MonthOf(calendar, t)
  }

  function ByPeriod(calendar: int -> Time, granularity: Granularity): Bucketing {
    (s: Scan) => Period(calendar, granularity, s.at)
  }

  function ByHour(): Bucketing { (s: Scan) => HourOf(s.at) }

  function ByAgent(): Bucketing { (s: Scan) => s.agent }

  lemma PeriodOfDay(calendar: int -> Time, granularity: Granularity, t: Time)
    ensures Period(calendar, granularity, DayOf(t)) == Period(calendar, granularity, t)
  {
  }

  lemma Quotient(n: int, d: int)
    requires 0 < d
    ensures d * (n / d) <= n < d * (n / d) + d
  {
  }

  lemma DayBounds(t: Time)
    ensures DayOf(t) <= t < DayOf(t) + DAY
  {
    Quotient(t, DAY);
  }

  lemma WeekBounds(t: Time)
    ensures WeekOf(t) <= t < WeekOf(t) + 7 * DAY
    ensures WeekOf(t) == (7 * ((DayNumber(t) - 4) / 7) + 4) * DAY
  {
    var n := DayNumber(t);
    assert n - (n - 4) % 7 == 7 * ((n - 4) / 7) + 4;
    assert 0 <= (n - 4) % 7 <= 6;
    DayBounds(t);
  }

  lemma HourBounds(t: Time)
    ensures 0 <= HourOf(t) < 24 && DayOf(t) + HourOf(t) * HOUR <= t < DayOf(t) + HourOf(t) * HOUR + HOUR
  {
    var h := t / HOUR;
    Quotient(t, HOUR);
    assert h / 24 * 24 + h % 24 == h;
    DayIsHours(t);
  }

  lemma DayIsHours(t: Time)
    ensures t / DAY == t / HOUR / 24
  {
    var h := t / HOUR;
    Quotient(t, HOUR);
    Quotient(h, 24);
    Quotient(t, DAY);
  }

  /** Days run from midnight to midnight and weeks from Monday to Monday; an hour's bucket is its
      place in its day. */
  lemma BucketsAreIntervals(t: Time)
    ensures DayOf(t) <= t < DayOf(t) + DAY && exists n :: DayOf(t) == n * DAY
    ensures WeekOf(t) <= t < WeekOf(t) + 7 * DAY && exists n :: WeekOf(t) == (7 * n + 4) * DAY
    ensures 0 <= HourOf(t) < 24 && DayOf(t) + HourOf(t) * HOUR <= t < DayOf(t) + HourOf(t) * HOUR + HOUR
  {
    DayBounds(t);
    WeekBounds(t);
    HourBounds(t);
  }

  /** The report by period that is shown for a granularity string, known or not. */
  function PeriodReport(selected: seq<Scan>, calendar: int -> Time, name: string): seq<Bar> {
    GroupBy(selected, ByPeriod(calendar, ParseGranularity(name)))
  }

  /** Whatever granularity is asked for, its report is the daily one summed over its periods; an unknown
      name gives the daily report itself. */
  lemma PeriodsRollUp(scans: seq<Scan>, calendar: int -> Time, name: string)
    ensures Rollup(PeriodReport(scans, calendar, "day"), day => Period(calendar, ParseGranularity(name), day)) ==
            PeriodReport(scans, calendar, name)
    ensures name != "week" && name != "month" ==>
              PeriodReport(scans, calendar, name) == PeriodReport(scans, calendar, "day")
  {
    var granularity := ParseGranularity(name);
    var f, h := ByPeriod(calendar, Daily), ByPeriod(calendar, granularity);
    var g: int -> int := day => Period(calendar, granularity, day);
    forall s ensures h(s) == g(f(s)) { PeriodOfDay(calendar, granularity, s.at); }
    RollupIsReport(scans, f, h, g);
  }

  // ----- What each bar counts, said of the events

  /** The events from one moment up to another, which is not included. */
  function Between(scans: seq<Scan>, low: Time, high: Time): nat {
    if scans == [] then 0
    else Between(scans[..|scans| - 1], low, high) + (if low <= scans[|scans| - 1].at < high then 1 else 0)
  }

  lemma {:induction false} CountBetween(scans: seq<Scan>, f: Bucketing, b: int, low: Time, high: Time)
    requires forall s :: f(s) == b <==> low <= s.at < high
    ensures Count(scans, f, b) == Between(scans, low, high)
  {
    if scans != [] { CountBetween(scans[..|scans| - 1], f, b, low, high); }
  }

  lemma {:induction false} CountNone(scans: seq<Scan>, f: Bucketing, b: int)
    requires forall s :: f(s) != b
    ensures Count(scans, f, b) == 0
  {
    if scans != [] { CountNone(scans[..|scans| - 1], f, b); }
  }

  lemma DayIs(t: Time, b: Time, n: int)
    requires b == n * DAY
    ensures DayOf(t) == b <==> b <= t < b + DAY
  {
    DayBounds(t);
    assert DayOf(t) == DayNumber(t) * DAY;
  }

  lemma WeekIs(t: Time, b: Time, n: int)
    requires b == (7 * n + 4) * DAY
    ensures WeekOf(t) == b <==> b <= t < b + 7 * DAY
  {
    WeekBounds(t);
    var m := (DayNumber(t) - 4) / 7;
    if m < n { assert 7 * m + 4 + 7 <= 7 * n + 4; }
    if n < m { assert 7 * n + 4 + 7 <= 7 * m + 4; }
  }

  /** The bar of the n-th day counts the events from its midnight to the next, and there are no other bars. */
  lemma DailyBars(selected: seq<Scan>, calendar: int -> Time, n: int, b: int)
    ensures Get(PeriodReport(selected, calendar, "day"), n * DAY) == Between(selected, n * DAY, n * DAY + DAY)
    ensures (forall k :: b != k * DAY) ==> Get(PeriodReport(selected, calendar, "day"), b) == 0
  {
    var f := ByPeriod(calendar, Daily);
    ReportCounts(selected, f, n * DAY);
    ReportCounts(selected, f, b);
    forall s ensures f(s) == n * DAY <==> n * DAY <= s.at < n * DAY + DAY { DayIs(s.at, n * DAY, n); }
    CountBetween(selected, f, n * DAY, n * DAY, n * DAY + DAY);
    if forall k :: b != k * DAY {
      forall s ensures f(s) != b { assert f(s) == DayNumber(s.at) * DAY; }
      CountNone(selected, f, b);
    }
  }

  /** The bar of a week counts the events from its Monday to the next, and there are no other bars; the
      epoch was a Thursday. */
  lemma WeeklyBars(selected: seq<Scan>, calendar: int -> Time, n: int, b: int)
    ensures var monday := (7 * n + 4) * DAY;
            Get(PeriodReport(selected, calendar, "week"), monday) == Between(selected, monday, monday + 7 * DAY)
    ensures (forall k :: b != (7 * k + 4) * DAY) ==> Get(PeriodReport(selected, calendar, "week"), b) == 0
  {
    var f, monday := ByPeriod(calendar, Weekly), (7 * n + 4) * DAY;
    ReportCounts(selected, f, monday);
    ReportCounts(selected, f, b);
    forall s ensures f(s) == monday <==> monday <= s.at < monday + 7 * DAY { WeekIs(s.at, monday, n); }
    CountBetween(selected, f, monday, monday, monday + 7 * DAY);
    if forall k :: b != (7 * k + 4) * DAY {
      forall s ensures f(s) != b { WeekBounds(s.at); }
      CountNone(selected, f, b);
    }
  }

  /** The bar of a month counts the events on the days that the calendar puts in it. */
  lemma MonthlyBars(selected: seq<Scan>, calendar: int -> Time, b: int)
    ensures Get(PeriodReport(selected, calendar, "month"), b) == Count(selected, (s: Scan) => calendar(s.at / DAY), b)
  {
    ReportCounts(selected, ByPeriod(calendar, Monthly), b);
    CountSame(selected, ByPeriod(calendar, Monthly), (s: Scan) => calendar(s.at / DAY), b);
  }

  lemma {:induction false} CountSame(scans: seq<Scan>, f: Bucketing, g: Bucketing, b: int)
    requires forall s :: f(s) == g(s)
    ensures Count(scans, f, b) == Count(scans, g, b)
  {
    if scans != [] { CountSame(scans[..|scans| - 1], f, g, b); }
  }

  /** The bar of an hour counts the events in that hour of any day; hours run from 0 to 23. */
  lemma HourlyBars(selected: seq<Scan>, h: int)
    ensures Get(GroupBy(selected, ByHour()), h) == Count(selected, (s: Scan) => s.at % DAY / HOUR, h)
    ensures !(0 <= h < 24) ==> Get(GroupBy(selected, ByHour()), h) == 0
  {
    ReportCounts(selected, ByHour(), h);
    forall s: Scan ensures HourOf(s.at) == s.at % DAY / HOUR { HourInDay(s.at); }
    CountSame(selected, ByHour(), (s: Scan) => s.at % DAY / HOUR, h);
    if !(0 <= h < 24) { CountNone(selected, ByHour(), h); }
  }

  lemma HourInDay(t: Time)
    ensures HourOf(t) == t % DAY / HOUR
  {
    HourBounds(t);
    var u := t % DAY;
    assert u == t - DayOf(t);
    Quotient(u, HOUR);
  }

  // ----- The dashboard

  function Totals(scans: seq<Scan>, r: Id, from: Option<Time>, to: Option<Time>): nat {
    |SelectScans(scans, r, from, to)|
  }

  /** The export: every selected row once, latest first; equal timestamps in any order. */
  ghost predicate IsExport(rows: seq<Scan>, selected: seq<Scan>) {
    multiset(rows) == multiset(selected) && forall i, j :: 0 <= i < j < |rows| ==> rows[i].at >= rows[j].at
  }

  /** The total, the bars of both reports and the exported rows all count the same events. */
  lemma ReportsAgree(scans: seq<Scan>, r: Id, from: Option<Time>, to: Option<Time>,
                     calendar: int -> Time, name: string, rows: seq<Scan>)
    requires IsExport(rows, SelectScans(scans, r, from, to))
    ensures var selected := SelectScans(scans, r, from, to);
            && Totals(scans, r, from, to) == Total(PeriodReport(selected, calendar, name))
            && Totals(scans, r, from, to) == Total(GroupBy(selected, ByHour()))
            && Totals(scans, r, from, to) == |rows|
  {
    var selected := SelectScans(scans, r, from, to);
    ReportCounts(selected, ByPeriod(calendar, ParseGranularity(name)), 0);
    ReportCounts(selected, ByHour(), 0);
    assert |multiset(rows)| == |rows| && |multiset(selected)| == |selected|;
  }

  // ----- Top agents

  /** `ORDER BY count DESC LIMIT n`; equal counts in any order. */
  ghost predicate IsTop(top: seq<Bar>, rest: seq<Bar>, groups: seq<Bar>, limit: nat) {
    && multiset(top + rest) == multiset(groups)
    && (forall i, j :: 0 <= i < j < |top + rest| ==> (top + rest)[i].count >= (top + rest)[j].count)
    && |top| == if |groups| < limit then |groups| else limit
  }

  lemma {:induction false} TotalConcat(a: seq<Bar>, b: seq<Bar>)
    ensures Total(a + b) == Total(a) + Total(b)
  {
    if a == [] {
      assert a + b == b;
    } else {
      assert (a + b)[1..] == a[1..] + b;
      TotalConcat(a[1..], b);
    }
  }

  lemma RemoveAt(b: seq<Bar>, i: nat)
    requires i < |b|
    ensures var rest := b[..i] + b[i + 1..];
            Total(b) == b[i].count + Total(rest) && multiset(rest) == multiset(b) - multiset{b[i]}
  {
    var tail := [b[i]] + b[i + 1..];
    assert b == b[..i] + tail && tail[1..] == b[i + 1..];
    TotalConcat(b[..i], tail);
    TotalConcat(b[..i], b[i + 1..]);
  }

  lemma {:induction false} TotalPermuted(a: seq<Bar>, b: seq<Bar>)
    requires multiset(a) == multiset(b)
    ensures Total(a) == Total(b)
  {
    if a == [] {
      assert |multiset(b)| == |b|;
    } else {
      assert a == [a[0]] + a[1..];
      assert a[0] in multiset(b);
      var i :| 0 <= i < |b| && b[i] == a[0];
      var rest := b[..i] + b[i + 1..];
      RemoveAt(b, i);
      assert multiset(a[1..]) == multiset(rest);
      TotalPermuted(a[1..], rest);
    }
  }

  function Buckets(report: seq<Bar>): set<int> {
    if report == [] then {} else {report[0].bucket} + Buckets(report[1..])
  }

  lemma {:induction false} BelowBuckets(report: seq<Bar>, b: int)
    requires Ascending(report) && (report != [] ==> b < report[0].bucket)
    ensures b !in Buckets(report)
  {
    if report != [] { BelowBuckets(report[1..], b); }
  }

  /** As many bars as distinct buckets. */
  lemma {:induction false} OneBarEach(report: seq<Bar>)
    requires Ascending(report)
    ensures |report| == |Buckets(report)|
  {
    if report != [] {
      OneBarEach(report[1..]);
      BelowBuckets(report[1..], report[0].bucket);
    }
  }

  lemma {:induction false} AddToBuckets(report: seq<Bar>, b: int, n: nat)
    ensures Buckets(AddTo(report, b, n)) == Buckets(report) + {b}
  {
    var more := AddTo(report, b, n);
    if report == [] {
      assert more[1..] == [];
    } else if report[0].bucket < b {
      AddToBuckets(report[1..], b, n);
      assert more[1..] == AddTo(report[1..], b, n);
    } else if report[0].bucket == b {
      assert more[1..] == report[1..];
    } else {
      assert more[1..] == report;
    }
  }

  lemma {:induction false} BucketsOf(scans: seq<Scan>, f: Bucketing)
    ensures Buckets(GroupBy(scans, f)) == set s | s in scans :: f(s)
  {
    if scans != [] {
      var most, last := scans[..|scans| - 1], scans[|scans| - 1];
      BucketsOf(most, f);
      AddToBuckets(GroupBy(most, f), f(last), 1);
      assert scans == most + [last];
      assert (set s | s in scans :: f(s)) == (set s | s in most :: f(s)) + {f(last)};
    }
  }

  lemma {:induction false} BarCount(report: seq<Bar>, x: Bar)
    requires Ascending(report) && x in report
    ensures Get(report, x.bucket) == x.count > 0 && x.bucket in Buckets(report)
  {
    HeadCount(report);
    if report[0] != x {
      assert report == [report[0]] + report[1..];
      BarCount(report[1..], x);
      BelowBuckets(report[1..], report[0].bucket);
    }
  }

  lemma TopCounts(selected: seq<Scan>, top: seq<Bar>, rest: seq<Bar>, x: Bar)
    requires multiset(top + rest) == multiset(GroupBy(selected, ByAgent())) && x in top + rest
    ensures x.count == Count(selected, ByAgent(), x.bucket) && x.count > 0
  {
    var groups := GroupBy(selected, ByAgent());
    assert x in multiset(top + rest);
    assert x in groups;
    ReportCounts(selected, ByAgent(), x.bucket);
    BarCount(groups, x);
  }

  lemma AgentGroups(selected: seq<Scan>)
    ensures |GroupBy(selected, ByAgent())| == |set s | s in selected :: s.agent|
  {
    var f := ByAgent();
    ReportCounts(selected, f, 0);
    BucketsOf(selected, f);
    OneBarEach(GroupBy(selected, f));
    assert (set s | s in selected :: f(s)) == set s | s in selected :: s.agent;
  }

  lemma TopTotal(selected: seq<Scan>, top: seq<Bar>, rest: seq<Bar>)
    requires multiset(top + rest) == multiset(GroupBy(selected, ByAgent()))
    ensures Total(top) <= |selected| && |top| + |rest| == |GroupBy(selected, ByAgent())|
    ensures Total(top) == |selected| <==> rest == []
  {
    var groups := GroupBy(selected, ByAgent());
    ReportCounts(selected, ByAgent(), 0);
    TotalPermuted(top + rest, groups);
    TotalConcat(top, rest);
    assert |top + rest| == |multiset(top + rest)| == |multiset(groups)| == |groups|;
    if rest != [] {
      assert rest[0] in top + rest;
      TopCounts(selected, top, rest, rest[0]);
    }
  }

  /** How many of the events one agent made. */
  function OfAgent(scans: seq<Scan>, agent: int): nat {
    if scans == [] then 0
    else OfAgent(scans[..|scans| - 1], agent) + (if scans[|scans| - 1].agent == agent then 1 else 0)
  }

  lemma {:induction false} CountOfAgent(scans: seq<Scan>, agent: int)
    ensures Count(scans, ByAgent(), agent) == OfAgent(scans, agent)
  {
    if scans != [] { CountOfAgent(scans[..|scans| - 1], agent); }
  }

  /** The agent list has at most five entries with their agents' counts, in descending order,
      none below an unlisted agent. */
  lemma TopAgentsListed(selected: seq<Scan>, top: seq<Bar>, rest: seq<Bar>)
    requires IsTop(top, rest, GroupBy(selected, ByAgent()), 5)
    ensures |top| <= 5
    ensures forall x :: x in top ==> x.count == OfAgent(selected, x.bucket)
    ensures forall i, j :: 0 <= i < j < |top| ==> top[i].count >= top[j].count
    ensures forall i, j :: 0 <= i < |top| && 0 <= j < |rest| ==> top[i].count >= rest[j].count
  {
    var both := top + rest;
    assert forall i :: 0 <= i < |top| ==> both[i] == top[i];
    assert forall j :: 0 <= j < |rest| ==> both[|top| + j] == rest[j];
    forall x | x in top ensures x.count == OfAgent(selected, x.bucket) {
      TopCounts(selected, top, rest, x);
      CountOfAgent(selected, x.bucket);
    }
  }

  /** The listed counts add up to the total exactly when there are at most five distinct agents. */
  lemma TopAgentsTotal(selected: seq<Scan>, top: seq<Bar>, rest: seq<Bar>)
    requires IsTop(top, rest, GroupBy(selected, ByAgent()), 5)
    ensures Total(top) == |selected| <==> |set s | s in selected :: s.agent| <= 5
  {
    AgentGroups(selected);
    TopTotal(selected, top, rest);
  }

  // ----- Date ranges tile

  /** For midnights d1 <= d2 < d3: the days d1..d2 and the days after d2 up to d3 together hold the
      events of d1..d3, each once, in the total and in every bucket of every report. */
  lemma {:induction false} RangesTile(scans: seq<Scan>, r: Id, d1: Time, d2: Time, d3: Time, f: Bucketing, b: int)
    requires d1 % DAY == 0 && d2 % DAY == 0 && d3 % DAY == 0 && d1 <= d2 < d3
    ensures var whole := SelectScans(scans, r, Some(d1), Some(d3));
            var early := SelectScans(scans, r, Some(d1), Some(d2));
            var late := SelectScans(scans, r, Some(d2 + DAY), Some(d3));
            && |whole| == |early| + |late|
            && Get(GroupBy(whole, f), b) == Get(GroupBy(early, f), b) + Get(GroupBy(late, f), b)
  {
    var whole := SelectScans(scans, r, Some(d1), Some(d3));
    var early := SelectScans(scans, r, Some(d1), Some(d2));
    var late := SelectScans(scans, r, Some(d2 + DAY), Some(d3));
    ReportCounts(whole, f, b);
    ReportCounts(early, f, b);
    ReportCounts(late, f, b);
    CountsTile(scans, r, d1, d2, d3, f, b);
  }

  lemma {:induction false} CountsTile(scans: seq<Scan>, r: Id, d1: Time, d2: Time, d3: Time, f: Bucketing, b: int)
    requires d1 % DAY == 0 && d2 % DAY == 0 && d3 % DAY == 0 && d1 <= d2 < d3
    ensures var whole := SelectScans(scans, r, Some(d1), Some(d3));
            var early := SelectScans(scans, r, Some(d1), Some(d2));
            var late := SelectScans(scans, r, Some(d2 + DAY), Some(d3));
            && |whole| == |early| + |late|
            && Count(whole, f, b) == Count(early, f, b) + Count(late, f, b)
  {
    if scans != [] {
      var most, last := scans[..|scans| - 1], scans[|scans| - 1];
      CountsTile(most, r, d1, d2, d3, f, b);
      CountSnoc(SelectScans(most, r, Some(d1), Some(d3)), last, f, b);
      CountSnoc(SelectScans(most, r, Some(d1), Some(d2)), last, f, b);
      CountSnoc(SelectScans(most, r, Some(d2 + DAY), Some(d3)), last, f, b);
    }
  }

  lemma CountSnoc(scans: seq<Scan>, s: Scan, f: Bucketing, b: int)
    ensures Count(scans + [s], f, b) == Count(scans, f, b) + (if f(s) == b then 1 else 0)
  {
    assert (scans + [s])[..|scans|] == scans;
  }
}

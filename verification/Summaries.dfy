/** The summary and the timeseries of a query: what they are in terms of the log, how they conserve
    each other's totals, and how the summary can be rebuilt from the minute rollups. */
module Summaries {
  import opened Time
  import opened Domain
  import opened Histogram
  import opened Folds
  import opened Minutes
  import opened Rollups

  datatype Summary = Summary(
    requestsTotal: nat, errorsTotal: nat, errorRate: real, latencyAvgMs: real, latencyP95Ms: nat,
    latencyP99Ms: nat, requestsPerMinute: real, requestsLastMinute: nat,
    status2xx: nat, status4xx: nat, status5xx: nat)

  datatype Point = Point(ts: int, requests: nat, errors: nat, latAvgMs: real, p95Ms: nat, p99Ms: nat)

  function Matching(q: MonitoringQuery): Observation -> bool {
    (o: Observation) => Matches(o, q)
  }

  function Rate(part: nat, total: nat): real {
    if total > 0 then part as real / total as real else 0.0
  }

  function DurationMinutes(q: MonitoringQuery): real {
    var d := (q.to - q.from) as real / MINUTE as real;
    if d <= 0.0 then 1.0 else d
  }

  /** The summary that an aggregate of the window and a count of its last minute give. */
  function SummaryFrom(a: Aggregate, lastMinute: nat, q: MonitoringQuery): Summary {
    Summary(a.requests, a.errors, Rate(a.errors, a.requests) * 100.0, Rate(a.latencySum, a.requests),
      PercentileOf(a, P95), PercentileOf(a, P99), a.requests as real / DurationMinutes(q), lastMinute,
      a.status2xx, a.status4xx, a.status5xx)
  }

  function SummaryOf(events: seq<Observation>, q: MonitoringQuery): Summary {
    SummaryFrom(Fold(Select(events, Matching(q))),
      |Select(events, InMinute(Matching(q), TruncateMinute(q.to)))|, q)
  }

  function PointFrom(a: Aggregate, ts: int): Point {
    Point(ts, a.requests, a.errors, Rate(a.latencySum, a.requests), PercentileOf(a, P95), PercentileOf(a, P99))
  }

  /** How many minutes the window touches. */
  function PointCount(q: MonitoringQuery): nat {
    var start, end := TruncateMinute(q.from), TruncateMinute(q.to);
    if start <= end then (end - start) / MINUTE + 1 else 0
  }

  function PointsOf(events: seq<Observation>, q: MonitoringQuery): (points: seq<Point>)
    ensures |points| == PointCount(q)
  {
    var start := TruncateMinute(q.from);
    var parts := MinuteFolds(events, Matching(q), start, PointCount(q));
    seq(|parts|, i requires 0 <= i < |parts| => PointFrom(parts[i], start + i * MINUTE))
  }

  /** What normalisation guarantees of a window. */
  predicate NormalWindow(q: MonitoringQuery) {
    q.from <= q.to <= q.from + 30 * DAY
  }

  // ------------------------------------------------------------------ the points cover the window

  lemma PointGrid(q: MonitoringQuery)
    requires q.from <= q.to
    ensures PointCount(q) >= 1
    ensures TruncateMinute(q.from) + (PointCount(q) - 1) * MINUTE == TruncateMinute(q.to)
    ensures NormalWindow(q) ==> PointCount(q) <= 43201
  {
  }

  lemma PointAt(events: seq<Observation>, q: MonitoringQuery, i: nat)
    requires i < PointCount(q)
    ensures PointsOf(events, q)[i].ts == TruncateMinute(q.from) + i * MINUTE
  {
    hide Fold, Select, PercentileOf, Rate, MinuteFolds;
  }

  /** The points are consecutive whole minutes from the one that holds `from` to the one that holds
      `to`, and a normalised window has at most 43201 of them. */
  lemma PointsCoverWindow(events: seq<Observation>, q: MonitoringQuery)
    requires NormalWindow(q)
    ensures var points := PointsOf(events, q);
      && 1 <= |points| <= 43201
      && points[0].ts == TruncateMinute(q.from)
      && points[|points| - 1].ts == TruncateMinute(q.to)
      && forall i :: 0 < i < |points| ==> points[i].ts == points[i - 1].ts + MINUTE
  {
    hide PointsOf, TruncateMinute, PointCount;
    PointGrid(q);
    var points := PointsOf(events, q);
    forall i | 0 <= i < |points| ensures points[i].ts == TruncateMinute(q.from) + i * MINUTE {
      PointAt(events, q, i);
    }
  }

  lemma GridOfWindow(q: MonitoringQuery, n: nat, o: Observation)
    requires WellFormed(o) && n == PointCount(q) && q.from <= q.to
    ensures Matches(o, q) ==> InWindow(Matching(q), TruncateMinute(q.from), n)(o)
  {
    PointGrid(q);
  }

  /** The merged points are the fold behind the summary. */
  lemma PointsMerge(events: seq<Observation>, q: MonitoringQuery)
    requires NormalWindow(q) && forall o :: o in events ==> WellFormed(o)
    ensures MergeAll(MinuteFolds(events, Matching(q), TruncateMinute(q.from), PointCount(q)))
      == Fold(Select(events, Matching(q)))
  {
    hide Fold, Select, MergeAll, MinuteFolds, Matches;
    var start, n := TruncateMinute(q.from), PointCount(q);
    MinutesMerge(events, Matching(q), start, n);
    forall o | o in events ensures InWindow(Matching(q), start, n)(o) <==> Matching(q)(o) {
      assert WellFormed(o);
      GridOfWindow(q, n, o);
    }
    SelectSame(events, InWindow(Matching(q), start, n), Matching(q));
  }

  function SumRequests(points: seq<Point>): nat {
    if points == [] then 0 else SumRequests(points[..|points| - 1]) + points[|points| - 1].requests
  }

  function SumErrors(points: seq<Point>): nat {
    if points == [] then 0 else SumErrors(points[..|points| - 1]) + points[|points| - 1].errors
  }

  lemma {:induction false} SumsOfPoints(parts: seq<Aggregate>, points: seq<Point>)
    requires |points| == |parts|
    requires forall i :: 0 <= i < |parts| ==> points[i].requests == parts[i].requests && points[i].errors == parts[i].errors
    ensures SumRequests(points) == Requests(parts) && SumErrors(points) == Errors(parts)
  {
    if parts != [] { SumsOfPoints(parts[..|parts| - 1], points[..|points| - 1]); }
  }

  /** The timeseries and the summary of one query conserve each other's totals, for every log. */
  lemma Conservation(events: seq<Observation>, q: MonitoringQuery)
    requires NormalWindow(q) && forall o :: o in events ==> WellFormed(o)
    ensures var s, points := SummaryOf(events, q), PointsOf(events, q);
      && SumRequests(points) == s.requestsTotal
      && SumErrors(points) == s.errorsTotal
      && |points| > 0 && points[|points| - 1].requests == s.requestsLastMinute
      && s.requestsTotal == s.status2xx + s.status4xx + s.status5xx
      && s.errorsTotal == s.status4xx + s.status5xx
  {
    hide Fold, Select, MergeAll, Matches;
    var start, n := TruncateMinute(q.from), PointCount(q);
    PointsMerge(events, q);
    var parts := MinuteFolds(events, Matching(q), start, n);
    MergeAllSums(parts);
    SumsOfPoints(parts, PointsOf(events, q));
    PointGrid(q);
    FoldDescribes(Select(events, InMinute(Matching(q), TruncateMinute(q.to))));
    FoldClasses(Select(events, Matching(q)));
  }

  /** The percentiles of the summary lie between those of the minutes with traffic. */
  lemma PercentilesBracketed(events: seq<Observation>, q: MonitoringQuery, low: nat, high: nat)
    requires NormalWindow(q) && forall o :: o in events ==> WellFormed(o)
    requires SummaryOf(events, q).requestsTotal > 0
    ensures (forall i :: 0 <= i < PointCount(q) && PointsOf(events, q)[i].requests > 0 ==>
        low <= PointsOf(events, q)[i].p95Ms <= high)
      ==> low <= SummaryOf(events, q).latencyP95Ms <= high
    ensures (forall i :: 0 <= i < PointCount(q) && PointsOf(events, q)[i].requests > 0 ==>
        low <= PointsOf(events, q)[i].p99Ms <= high)
      ==> low <= SummaryOf(events, q).latencyP99Ms <= high
  {
    hide Fold, Select, MergeAll, Matches, PercentileOf, Cumulative;
    var parts := MinuteFolds(events, Matching(q), TruncateMinute(q.from), PointCount(q));
    PointsMerge(events, q);
    forall k | 0 <= k < |parts| ensures Cumulative(parts[k]) {
      FoldIsCumulative(Select(events, InMinute(Matching(q), TruncateMinute(q.from) + k * MINUTE)));
    }
    var points := PointsOf(events, q);
    if forall i :: 0 <= i < |points| && points[i].requests > 0 ==> low <= points[i].p95Ms <= high {
      forall k | 0 <= k < |parts| && parts[k].requests > 0 ensures low <= PercentileOf(parts[k], P95) <= high {
        assert points[k].p95Ms == PercentileOf(parts[k], P95);
      }
      PercentileBracketed(parts, P95, low, high);
    }
    if forall i :: 0 <= i < |points| && points[i].requests > 0 ==> low <= points[i].p99Ms <= high {
      forall k | 0 <= k < |parts| && parts[k].requests > 0 ensures low <= PercentileOf(parts[k], P99) <= high {
        assert points[k].p99Ms == PercentileOf(parts[k], P99);
      }
      PercentileBracketed(parts, P99, low, high);
    }
  }

  lemma RanksOfHundred(n: nat)
    ensures TargetByCeil(n, P95) == (95 * n + 99) / 100 && TargetByCeil(n, P99) == (99 * n + 99) / 100
  {
  }

  /** The summary percentile is the nearest-rank latency of the matching events, rounded up to a bound. */
  lemma SummaryNearestRank(events: seq<Observation>, q: MonitoringQuery, ascending: seq<nat>)
    requires Ascending(ascending) && multiset(ascending) == multiset(Latencies(Select(events, Matching(q))))
    requires ascending != []
    ensures var s, n := SummaryOf(events, q), |ascending|;
      && s.requestsTotal == n
      && s.latencyP95Ms == RoundUp(ascending[(95 * n + 99) / 100 - 1], 0)
      && s.latencyP99Ms == RoundUp(ascending[(99 * n + 99) / 100 - 1], 0)
  {
    hide Fold, Select, Matches, Matching, PercentileOf, TargetByCeil, RoundUp, Rate, DurationMinutes, Ascending, Latencies;
    var kept := Select(events, Matching(q));
    RanksOfHundred(|ascending|);
    FoldNearestRank(kept, ascending, P95);
    FoldNearestRank(kept, ascending, P99);
  }

  lemma FoldNearestRank(kept: seq<Observation>, ascending: seq<nat>, q: Quantile)
    requires q.Proper() && ascending != []
    requires Ascending(ascending) && multiset(ascending) == multiset(Latencies(kept))
    ensures Fold(kept).requests == |kept| == |ascending| && 1 <= TargetByCeil(|ascending|, q) <= |ascending|
    ensures PercentileOf(Fold(kept), q) == RoundUp(ascending[TargetByCeil(|ascending|, q) - 1], 0)
  {
    FoldDescribes(kept);
    CountOfPermutation(ascending, Latencies(kept), 0);
    hide Fold, TargetByCeil, RoundUp, Ascending, Describes, Percentile;
    PercentileIsNearestRank(Fold(kept).buckets, Latencies(kept), ascending, q);
  }

  // ------------------------------------------------------------------ what the numbers say

  /** The average of a sum over a count, written without a division; zero over nothing. */
  predicate IsAverage(average: real, sum: nat, count: nat) {
    average * count as real == sum as real && (count == 0 ==> average == 0.0)
  }

  /** The rate, as a percentage, of a part among a count; zero among none. */
  predicate IsPercentage(rate: real, part: nat, count: nat) {
    rate * count as real == 100.0 * part as real && (count == 0 ==> rate == 0.0)
  }

  function SameMinuteAs(t: int): Observation -> bool {
    (o: Observation) => o.observedAt / 60_000_000_000 == t / 60_000_000_000
  }

  /** A summary in terms of the events it summarises. */
  ghost predicate Summarises(s: Summary, events: seq<Observation>, from: int, to: int) {
    && s.requestsTotal == |events|
    && s.errorsTotal == |Select(events, Failed())|
    && s.status2xx == |Select(events, OfClass("2xx"))|
    && s.status4xx == |Select(events, OfClass("4xx"))|
    && s.status5xx == |Select(events, OfClass("5xx"))|
    && IsPercentage(s.errorRate, s.errorsTotal, |events|)
    && IsAverage(s.latencyAvgMs, Sum(Latencies(events)), |events|)
    && IsPercentile(s.latencyP95Ms, Latencies(events), 95)
    && IsPercentile(s.latencyP99Ms, Latencies(events), 99)
    && (from < to ==> s.requestsPerMinute * (to - from) as real == |events| as real * 60_000_000_000.0)
    && (from >= to ==> s.requestsPerMinute == |events| as real)
    && s.requestsLastMinute == |Select(events, SameMinuteAs(to))|
  }

  /** A point in terms of the events of its minute. */
  ghost predicate Plots(p: Point, events: seq<Observation>) {
    && p.requests == |events|
    && p.errors == |Select(events, Failed())|
    && IsAverage(p.latAvgMs, Sum(Latencies(events)), |events|)
    && IsPercentile(p.p95Ms, Latencies(events), 95)
    && IsPercentile(p.p99Ms, Latencies(events), 99)
  }

  lemma RateIsAverage(part: nat, total: nat)
    requires part > 0 ==> total > 0
    ensures IsAverage(Rate(part, total), part, total)
    ensures IsPercentage(Rate(part, total) * 100.0, part, total)
  {
  }

  lemma PercentilesOfFold(events: seq<Observation>)
    ensures IsPercentile(PercentileOf(Fold(events), P95), Latencies(events), 95)
    ensures IsPercentile(PercentileOf(Fold(events), P99), Latencies(events), 99)
  {
    hide Fold, Describes, IsPercentile, Percentile;
    FoldDescribes(events);
    PercentileIsPercentile(Fold(events).buckets, Latencies(events), 95);
    PercentileIsPercentile(Fold(events).buckets, Latencies(events), 99);
  }

  lemma SumOfNone(ns: seq<nat>)
    ensures Sum(ns) > 0 ==> |ns| > 0
  {
  }

  lemma PerMinute(n: nat, q: MonitoringQuery)
    ensures var rate := n as real / DurationMinutes(q);
      && (q.from < q.to ==> rate * (q.to - q.from) as real == n as real * 60_000_000_000.0)
      && (q.from >= q.to ==> rate == n as real)
  {
    var d, minutes := (q.to - q.from) as real, DurationMinutes(q);
    if q.from < q.to {
      assert minutes == d / 60_000_000_000.0 && minutes * 60_000_000_000.0 == d;
      assert n as real / minutes * minutes == n as real;
    } else {
      assert d / 60_000_000_000.0 <= 0.0;
    }
  }

  /** Every number of the summary of a query, in terms of the events that match it. */
  lemma SummaryIsExact(events: seq<Observation>, q: MonitoringQuery)
    requires forall o :: o in events ==> WellFormed(o)
    ensures Summarises(SummaryOf(events, q), Select(events, Matching(q)), q.from, q.to)
  {
    hide Fold, Select, Matches, Rate, IsAverage, IsPercentage, IsPercentile, PercentileOf, DurationMinutes, Describes, Sum;
    var kept := Select(events, Matching(q));
    FoldCounts(kept);
    SumOfNone(Latencies(kept));
    RateIsAverage(Fold(kept).latencySum, |kept|);
    RateIsAverage(Fold(kept).errors, |kept|);
    PercentilesOfFold(kept);
    PerMinute(|kept|, q);
    LastMinuteSelected(events, q);
  }

  lemma LastMinuteSelected(events: seq<Observation>, q: MonitoringQuery)
    requires forall o :: o in events ==> WellFormed(o)
    ensures Select(events, InMinute(Matching(q), TruncateMinute(q.to)))
      == Select(Select(events, Matching(q)), SameMinuteAs(q.to))
  {
    hide Select, Matches;
    forall o | o in events
      ensures InMinute(Matching(q), TruncateMinute(q.to))(o) <==> Matching(q)(o) && SameMinuteAs(q.to)(o)
    {
      assert WellFormed(o);
      SameMinuteIff(o.observedAt, q.to);
    }
    SelectAgain(events, Matching(q), SameMinuteAs(q.to), InMinute(Matching(q), TruncateMinute(q.to)));
  }

  lemma SameMinuteIff(t: int, t': int)
    ensures TruncateMinute(t) == TruncateMinute(t') <==> t / 60_000_000_000 == t' / 60_000_000_000
  {
  }

  function MatchingBetween(q: MonitoringQuery, from: int, to: int): Observation -> bool {
    (o: Observation) => Matches(o, q) && from <= o.observedAt < to
  }

  /** Every number of a point, in terms of the events that match in the minute it begins. */
  lemma PointIsExact(events: seq<Observation>, q: MonitoringQuery, i: nat)
    requires i < PointCount(q) && forall o :: o in events ==> WellFormed(o)
    ensures var p := PointsOf(events, q)[i];
      Plots(p, Select(events, MatchingBetween(q, p.ts, p.ts + 60_000_000_000)))
  {
    hide Fold, Select, Matches, Rate, IsAverage, IsPercentage, IsPercentile, PercentileOf, Describes, Sum;
    var ts := TruncateMinute(q.from) + i * MINUTE;
    PointAt(events, q, i);
    forall o | o in events ensures InMinute(Matching(q), ts)(o) <==> MatchingBetween(q, ts, ts + MINUTE)(o) {
      assert WellFormed(o);
      MinuteHolds(o.observedAt, TruncateMinute(q.from), i);
    }
    SelectSame(events, InMinute(Matching(q), ts), MatchingBetween(q, ts, ts + MINUTE));
    var kept := Select(events, InMinute(Matching(q), ts));
    FoldCounts(kept);
    SumOfNone(Latencies(kept));
    RateIsAverage(Fold(kept).latencySum, |kept|);
    PercentilesOfFold(kept);
  }

  lemma MinuteHolds(t: int, start: int, i: nat)
    requires start % MINUTE == 0
    ensures TruncateMinute(t) == start + i * MINUTE <==> start + i * MINUTE <= t < start + i * MINUTE + MINUTE
  {
  }

  // ------------------------------------------------------------------ the summary from the rollups

  /** A query for the `n` whole minutes from `start` that filters by one inbox and nothing else. */
  predicate WholeMinutesOf(q: MonitoringQuery, inboxID: string, start: nat, n: nat) {
    && n > 0 && start % MINUTE == 0 && start + n * MINUTE <= YEAR_10000
    && q.from == start && q.to == start + n * MINUTE - 1
    && inboxID != "" && q.inboxID == inboxID && q.httpMethod == "" && q.statusClass == "" && q.pathContains == ""
    && q.hasBody.None? && q.minBodySize.None? && q.maxBodySize.None? && q.remoteIP == "" && q.country == ""
    && q.textQuery == ""
  }

  function OfInbox(inboxID: string): Observation -> bool {
    (o: Observation) => o.inboxID == inboxID
  }

  function RollupParts(s: Counters, inboxID: string, start: nat, n: nat): (parts: seq<Aggregate>)
    ensures |parts| == n
  {
    seq(n, i requires 0 <= i < n => RollupAt(s.rollups, RollupKey(start + i * MINUTE, inboxID)).agg)
  }

  lemma WholeMinutesMatch(q: MonitoringQuery, inboxID: string, start: nat, n: nat, o: Observation)
    requires WholeMinutesOf(q, inboxID, start, n) && WellFormed(o)
    ensures Matches(o, q) <==> InWindow(OfInbox(inboxID), start, n)(o)
    ensures TruncateMinute(q.to) == start + (n - 1) * MINUTE
    ensures InMinute(Matching(q), start + (n - 1) * MINUTE)(o) <==> OfMinute(start + (n - 1) * MINUTE, inboxID)(o)
  {
  }

  lemma LastOfWholeMinutes(q: MonitoringQuery, inboxID: string, start: nat, n: nat)
    requires WholeMinutesOf(q, inboxID, start, n)
    ensures TruncateMinute(q.to) == start + (n - 1) * MINUTE
  {
  }

  /** From the watermark on, the rollups of one inbox are the minute folds of the log. */
  lemma RollupsAreMinuteFolds(s: Counters, watermark: int, inboxID: string, start: nat, n: nat)
    requires Consistent(s, watermark) && watermark <= start && start % MINUTE == 0 && start + n * MINUTE <= YEAR_10000
    ensures RollupParts(s, inboxID, start, n) == MinuteFolds(s.events, OfInbox(inboxID), start, n)
  {
    hide RollupKey, RollupAt, Fold, Select;
    forall i | 0 <= i < n
      ensures RollupAt(s.rollups, RollupKey(start + i * MINUTE, inboxID)).agg
        == Fold(Select(s.events, InMinute(OfInbox(inboxID), start + i * MINUTE)))
    {
      var m := start + i * MINUTE;
      assert PrintableMinute(m);
      assert RollupHolds(s, watermark, m, inboxID);
      SelectSame(s.events, OfMinute(m, inboxID), InMinute(OfInbox(inboxID), m));
    }
  }

  /** For whole minutes above the watermark, scanning the log and merging the rollups give one summary. */
  lemma SummaryFromRollups(s: Counters, watermark: int, q: MonitoringQuery, inboxID: string, start: nat, n: nat)
    requires Consistent(s, watermark) && watermark <= start && WholeMinutesOf(q, inboxID, start, n)
    ensures SummaryOf(s.events, q) == SummaryFrom(
      MergeAll(RollupParts(s, inboxID, start, n)),
      RollupAt(s.rollups, RollupKey(start + (n - 1) * MINUTE, inboxID)).agg.requests, q)
  {
    hide Fold, Select, MergeAll, Matches, RollupKey, RollupAt, SummaryFrom, RollupParts;
    RollupsAreMinuteFolds(s, watermark, inboxID, start, n);
    MinutesMerge(s.events, OfInbox(inboxID), start, n);
    forall o | o in s.events
      ensures Matching(q)(o) <==> InWindow(OfInbox(inboxID), start, n)(o)
      ensures InMinute(Matching(q), start + (n - 1) * MINUTE)(o) <==> OfMinute(start + (n - 1) * MINUTE, inboxID)(o)
    {
      WholeMinutesMatch(q, inboxID, start, n, o);
    }
    SelectSame(s.events, Matching(q), InWindow(OfInbox(inboxID), start, n));
    LastMinuteFromRollup(s, watermark, q, inboxID, start, n);
  }

  lemma LastMinuteFromRollup(s: Counters, watermark: int, q: MonitoringQuery, inboxID: string, start: nat, n: nat)
    requires Consistent(s, watermark) && watermark <= start && WholeMinutesOf(q, inboxID, start, n)
    ensures |Select(s.events, InMinute(Matching(q), TruncateMinute(q.to)))|
      == RollupAt(s.rollups, RollupKey(start + (n - 1) * MINUTE, inboxID)).agg.requests
  {
    hide Fold, Select, Matches, RollupKey, RollupAt;
    var last := start + (n - 1) * MINUTE;
    LastOfWholeMinutes(q, inboxID, start, n);
    forall o | o in s.events ensures InMinute(Matching(q), last)(o) <==> OfMinute(last, inboxID)(o) {
      WholeMinutesMatch(q, inboxID, start, n, o);
    }
    SelectSame(s.events, InMinute(Matching(q), last), OfMinute(last, inboxID));
    assert PrintableMinute(last);
    assert RollupHolds(s, watermark, last, inboxID);
    FoldDescribes(Select(s.events, OfMinute(last, inboxID)));
  }
}

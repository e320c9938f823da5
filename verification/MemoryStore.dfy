/** The in-memory store: the object whose operations run under one lock.  Each operation is proved
    against the value-level description of its effect. */
module MemoryStore {
  import opened Wrappers
  import opened Text
  import opened Time
  import opened Domain
  import opened Histogram
  import opened Folds
  import opened Minutes
  import opened Rollups
  import opened Sorting
  import opened Summaries
  import opened Breakdowns
  import opened Snapshots
  import opened InboxStats
  import opened Lifecycle
  import opened Pages
  import opened RequestFilters

  /** Adds one observation to an aggregate, field by field. */
  method AccumulateMonitoringAggregate(agg: Aggregate, obs: Observation) returns (agg': Aggregate)
    ensures agg' == Add(agg, obs)
  {
    agg' := agg.(requests := agg.requests + 1);
    if obs.statusClass == "4xx" || obs.statusClass == "5xx" {
      agg' := agg'.(errors := agg'.errors + 1);
    }
    match obs.statusClass {
      case "2xx" => agg' := agg'.(status2xx := agg'.status2xx + 1);
      case "4xx" => agg' := agg'.(status4xx := agg'.status4xx + 1);
      case "5xx" => agg' := agg'.(status5xx := agg'.status5xx + 1);
      case _ =>
    }
    agg' := agg'.(latencySum := agg'.latencySum + obs.latencyMs);
    var buckets := CountLatency(agg'.buckets, obs.latencyMs);
    agg' := agg'.(buckets := buckets);
  }

  /** The retention loop over one counter map. */
  method DropStale<V>(counters: map<string, V>, metricsCutoff: int) returns (kept: map<string, V>)
    ensures kept == FreshOnly(counters, metricsCutoff)
  {
    hide FirstPiece, Parse;
    kept := counters;
    var left := counters.Keys;
    while left != {}
      invariant left <= kept.Keys <= counters.Keys
      invariant forall k :: k in kept ==> kept[k] == counters[k]
      invariant forall k :: k in counters && k !in left ==> (k in kept <==> !IsStale(k, metricsCutoff))
      decreases |left|
    {
      var key :| key in left;
      left := left - {key};
      var bucket := Parse(FirstPiece(key));
      if bucket.Malformed? || bucket.t < metricsCutoff {
        kept := kept - {key};
      }
    }
  }

  function LimitOrDefault(limit: int, default: nat): nat {
    if limit <= 0 then default else limit
  }

  ghost function CapturedMatches(requests: map<string, CapturedRequest>, inboxID: string,
        filter: ListFilter): set<CapturedRequest> {
    set k | k in requests && requests[k].inboxID == inboxID && Passes(requests[k], filter) :: requests[k]
  }

  class Store {
    var inboxes: map<string, Inbox>
    var requests: map<string, CapturedRequest>
    var monitoringEvents: seq<Observation>
    var minuteRollups: map<string, Rollup>
    var minuteDims: map<string, nat>

    function View(): State
      reads this
    {
      State(inboxes, requests, Counters(monitoringEvents, minuteRollups, minuteDims))
    }

    constructor ()
      ensures View() == EMPTY_STATE
    {
      inboxes, requests, monitoringEvents, minuteRollups, minuteDims := map[], map[], [], map[], map[];
    }

    // ---------------------------------------------------------------- inboxes

    method CreateInbox(inbox: Inbox) returns (r: Result<(), StoreError>)
      modifies this
      ensures (View(), r) == Created(old(View()), inbox)
    {
      var left := inboxes.Keys;
      while left != {}
        invariant left <= inboxes.Keys
        invariant forall k :: k in inboxes && k !in left ==> !(inboxes[k].token == inbox.token && IsLive(inboxes[k]))
        decreases |left|
      {
        var k :| k in left;
        if inboxes[k].token == inbox.token && inboxes[k].deletedAt.None? {
          return Err(Conflict);
        }
        left := left - {k};
      }
      inboxes := inboxes[inbox.id := inbox];
      return Ok(());
    }

    method GetInboxByID(id: string) returns (r: Result<Inbox, StoreError>)
      ensures r == FoundByID(View(), id)
    {
      if id !in inboxes || inboxes[id].deletedAt.Some? {
        return Err(NotFound);
      }
      return Ok(inboxes[id]);
    }

    method GetInboxByToken(token: string) returns (r: Result<Inbox, StoreError>)
      ensures FoundByToken(View(), token, r)
    {
      var left := inboxes.Keys;
      while left != {}
        invariant left <= inboxes.Keys
        invariant forall k :: k in inboxes && k !in left ==> !(inboxes[k].token == token && IsLive(inboxes[k]))
        decreases |left|
      {
        var k :| k in left;
        if inboxes[k].token == token && inboxes[k].deletedAt.None? {
          return Ok(inboxes[k]);
        }
        left := left - {k};
      }
      return Err(NotFound);
    }

    method UpdateInbox(id: string, patch: InboxPatch, now: int) returns (r: Result<Inbox, StoreError>)
      modifies this
      ensures (View(), r) == Updated(old(View()), id, patch, now)
    {
      if id !in inboxes || inboxes[id].deletedAt.Some? {
        return Err(NotFound);
      }
      var item := inboxes[id];
      if patch.name.Some? {
        item := item.(name := patch.name.value);
      }
      if patch.description.Some? {
        item := item.(description := patch.description);
      }
      if patch.retentionDays.Some? {
        item := item.(retentionDays := patch.retentionDays);
      }
      if patch.status.Some? {
        item := item.(status := patch.status.value);
        if patch.status.value == DISABLED {
          item := item.(disabledAt := Some(now));
        } else {
          item := item.(disabledAt := None);
        }
      }
      item := item.(updatedAt := now);
      inboxes := inboxes[id := item];
      return Ok(item);
    }

    method SoftDeleteInbox(id: string, now: int) returns (r: Result<(), StoreError>)
      modifies this
      ensures (View(), r) == SoftDeleted(old(View()), id, now)
    {
      if id !in inboxes || inboxes[id].deletedAt.Some? {
        return Err(NotFound);
      }
      var item := inboxes[id];
      item := item.(deletedAt := Some(now));
      item := item.(updatedAt := now);
      inboxes := inboxes[id := item];
      return Ok(());
    }

    // ---------------------------------------------------------------- captured requests

    method CreateCapturedRequest(request: CapturedRequest)
      modifies this
      ensures View() == Captured(old(View()), request)
    {
      requests := requests[request.id := request];
    }

    /** The listing of one inbox.  `None` stands for the panic of an undefined slice. */
    method ListCapturedRequests(inboxID: string, filter: ListFilter, page: Pagination)
      returns (rows: Option<seq<Row>>, total: nat)
      requires forall k :: k in requests ==> requests[k].id == k
      ensures total == |CapturedMatches(requests, inboxID, filter)|
      ensures rows.Some? ==> IsListing(rows.value, CapturedMatches(requests, inboxID, filter), EqualFold(filter.order, "asc"), page)
      ensures total <= INT64_MAX && page.pageSize <= INT64_MAX ==> (rows.None? <==> Panics(total, page))
    {
      var items := CollectRequests(inboxID, filter);
      var orderAsc := EqualFold(filter.order, "asc");
      hide EqualFold;
      ReceivedOrderIsWeak(orderAsc);
      var sorted := SortSlice(items, ReceivedOrder(orderAsc));
      ListOfSet(sorted, CapturedMatches(requests, inboxID, filter));
      total := |items|;
      if |sorted| <= INT64_MAX && page.pageSize <= INT64_MAX { PageOutcome(sorted, page); }
      hide RangeFromPage, Defaulted, Panics, Intended, Offset, CapturedMatches, ReceivedOrder, ToRows;
      var slice := Paginate(sorted, page);
      rows := if slice.None? then None else Some(ToRows(slice.value));
    }

    /** The filter loop of the listing. */
    method CollectRequests(inboxID: string, filter: ListFilter) returns (items: seq<CapturedRequest>)
      requires forall k :: k in requests ==> requests[k].id == k
      ensures multiset(items) == multiset(CapturedMatches(requests, inboxID, filter))
    {
      hide Passes;
      items := [];
      var left := requests.Keys;
      ghost var taken: set<CapturedRequest> := {};
      while left != {}
        invariant left <= requests.Keys
        invariant taken == set k | k in requests && k !in left && requests[k].inboxID == inboxID && Passes(requests[k], filter) :: requests[k]
        invariant multiset(items) == multiset(taken)
        decreases |left|
      {
        var k :| k in left;
        var request := requests[k];
        left := left - {k};
        if request.inboxID != inboxID {
          continue;
        }
        var passes := PassesTests(request, filter);
        if !passes {
          continue;
        }
        assert request.id == k && request !in taken;
        items := items + [request];
        taken := taken + {request};
      }
      assert taken == CapturedMatches(requests, inboxID, filter);
    }

    /** Retention: expired requests, old events, and the counters of old minutes. */
    method DeleteExpiredCapturedRequests(now: int, defaultRetentionDays: int) returns (deleted: int)
      modifies this
      ensures View() == Purged(old(View()), now, defaultRetentionDays)
      ensures deleted == PurgedCount(old(View()), now, defaultRetentionDays)
    {
      deleted := DropExpiredRequests(now, defaultRetentionDays);
      DropOldCounters(Cutoff(now, defaultRetentionDays));
    }

    method DropExpiredRequests(now: int, defaultRetentionDays: int) returns (deleted: int)
      modifies this`requests
      ensures requests == KeptRequests(old(View()), now, defaultRetentionDays)
      ensures deleted == PurgedCount(old(View()), now, defaultRetentionDays)
    {
      hide IsExpired;
      deleted := 0;
      var left := requests.Keys;
      ghost var before := requests;
      while left != {}
        invariant left <= requests.Keys <= before.Keys
        invariant forall k :: k in requests ==> requests[k] == before[k]
        invariant forall k :: k in before && k !in left ==>
          (k in requests <==> !IsExpired(inboxes, before[k], now, defaultRetentionDays))
        invariant deleted == |before| - |requests|
        decreases |left|
      {
        var k :| k in left;
        var request := requests[k];
        left := left - {k};
        var expired := ExpiryTest(request, now, defaultRetentionDays);
        if expired {
          requests := requests - {k};
          deleted := deleted + 1;
        }
      }
      assert requests == KeptRequests(old(View()), now, defaultRetentionDays);
    }

    /** The test of the retention loop; a request without its inbox is skipped. */
    method ExpiryTest(request: CapturedRequest, now: int, defaultRetentionDays: int) returns (expired: bool)
      ensures expired <==> IsExpired(inboxes, request, now, defaultRetentionDays)
    {
      if request.inboxID !in inboxes {
        return false;
      }
      var inbox := inboxes[request.inboxID];
      var days := defaultRetentionDays;
      if inbox.retentionDays.Some? && inbox.retentionDays.value > 0 {
        days := inbox.retentionDays.value;
      }
      var cutoff := now - days * DAY;
      return request.receivedAt < cutoff;
    }

    method DropOldCounters(metricsCutoff: int)
      modifies this`monitoringEvents, this`minuteRollups, this`minuteDims
      ensures View().counters == Retained(old(View().counters), metricsCutoff)
    {
      hide IsStale;
      KeepRecentEvents(metricsCutoff);
      var rollups := DropStale(minuteRollups, metricsCutoff);
      minuteRollups := rollups;
      var dims := DropStale(minuteDims, metricsCutoff);
      minuteDims := dims;
    }

    method KeepRecentEvents(metricsCutoff: int)
      modifies this`monitoringEvents
      ensures monitoringEvents == Select(old(monitoringEvents), Since(metricsCutoff))
    {
      hide Select;
      NothingSelected(Since(metricsCutoff), "");
      var events, kept: seq<Observation> := monitoringEvents, [];
      for i := 0 to |events|
        invariant kept == Select(events[..i], Since(metricsCutoff))
      {
        var obs := events[i];
        assert events[..i + 1] == events[..i] + [obs];
        SelectAppend(events[..i], obs, Since(metricsCutoff));
        if !(obs.observedAt < metricsCutoff) {
          kept := kept + [obs];
        }
      }
      assert events[..|events|] == events;
      monitoringEvents := kept;
    }

    // ---------------------------------------------------------------- recording

    method RecordHookObservation(obs: Option<Observation>)
      modifies this`monitoringEvents, this`minuteRollups, this`minuteDims
      ensures View().counters ==
        if obs.None? then old(View().counters) else Recorded(old(View().counters), obs.value)
    {
      hide RollupKey, RollupAt, Grown, KeysOf, BumpedDims, Recorded;
      if obs.Some? {
        RecordedByField(View().counters, obs.value);
        monitoringEvents := monitoringEvents + [obs.value];
        BumpRollup(obs.value);
        BumpDimensions(obs.value);
      }
    }

    method BumpRollup(o: Observation)
      modifies this`minuteRollups
      ensures var key := RollupKey(o.bucketMinute, o.inboxID);
        minuteRollups == old(minuteRollups)[key := Grown(RollupAt(old(minuteRollups), key), o)]
    {
      hide RollupKey, RollupAt, Add;
      var rollupKey := RollupKey(o.bucketMinute, o.inboxID);
      var rollup := RollupAt(minuteRollups, rollupKey);
      var agg := AccumulateMonitoringAggregate(rollup.agg, o);
      rollup := Rollup(agg, rollup.bodyBytes + o.bodySizeBytes);
      minuteRollups := minuteRollups[rollupKey := rollup];
    }

    method BumpDimensions(o: Observation)
      modifies this`minuteDims
      ensures minuteDims == BumpedDims(old(minuteDims), KeysOf(o))
    {
      hide *;
      SixKeysDiffer(o);
      var dims := BumpKeys(minuteDims, SixDimensions(), o);
      minuteDims := dims;
    }

    // ---------------------------------------------------------------- queries

    method GetMonitoringSummary(q: MonitoringQuery) returns (summary: Summary)
      ensures summary == SummaryOf(monitoringEvents, q)
    {
      hide Fold, Select, Matches, Add;
      EmptyFolds();
      var p := Matching(q);
      var agg := EmptyAggregate();
      var lastMinute := TruncateMinute(q.to);
      var requestsLastMinute := 0;
      for i := 0 to |monitoringEvents|
        invariant agg == Fold(Select(monitoringEvents[..i], p))
        invariant requestsLastMinute == |Select(monitoringEvents[..i], InMinute(p, lastMinute))|
      {
        var obs := monitoringEvents[i];
        assert monitoringEvents[..i + 1] == monitoringEvents[..i] + [obs];
        FoldSelectAppend(monitoringEvents[..i], obs, p);
        SelectAppend(monitoringEvents[..i], obs, InMinute(p, lastMinute));
        if Matches(obs, q) {
          agg := AccumulateMonitoringAggregate(agg, obs);
          if obs.bucketMinute == lastMinute {
            requestsLastMinute := requestsLastMinute + 1;
          }
        }
      }
      assert monitoringEvents[..|monitoringEvents|] == monitoringEvents;

      var durationMin := (q.to - q.from) as real / MINUTE as real;
      if durationMin <= 0.0 {
        durationMin := 1.0;
      }
      var errorRate, latAvg := 0.0, 0.0;
      if agg.requests > 0 {
        errorRate := agg.errors as real / agg.requests as real * 100.0;
        latAvg := agg.latencySum as real / agg.requests as real;
      }
      var p95 := PercentileFromCumulativeBuckets(agg.buckets, agg.requests, P95);
      var p99 := PercentileFromCumulativeBuckets(agg.buckets, agg.requests, P99);
      summary := Summary(agg.requests, agg.errors, errorRate, latAvg, p95, p99,
        agg.requests as real / durationMin, requestsLastMinute, agg.status2xx, agg.status4xx, agg.status5xx);
    }

    method GetMonitoringTimeseries(q: MonitoringQuery) returns (points: seq<Point>)
      ensures points == PointsOf(monitoringEvents, q)
    {
      hide Fold, Select, Matches, PointFrom;
      var series := SeriesByMinute(q);
      points := [];
      var start, end := TruncateMinute(q.from), TruncateMinute(q.to);
      var ts := start;
      while ts <= end
        invariant ts == start + |points| * MINUTE
        invariant if start <= end then ts <= end + MINUTE else points == []
        invariant forall i :: 0 <= i < |points| ==>
          points[i] == PointFrom(Fold(Select(monitoringEvents, InMinute(Matching(q), start + i * MINUTE))), start + i * MINUTE)
        decreases end + MINUTE - ts
      {
        var agg := SeriesAt(series, ts);
        assert agg == Fold(Select(monitoringEvents, InMinute(Matching(q), ts)));
        var point := PointOfAggregate(agg, ts);
        points := points + [point];
        ts := ts + MINUTE;
      }
      GridDone(start, end, |points|);
      assert points == PointsOf(monitoringEvents, q);
    }

    /** The body of the second loop of the timeseries. */
    static method PointOfAggregate(agg: Aggregate, ts: int) returns (point: Point)
      ensures point == PointFrom(agg, ts)
    {
      var latAvg := 0.0;
      if agg.requests > 0 {
        latAvg := agg.latencySum as real / agg.requests as real;
      }
      var p95 := PercentileFromCumulativeBuckets(agg.buckets, agg.requests, P95);
      var p99 := PercentileFromCumulativeBuckets(agg.buckets, agg.requests, P99);
      point := Point(ts, agg.requests, agg.errors, latAvg, p95, p99);
    }

    /** The first loop of the timeseries: one aggregate per minute that has a matching event. */
    method SeriesByMinute(q: MonitoringQuery) returns (series: map<int, Aggregate>)
      ensures forall m :: SeriesAt(series, m) == Fold(Select(monitoringEvents, InMinute(Matching(q), m)))
    {
      hide Fold, Select, Matches, Add;
      EmptyFolds();
      var p := Matching(q);
      series := map[];
      for i := 0 to |monitoringEvents|
        invariant forall m :: SeriesAt(series, m) == Fold(Select(monitoringEvents[..i], InMinute(p, m)))
      {
        var obs := monitoringEvents[i];
        assert monitoringEvents[..i + 1] == monitoringEvents[..i] + [obs];
        forall m
          ensures Fold(Select(monitoringEvents[..i + 1], InMinute(p, m))) ==
            if InMinute(p, m)(obs) then Add(Fold(Select(monitoringEvents[..i], InMinute(p, m))), obs)
            else Fold(Select(monitoringEvents[..i], InMinute(p, m)))
        {
          FoldSelectAppend(monitoringEvents[..i], obs, InMinute(p, m));
        }
        if Matches(obs, q) {
          var bucket := obs.bucketMinute;
          var agg := SeriesAt(series, bucket);
          agg := AccumulateMonitoringAggregate(agg, obs);
          series := series[bucket := agg];
        }
      }
      assert monitoringEvents[..|monitoringEvents|] == monitoringEvents;
    }

    method GetMonitoringBreakdown(q: MonitoringQuery, dimension: string, limit: int) returns (items: seq<Item>)
      ensures var selected := Select(monitoringEvents, Matching(q));
        IsBreakdown(items, ValueCounts(selected, dimension), dimension, |selected|, LimitOrDefault(limit, 10))
    {
      hide Select, Matches, DimensionValue;
      var effective := LimitOrDefault(limit, 10);
      var counts, total := CountValues(q, dimension);
      items := [];
      var left := counts.Keys;
      ghost var listed: set<Item> := {};
      while left != {}
        invariant left <= counts.Keys
        invariant listed == set v | v in counts && v !in left :: ItemOf(dimension, v, counts[v], total)
        invariant multiset(items) == multiset(listed)
        decreases |left|
      {
        var value :| value in left;
        var count := counts[value];
        var percentage := 0.0;
        if total > 0 {
          percentage := count as real / total as real * 100.0;
        }
        var item := Item(dimension, value, count, percentage);
        assert item == ItemOf(dimension, value, count, total);
        assert item !in listed;
        items := items + [item];
        listed := listed + {item};
        left := left - {value};
      }
      assert listed == ItemSet(counts, dimension, total);
      RanksBeforeIsWeakOrder();
      var ranking := SortSlice(items, RanksBefore());
      assert IsRanking(ranking, counts, dimension, total);
      items := ranking;
      if |items| > effective {
        items := items[..effective];
      }
    }

    /** The counting loop of the breakdown. */
    method CountValues(q: MonitoringQuery, dimension: string) returns (counts: map<string, nat>, total: nat)
      ensures var selected := Select(monitoringEvents, Matching(q));
        counts == ValueCounts(selected, dimension) && total == |selected|
    {
      hide Select, Matches, DimensionValue, ValueCounts;
      NothingSelected(Matching(q), dimension);
      counts, total := map[], 0;
      for i := 0 to |monitoringEvents|
        invariant counts == ValueCounts(Select(monitoringEvents[..i], Matching(q)), dimension)
        invariant total == |Select(monitoringEvents[..i], Matching(q))|
      {
        var obs := monitoringEvents[i];
        assert monitoringEvents[..i + 1] == monitoringEvents[..i] + [obs];
        CountsAppend(monitoringEvents[..i], obs, Matching(q), dimension);
        if !Matches(obs, q) {
          continue;
        }
        total := total + 1;
        var value := DimensionValue(obs, dimension);
        if value == "" {
          continue;
        }
        counts := counts[value := CountAt(counts, value) + 1];
      }
      assert monitoringEvents[..|monitoringEvents|] == monitoringEvents;
    }

    method ListMonitoringInboxStats(q: MonitoringQuery) returns (out: seq<InboxStat>)
      requires forall k :: k in inboxes ==> inboxes[k].id == k
      ensures IsStats(out, inboxes, monitoringEvents, q)
    {
      var order := ListedInOrder(q);
      var statsMap := StatsByInbox(q, order);
      out := [];
      for i := 0 to |order|
        invariant out == StatsOf(monitoringEvents, q, order[..i])
      {
        assert order[..i + 1][..i] == order[..i];
        hide StatOf;
        if order[i].id in statsMap {
          out := out + [statsMap[order[i].id]];
        }
      }
      assert order[..|order|] == order;
    }

    /** Selects the inboxes of the query and sorts them by creation. */
    method ListedInOrder(q: MonitoringQuery) returns (order: seq<Inbox>)
      requires forall k :: k in inboxes ==> inboxes[k].id == k
      ensures SortedBy(ByCreation(), order) && multiset(order) == multiset(ListedInboxes(inboxes, q))
      ensures forall i, j :: 0 <= i < j < |order| ==> order[i].id != order[j].id
    {
      hide ListedInboxes, SortedBy, WeakOrder, ByCreation;
      var found := CollectListed(q);
      ByCreationIsWeak();
      order := SortSlice(found, ByCreation());
      ListOfSet(order, ListedInboxes(inboxes, q));
      DistinctIds(order, inboxes, q);
    }

    /** The map walk that selects the inboxes of the query. */
    method CollectListed(q: MonitoringQuery) returns (found: seq<Inbox>)
      requires forall k :: k in inboxes ==> inboxes[k].id == k
      ensures multiset(found) == multiset(ListedInboxes(inboxes, q))
    {
      hide ListedOutside;
      found := [];
      var left := inboxes.Keys;
      ListedAtEnds(inboxes, q);
      while left != {}
        invariant left <= inboxes.Keys
        invariant multiset(found) == multiset(ListedOutside(inboxes, left, q))
        decreases |left|
      {
        var k :| k in left;
        var inbox := inboxes[k];
        ListedNext(inboxes, left, k, q);
        left := left - {k};
        if inbox.deletedAt.Some? {
          continue;
        }
        if q.inboxID != "" && inbox.id != q.inboxID {
          continue;
        }
        found := found + [inbox];
      }
    }

    /** The counting loop of the inbox statistics. */
    method StatsByInbox(q: MonitoringQuery, order: seq<Inbox>) returns (statsMap: map<string, InboxStat>)
      requires forall i, j :: 0 <= i < j < |order| ==> order[i].id != order[j].id
      ensures HoldsStats(statsMap, monitoringEvents, q, order)
    {
      hide HoldsStats, Matches, StatGrown;
      statsMap := EmptyStats(q, order);
      for i := 0 to |monitoringEvents|
        invariant HoldsStats(statsMap, monitoringEvents[..i], q, order)
      {
        var obs := monitoringEvents[i];
        assert monitoringEvents[..i + 1] == monitoringEvents[..i] + [obs];
        HoldsNext(statsMap, monitoringEvents[..i], obs, q, order);
        if !Matches(obs, q) {
          continue;
        }
        if obs.inboxID !in statsMap {
          continue;
        }
        var st := BumpStat(statsMap[obs.inboxID], obs);
        statsMap := statsMap[obs.inboxID := st];
      }
      assert monitoringEvents[..|monitoringEvents|] == monitoringEvents;
    }

    method ListMonitoringLiveEvents(q: MonitoringQuery, limit: int) returns (out: seq<LiveEvent>)
      ensures exists listed ::
        IsSnapshot(listed, Select(monitoringEvents, Matching(q)), LimitOrDefault(limit, 50))
        && |out| == |listed| && forall i :: 0 <= i < |out| ==> out[i] == ToLive(listed[i])
    {
      hide Select, Matches, ToLive, IsSnapshot, SortedBy, WeakOrder;
      TimesAreWeak();
      var effective := LimitOrDefault(limit, 50);
      var filtered := FilterEvents(q);
      var sorted := SortSlice(filtered, Newest());
      var cut := sorted;
      if |cut| > effective {
        cut := cut[..effective];
      }
      var listed := SortSlice(cut, Oldest());
      SortedCutIsSnapshot(sorted, listed, filtered, effective);
      out := [];
      for i := 0 to |listed|
        invariant |out| == i && forall j :: 0 <= j < i ==> out[j] == ToLive(listed[j])
      {
        out := out + [ToLive(listed[i])];
      }
    }

    method FilterEvents(q: MonitoringQuery) returns (filtered: seq<Observation>)
      ensures filtered == Select(monitoringEvents, Matching(q))
    {
      hide Select, Matches;
      filtered := [];
      NothingSelected(Matching(q), "");
      for i := 0 to |monitoringEvents|
        invariant filtered == Select(monitoringEvents[..i], Matching(q))
      {
        var obs := monitoringEvents[i];
        assert monitoringEvents[..i + 1] == monitoringEvents[..i] + [obs];
        SelectAppend(monitoringEvents[..i], obs, Matching(q));
        if !Matches(obs, q) {
          continue;
        }
        filtered := filtered + [obs];
      }
      assert monitoringEvents[..|monitoringEvents|] == monitoringEvents;
    }
  }

  // ------------------------------------------------------------------ steps of the loops

  ghost function ListedOutside(inboxes: map<string, Inbox>, left: set<string>, q: MonitoringQuery): set<Inbox> {
    set k | k in inboxes && k !in left && IsListed(inboxes[k], q) :: inboxes[k]
  }

  lemma ListedAtEnds(inboxes: map<string, Inbox>, q: MonitoringQuery)
    ensures ListedOutside(inboxes, inboxes.Keys, q) == {}
    ensures ListedOutside(inboxes, {}, q) == ListedInboxes(inboxes, q)
  {
  }

  lemma ListedNext(inboxes: map<string, Inbox>, left: set<string>, k: string, q: MonitoringQuery)
    requires k in left && left <= inboxes.Keys && forall k :: k in inboxes ==> inboxes[k].id == k
    ensures inboxes[k] !in ListedOutside(inboxes, left, q)
    ensures ListedOutside(inboxes, left - {k}, q)
      == ListedOutside(inboxes, left, q) + if IsListed(inboxes[k], q) then {inboxes[k]} else {}
  {
    hide IsListed;
  }

  lemma ByCreationIsWeak()
    ensures WeakOrder(ByCreation())
  {
  }

  lemma TimesAreWeak()
    ensures WeakOrder(Newest()) && WeakOrder(Oldest())
  {
  }

  lemma ReceivedOrderIsWeak(ascending: bool)
    ensures WeakOrder(ReceivedOrder(ascending))
  {
  }

  lemma RecordedByField(s: Counters, o: Observation)
    ensures var key := RollupKey(o.bucketMinute, o.inboxID);
      Recorded(s, o) == Counters(s.events + [o], s.rollups[key := Grown(RollupAt(s.rollups, key), o)], BumpedDims(s.dims, KeysOf(o)))
  {
  }

  ghost predicate KeysDiffer(o: Observation, dimensions: set<string>) {
    forall d, d' :: d in dimensions && d' in dimensions && d != d' ==> KeyOf(o, d) != KeyOf(o, d')
  }

  function SixDimensions(): set<string> {
    set d | d in DIMENSIONS
  }

  ghost function KeysFor(o: Observation, dimensions: set<string>): set<string> {
    set d | d in dimensions :: KeyOf(o, d)
  }

  lemma SixKeysDiffer(o: Observation)
    ensures KeysDiffer(o, SixDimensions()) && KeysFor(o, SixDimensions()) == KeysOf(o)
  {
    hide DimensionKey, DimensionValue;
    forall d, d' | d in DIMENSIONS && d' in DIMENSIONS && d != d' ensures KeyOf(o, d) != KeyOf(o, d') {
      DimensionKeysDistinct(o.bucketMinute, o.inboxID, d, DimensionValue(o, d), d', DimensionValue(o, d'));
    }
  }

  /** The loop over the dimensions, in whatever order the map yields them. */
  method BumpKeys(counters: map<string, nat>, dimensions: set<string>, o: Observation) returns (dims: map<string, nat>)
    requires KeysDiffer(o, dimensions)
    ensures dims == BumpedDims(counters, KeysFor(o, dimensions))
  {
    hide *;
    dims := counters;
    var done, left: set<string> := {}, dimensions;
    NoKeysYet(counters, o);
    while left != {}
      invariant left <= dimensions && done == dimensions - left
      invariant dims == BumpedDims(counters, KeysFor(o, done))
      decreases |left|
    {
      var dim :| dim in left;
      var key := KeyOf(o, dim);
      OneMoreKey(counters, o, dimensions, done, dim);
      dims := dims[key := CountAt(dims, key) + 1];
      done := done + {dim};
      left := left - {dim};
    }
    assert done == dimensions;
  }

  lemma NoKeysYet(counters: map<string, nat>, o: Observation)
    ensures counters == BumpedDims(counters, KeysFor(o, {}))
  {
    hide KeyOf;
  }

  lemma OneMoreKey(counters: map<string, nat>, o: Observation, all: set<string>, done: set<string>, dim: string)
    requires KeysDiffer(o, all) && done <= all && dim in all - done
    ensures var dims, key := BumpedDims(counters, KeysFor(o, done)), KeyOf(o, dim);
      dims[key := CountAt(dims, key) + 1] == BumpedDims(counters, KeysFor(o, done + {dim}))
  {
    hide KeyOf;
    assert KeyOf(o, dim) !in KeysFor(o, done);
    assert KeysFor(o, done + {dim}) == KeysFor(o, done) + {KeyOf(o, dim)};
    hide KeysFor;
    OneMoreBump(counters, KeysFor(o, done), KeyOf(o, dim));
  }

  lemma OneMoreBump(counters: map<string, nat>, keys: set<string>, key: string)
    requires key !in keys
    ensures var dims := BumpedDims(counters, keys);
      dims[key := CountAt(dims, key) + 1] == BumpedDims(counters, keys + {key})
  {
  }

  lemma EmptyFolds()
    ensures forall p: Observation -> bool {:trigger Select([], p)} ::
      Select([], p) == [] && Fold(Select([], p)) == EmptyAggregate()
  {
  }

  lemma NothingSelected(p: Observation -> bool, dimension: string)
    ensures Select([], p) == [] && ValueCounts(Select([], p), dimension) == map[]
  {
  }

  lemma CountsAppend(events: seq<Observation>, o: Observation, p: Observation -> bool, dimension: string)
    ensures var before, after := Select(events, p), Select(events + [o], p);
      var value := DimensionValue(o, dimension);
      && |after| == |before| + (if p(o) then 1 else 0)
      && ValueCounts(after, dimension) ==
        if p(o) && value != "" then Incremented(ValueCounts(before, dimension), value) else ValueCounts(before, dimension)
  {
    hide DimensionValue;
    SelectAppend(events, o, p);
    var before := Select(events, p);
    if p(o) {
      assert (before + [o])[..|before|] == before;
    } else {
      assert before + [] == before;
    }
  }

  /** The map holds the statistics of exactly the listed inboxes. */
  ghost predicate HoldsStats(statsMap: map<string, InboxStat>, events: seq<Observation>, q: MonitoringQuery,
        order: seq<Inbox>) {
    && (forall j :: 0 <= j < |order| ==> order[j].id in statsMap && statsMap[order[j].id] == StatOf(events, q, order[j]))
    && forall id :: id in statsMap ==> exists j :: 0 <= j < |order| && order[j].id == id
  }

  method EmptyStats(q: MonitoringQuery, order: seq<Inbox>) returns (statsMap: map<string, InboxStat>)
    requires forall i, j :: 0 <= i < j < |order| ==> order[i].id != order[j].id
    ensures HoldsStats(statsMap, [], q, order)
  {
    hide Fold, Select, Matches;
    EmptyFolds();
    statsMap := map[];
    for i := 0 to |order|
      invariant HoldsStats(statsMap, [], q, order[..i])
    {
      var inbox := order[i];
      hide StatOf;
      assert StatOf([], q, inbox) == InboxStat(inbox.id, inbox.name, 0, 0, 0, EmptyBuckets()) by { EmptyStat(q, inbox); }
      statsMap := statsMap[inbox.id := InboxStat(inbox.id, inbox.name, 0, 0, 0, EmptyBuckets())];
      assert order[..i + 1][i] == inbox;
      assert forall j :: 0 <= j < i ==> order[..i + 1][j] == order[..i][j];
    }
    assert order[..|order|] == order;
  }

  lemma EmptyStat(q: MonitoringQuery, inbox: Inbox)
    ensures StatOf([], q, inbox) == InboxStat(inbox.id, inbox.name, 0, 0, 0, EmptyBuckets())
  {
  }

  method BumpStat(st: InboxStat, obs: Observation) returns (st': InboxStat)
    ensures st' == StatGrown(st, obs)
  {
    st' := st.(requests := st.requests + 1);
    if obs.statusClass == "4xx" || obs.statusClass == "5xx" {
      st' := st'.(errors := st'.errors + 1);
    }
    st' := st'.(latencySumMs := st'.latencySumMs + obs.latencyMs);
    var buckets := CountLatency(st'.buckets, obs.latencyMs);
    st' := st'.(buckets := buckets);
  }

  /** One more event changes the statistics of its own inbox, if that is listed, and no other. */
  lemma HoldsNext(statsMap: map<string, InboxStat>, events: seq<Observation>, o: Observation,
        q: MonitoringQuery, order: seq<Inbox>)
    requires HoldsStats(statsMap, events, q, order)
    ensures !Matches(o, q) || o.inboxID !in statsMap ==> HoldsStats(statsMap, events + [o], q, order)
    ensures Matches(o, q) && o.inboxID in statsMap ==>
      HoldsStats(statsMap[o.inboxID := StatGrown(statsMap[o.inboxID], o)], events + [o], q, order)
  {
    hide StatOf, StatGrown, Matches;
    forall j | 0 <= j < |order|
      ensures StatOf(events + [o], q, order[j]) ==
        if Matches(o, q) && o.inboxID == order[j].id then StatGrown(StatOf(events, q, order[j]), o)
        else StatOf(events, q, order[j])
    {
      StatAppend(events, o, q, order[j]);
    }
  }

  function SeriesAt(series: map<int, Aggregate>, minute: int): Aggregate {
    if minute in series then series[minute] else EmptyAggregate()
  }

  lemma GridDone(start: int, end: int, n: nat)
    requires start % MINUTE == 0 && end % MINUTE == 0
    requires start + n * MINUTE > end
    requires if start <= end then start + n * MINUTE <= end + MINUTE else n == 0
    ensures n == if start <= end then (end - start) / MINUTE + 1 else 0
  {
  }

  function StatGrown(st: InboxStat, o: Observation): InboxStat {
    InboxStat(st.inboxID, st.inboxName, st.requests + 1, st.errors + if IsError(o) then 1 else 0,
      st.latencySumMs + o.latencyMs, Counted(st.buckets, o.latencyMs))
  }

  lemma StatAppend(events: seq<Observation>, o: Observation, q: MonitoringQuery, inbox: Inbox)
    ensures StatOf(events + [o], q, inbox) ==
      if MatchingIn(q, inbox.id)(o) then StatGrown(StatOf(events, q, inbox), o) else StatOf(events, q, inbox)
  {
    hide Fold, Select, Matches;
    FoldSelectAppend(events, o, MatchingIn(q, inbox.id));
  }
}

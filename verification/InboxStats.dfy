/** The statistics of a query per inbox, and the health that is read from them. */
module InboxStats {
  import opened Domain
  import opened Histogram
  import opened Folds
  import opened Minutes
  import opened Sorting
  import opened Summaries

  datatype InboxStat = InboxStat(
    inboxID: string, inboxName: string, requests: nat, errors: nat, latencySumMs: nat, buckets: Buckets)

  function MatchingIn(q: MonitoringQuery, inboxID: string): Observation -> bool {
    (o: Observation) => Matches(o, q) && o.inboxID == inboxID
  }

  function StatFrom(inbox: Inbox, a: Aggregate): InboxStat {
    InboxStat(inbox.id, inbox.name, a.requests, a.errors, a.latencySum, a.buckets)
  }

  function StatOf(events: seq<Observation>, q: MonitoringQuery, inbox: Inbox): InboxStat {
    StatFrom(inbox, Fold(Select(events, MatchingIn(q, inbox.id))))
  }

  function StatsOf(events: seq<Observation>, q: MonitoringQuery, order: seq<Inbox>): (stats: seq<InboxStat>)
    ensures |stats| == |order|
  {
    seq(|order|, i requires 0 <= i < |order| => StatOf(events, q, order[i]))
  }

  /** The inboxes that a query lists: those that are not deleted, or the one it names. */
  predicate IsListed(inbox: Inbox, q: MonitoringQuery) {
    inbox.deletedAt.None? && (q.inboxID == "" || inbox.id == q.inboxID)
  }

  function ByCreation(): (Inbox, Inbox) -> bool {
    (a: Inbox, b: Inbox) => a.createdAt < b.createdAt
  }

  ghost function ListedInboxes(inboxes: map<string, Inbox>, q: MonitoringQuery): set<Inbox> {
    set k | k in inboxes && IsListed(inboxes[k], q) :: inboxes[k]
  }

  /** The listed inboxes in some order of creation, each with its statistics. */
  ghost predicate IsStats(stats: seq<InboxStat>, inboxes: map<string, Inbox>, events: seq<Observation>,
        q: MonitoringQuery) {
    exists order :: SortedBy(ByCreation(), order) && multiset(order) == multiset(ListedInboxes(inboxes, q))
      && stats == StatsOf(events, q, order)
  }

  // ------------------------------------------------------------------ conservation

  function RequestsOfStats(stats: seq<InboxStat>): nat {
    if stats == [] then 0 else RequestsOfStats(stats[..|stats| - 1]) + stats[|stats| - 1].requests
  }

  function Among(q: MonitoringQuery, order: seq<Inbox>): Observation -> bool {
    (o: Observation) => Matches(o, q) && exists i :: 0 <= i < |order| && order[i].id == o.inboxID
  }

  /** The events that the query matches but that belong to no listed inbox. */
  function Unlisted(q: MonitoringQuery, inboxes: map<string, Inbox>): Observation -> bool {
    (o: Observation) => Matches(o, q) && !(o.inboxID in inboxes && IsListed(inboxes[o.inboxID], q))
  }

  lemma AmongSplit(q: MonitoringQuery, order: seq<Inbox>, o: Observation)
    requires order != [] && forall i, j :: 0 <= i < j < |order| ==> order[i].id != order[j].id
    ensures var front, last := order[..|order| - 1], order[|order| - 1];
      && (Among(q, order)(o) <==> Among(q, front)(o) || MatchingIn(q, last.id)(o))
      && !(Among(q, front)(o) && MatchingIn(q, last.id)(o))
  {
  }

  lemma {:induction false} StatsCountEvents(events: seq<Observation>, q: MonitoringQuery, order: seq<Inbox>)
    requires forall i, j :: 0 <= i < j < |order| ==> order[i].id != order[j].id
    ensures RequestsOfStats(StatsOf(events, q, order)) == |Select(events, Among(q, order))|
  {
    hide Fold, Select, Matches;
    if order == [] {
      SelectNone(events, Among(q, order));
      assert Select(events, Among(q, order)) == [];
    } else {
      var front, last := order[..|order| - 1], order[|order| - 1];
      StatsCountEvents(events, q, front);
      assert StatsOf(events, q, order)[..|order| - 1] == StatsOf(events, q, front);
      forall o | o in events
        ensures (Among(q, order)(o) <==> Among(q, front)(o) || MatchingIn(q, last.id)(o))
          && !(Among(q, front)(o) && MatchingIn(q, last.id)(o))
      {
        AmongSplit(q, order, o);
      }
      hide Among, MatchingIn;
      FoldParts(events, Among(q, front), MatchingIn(q, last.id), Among(q, order));
      FoldDescribes(Select(events, Among(q, front)));
      FoldDescribes(Select(events, MatchingIn(q, last.id)));
      FoldDescribes(Select(events, Among(q, order)));
    }
  }

  /** The inbox statistics and the matching events of no listed inbox add up to the total of the summary. */
  lemma StatsConserve(stats: seq<InboxStat>, inboxes: map<string, Inbox>, events: seq<Observation>, q: MonitoringQuery)
    requires IsStats(stats, inboxes, events, q)
    requires forall k :: k in inboxes ==> inboxes[k].id == k
    ensures RequestsOfStats(stats) + |Select(events, Unlisted(q, inboxes))| == SummaryOf(events, q).requestsTotal
  {
    hide StatsOf;
    var order :| SortedBy(ByCreation(), order) && multiset(order) == multiset(ListedInboxes(inboxes, q))
      && stats == StatsOf(events, q, order);
    hide Fold, Select, Matches, SummaryFrom, SortedBy;
    ListOfSet(order, ListedInboxes(inboxes, q));
    DistinctIds(order, inboxes, q);
    StatsCountEvents(events, q, order);
    forall o | o in events
      ensures (Matching(q)(o) <==> Among(q, order)(o) || Unlisted(q, inboxes)(o))
        && !(Among(q, order)(o) && Unlisted(q, inboxes)(o))
    {
      ListedOrNot(order, inboxes, q, o);
    }
    hide Among, Unlisted, Matching;
    FoldParts(events, Among(q, order), Unlisted(q, inboxes), Matching(q));
    FoldDescribes(Select(events, Among(q, order)));
    FoldDescribes(Select(events, Unlisted(q, inboxes)));
    TotalOfSummary(events, q);
  }

  lemma TotalOfSummary(events: seq<Observation>, q: MonitoringQuery)
    ensures SummaryOf(events, q).requestsTotal == Fold(Select(events, Matching(q))).requests
  {
  }

  lemma DistinctIds(order: seq<Inbox>, inboxes: map<string, Inbox>, q: MonitoringQuery)
    requires forall k :: k in inboxes ==> inboxes[k].id == k
    requires forall x :: x in order <==> x in ListedInboxes(inboxes, q)
    requires forall i, j :: 0 <= i < j < |order| ==> order[i] != order[j]
    ensures forall i, j :: 0 <= i < j < |order| ==> order[i].id != order[j].id
  {
    forall i, j | 0 <= i < j < |order| ensures order[i].id != order[j].id {
      assert order[i] in order && order[j] in order;
    }
  }

  lemma ListedOrNot(order: seq<Inbox>, inboxes: map<string, Inbox>, q: MonitoringQuery, o: Observation)
    requires forall k :: k in inboxes ==> inboxes[k].id == k
    requires forall x :: x in order <==> x in ListedInboxes(inboxes, q)
    ensures Matches(o, q) ==> (Among(q, order)(o) <==> !Unlisted(q, inboxes)(o))
    ensures Among(q, order)(o) || Unlisted(q, inboxes)(o) ==> Matches(o, q)
  {
    hide Matches;
    if o.inboxID in inboxes && IsListed(inboxes[o.inboxID], q) {
      var inbox := inboxes[o.inboxID];
      assert inbox in order;
      var i :| 0 <= i < |order| && order[i] == inbox;
      assert order[i].id == o.inboxID;
    } else {
      forall i | 0 <= i < |order| ensures order[i].id != o.inboxID {
        assert order[i] in order;
      }
    }
  }

  // ------------------------------------------------------------------ health

  const NO_TRAFFIC := "no_traffic"
  const UNSTABLE := "unstable"
  const HEALTHY := "healthy"
  const ERROR_RATE_THRESHOLD := 2.0
  const P95_THRESHOLD_MS := 500

  datatype InboxHealth = InboxHealth(
    inboxID: string, inboxName: string, state: string, requests: nat, errors: nat, errorRate: real, latencyP95Ms: nat)

  function HealthOf(st: InboxStat): InboxHealth {
    var errorRate, p95 := Rate(st.errors, st.requests) * 100.0, Percentile(st.buckets, st.requests, P95);
    var state :=
      if st.requests == 0 then NO_TRAFFIC
      else if errorRate >= ERROR_RATE_THRESHOLD || p95 >= P95_THRESHOLD_MS then UNSTABLE
      else HEALTHY;
    InboxHealth(st.inboxID, st.inboxName, state, st.requests, st.errors, errorRate, p95)
  }

  lemma ErrorRateThreshold(errors: nat, requests: nat)
    requires requests > 0
    ensures Rate(errors, requests) * 100.0 >= ERROR_RATE_THRESHOLD <==> 50 * errors >= requests
  {
    RatioAtLeast(errors as real, requests as real);
    assert (50 * errors) as real == 50.0 * errors as real;
  }

  lemma RatioAtLeast(e: real, r: real)
    requires r > 0.0
    ensures e / r * 100.0 >= 2.0 <==> 50.0 * e >= r
  {
    var x := e / r;
    assert x * r == e;
    if x < 0.02 {
      Scale(x, 0.02, r);
    } else {
      ScaleAtLeast(0.02, x, r);
    }
  }

  lemma Scale(a: real, b: real, c: real)
    requires a < b && c > 0.0
    ensures a * c < b * c
  {
  }

  lemma ScaleAtLeast(a: real, b: real, c: real)
    requires a <= b && c > 0.0
    ensures a * c <= b * c
  {
  }

  /** `ceil(19n / 20)` is the rank of the 95th percentile. */
  lemma RankOfP95(n: nat)
    ensures TargetByCeil(n, P95) == (19 * n + 19) / 20
  {
  }

  /** With traffic, an inbox is unstable exactly when at least one call in fifty failed, or fewer than
      `ceil(19n / 20)` of its `n` calls took at most 250 ms. */
  lemma UnstableIff(events: seq<Observation>, q: MonitoringQuery, inbox: Inbox)
    ensures var kept := Select(events, MatchingIn(q, inbox.id));
      var st, n := StatOf(events, q, inbox), |kept|;
      && st.requests == n
      && (n == 0 ==> HealthOf(st).state == NO_TRAFFIC)
      && (n > 0 ==> (HealthOf(st).state == UNSTABLE <==>
            50 * st.errors >= n || CountAtMost(Latencies(kept), 250) < (19 * n + 19) / 20))
      && (n > 0 && HealthOf(st).state != UNSTABLE ==> HealthOf(st).state == HEALTHY)
  {
    hide Select, Fold, TargetByCeil, FirstBound, CountAtMost, Rate, Matches;
    var kept := Select(events, MatchingIn(q, inbox.id));
    var a := Fold(kept);
    FoldDescribes(kept);
    FoldIsCumulative(kept);
    if |kept| > 0 {
      ErrorRateThreshold(a.errors, |kept|);
      RankOfP95(|kept|);
      PercentileAtMost(a, 4, P95);
      ReachesTarget(a.buckets[4], a.requests, P95);
      SlowIffMissing(a);
    }
  }

  /** An assessment in terms of the inbox and the events that match in it: unstable when at least one call in
      fifty failed or fewer than 95 in a hundred took at most 250 ms. */
  ghost predicate Assesses(health: InboxHealth, inbox: Inbox, events: seq<Observation>) {
    var isUnstable := 50 * health.errors >= |events| || 100 * CountAtMost(Latencies(events), 250) < 95 * |events|;
    && health.inboxID == inbox.id && health.inboxName == inbox.name
    && health.requests == |events|
    && health.errors == |Select(events, Failed())|
    && IsPercentage(health.errorRate, health.errors, |events|)
    && IsPercentile(health.latencyP95Ms, Latencies(events), 95)
    && (events == [] ==> health.state == "no_traffic")
    && (events != [] && isUnstable ==> health.state == "unstable")
    && (events != [] && !isUnstable ==> health.state == "healthy")
  }

  lemma HealthIsExact(events: seq<Observation>, q: MonitoringQuery, inbox: Inbox)
    ensures Assesses(HealthOf(StatOf(events, q, inbox)), inbox, Select(events, MatchingIn(q, inbox.id)))
  {
    var kept := Select(events, MatchingIn(q, inbox.id));
    UnstableIff(events, q, inbox);
    hide Select, Fold, CountAtMost, Rate, Matches, IsPercentage, IsPercentile, Percentile, Describes, Sum;
    FoldCounts(kept);
    RateIsAverage(Fold(kept).errors, |kept|);
    PercentilesOfFold(kept);
  }

  /** The inboxes to report on: those that are not deleted, and of them the one that the query names, if any. */
  ghost function ReportedInboxes(inboxes: map<string, Inbox>, q: MonitoringQuery): set<Inbox> {
    set k | k in inboxes && inboxes[k].deletedAt.None? && (q.inboxID == "" || inboxes[k].id == q.inboxID) :: inboxes[k]
  }

  /** Each item assesses the inbox at its place in the order. */
  ghost predicate AssessInOrder(items: seq<InboxHealth>, order: seq<Inbox>, events: seq<Observation>, q: MonitoringQuery) {
    && |order| == |items|
    && (forall i, j :: 0 <= i < j < |order| ==> order[i].createdAt <= order[j].createdAt)
    && forall i :: 0 <= i < |order| ==> Assesses(items[i], order[i], Select(events, MatchingIn(q, order[i].id)))
  }

  /** A report in terms of the inboxes and the log: one assessment for every inbox to report on, in an order of
      creation. */
  ghost predicate IsReport(items: seq<InboxHealth>, inboxes: map<string, Inbox>, events: seq<Observation>,
        q: MonitoringQuery) {
    exists order :: multiset(order) == multiset(ReportedInboxes(inboxes, q)) && AssessInOrder(items, order, events, q)
  }

  lemma ReportIsExact(items: seq<InboxHealth>, stats: seq<InboxStat>, inboxes: map<string, Inbox>,
        events: seq<Observation>, q: MonitoringQuery)
    requires IsStats(stats, inboxes, events, q) && |items| == |stats|
    requires forall i :: 0 <= i < |stats| ==> items[i] == HealthOf(stats[i])
    ensures IsReport(items, inboxes, events, q)
  {
    var order: seq<Inbox> :| SortedBy(ByCreation(), order) && multiset(order) == multiset(ListedInboxes(inboxes, q))
      && stats == StatsOf(events, q, order);
    hide IsStats, HealthOf, StatOf, SortedBy, AssessInOrder;
    assert ReportedInboxes(inboxes, q) == ListedInboxes(inboxes, q);
    hide ReportedInboxes, ListedInboxes;
    ItemsAssess(items, order, events, q);
  }

  lemma ItemsAssess(items: seq<InboxHealth>, order: seq<Inbox>, events: seq<Observation>, q: MonitoringQuery)
    requires SortedBy(ByCreation(), order) && |items| == |order|
    requires forall i :: 0 <= i < |order| ==> items[i] == HealthOf(StatOf(events, q, order[i]))
    ensures AssessInOrder(items, order, events, q)
  {
    CreatedInOrder(order);
    hide Assesses, HealthOf, StatOf, Select, MatchingIn, SortedBy;
    forall i | 0 <= i < |order| ensures Assesses(items[i], order[i], Select(events, MatchingIn(q, order[i].id))) {
      HealthIsExact(events, q, order[i]);
    }
  }

  lemma CreatedInOrder(order: seq<Inbox>)
    requires SortedBy(ByCreation(), order)
    ensures forall i, j :: 0 <= i < j < |order| ==> order[i].createdAt <= order[j].createdAt
  {
  }

  lemma SlowIffMissing(a: Aggregate)
    requires a.requests > 0 && Cumulative(a)
    ensures PercentileOf(a, P95) >= P95_THRESHOLD_MS <==> a.buckets[4] < TargetByCeil(a.requests, P95)
  {
  }
}

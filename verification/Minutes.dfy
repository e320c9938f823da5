/** Splitting a fold into minutes, and what the percentile of a whole says about its parts. */
module Minutes {
  import opened Time
  import opened Domain
  import opened Histogram
  import opened Folds

  // ------------------------------------------------------------------ one fold per minute

  function InMinute(p: Observation -> bool, minute: int): Observation -> bool {
    (o: Observation) => p(o) && o.bucketMinute == minute
  }

  function InWindow(p: Observation -> bool, start: int, n: nat): Observation -> bool {
    (o: Observation) => p(o) && start <= o.bucketMinute < start + n * MINUTE
  }

  /** The folds of `n` consecutive minutes. */
  function MinuteFolds(events: seq<Observation>, p: Observation -> bool, start: int, n: nat): (parts: seq<Aggregate>)
    ensures |parts| == n
  {
    seq(n, i requires 0 <= i < n => Fold(Select(events, InMinute(p, start + i * MINUTE))))
  }

  /** A window is the window without its last minute, and that minute. */
  lemma WindowSplit(p: Observation -> bool, start: int, n: nat, o: Observation)
    requires start % MINUTE == 0 && n > 0 && WellFormed(o)
    ensures var last := start + (n - 1) * MINUTE;
      && (InWindow(p, start, n)(o) <==> InWindow(p, start, n - 1)(o) || InMinute(p, last)(o))
      && !(InWindow(p, start, n - 1)(o) && InMinute(p, last)(o))
  {
    NextMinute(o.bucketMinute, start + (n - 1) * MINUTE);
  }

  lemma NextMinute(m: int, last: int)
    requires m % MINUTE == 0 && last % MINUTE == 0
    ensures last <= m < last + MINUTE <==> m == last
  {
  }

  /** Merging the folds of consecutive minutes is folding the window they cover. */
  lemma {:induction false} MinutesMerge(events: seq<Observation>, p: Observation -> bool, start: int, n: nat)
    requires start % MINUTE == 0
    requires forall o :: o in events ==> WellFormed(o)
    ensures MergeAll(MinuteFolds(events, p, start, n)) == Fold(Select(events, InWindow(p, start, n)))
  {
    hide Fold, Select, Merge, InWindow, InMinute;
    if n == 0 {
      WindowEmpty(events, p, start);
    } else {
      MinutesMerge(events, p, start, n - 1);
      forall o | o in events
        ensures (InWindow(p, start, n)(o) <==> InWindow(p, start, n - 1)(o) || InMinute(p, start + (n - 1) * MINUTE)(o))
          && !(InWindow(p, start, n - 1)(o) && InMinute(p, start + (n - 1) * MINUTE)(o))
      {
        assert WellFormed(o);
        WindowSplit(p, start, n, o);
      }
      FoldParts(events, InWindow(p, start, n - 1), InMinute(p, start + (n - 1) * MINUTE), InWindow(p, start, n));
      LastMinute(events, p, start, n);
    }
  }

  lemma WindowEmpty(events: seq<Observation>, p: Observation -> bool, start: int)
    ensures Fold(Select(events, InWindow(p, start, 0))) == EmptyAggregate()
  {
    SelectNone(events, InWindow(p, start, 0));
  }

  lemma LastMinute(events: seq<Observation>, p: Observation -> bool, start: int, n: nat)
    requires n > 0
    ensures MergeAll(MinuteFolds(events, p, start, n)) ==
      Merge(MergeAll(MinuteFolds(events, p, start, n - 1)), Fold(Select(events, InMinute(p, start + (n - 1) * MINUTE))))
  {
    hide Fold, Select, Merge, InMinute;
    var parts := MinuteFolds(events, p, start, n);
    assert parts[..n - 1] == MinuteFolds(events, p, start, n - 1);
  }

  function Requests(parts: seq<Aggregate>): nat {
    if parts == [] then 0 else Requests(parts[..|parts| - 1]) + parts[|parts| - 1].requests
  }

  function Errors(parts: seq<Aggregate>): nat {
    if parts == [] then 0 else Errors(parts[..|parts| - 1]) + parts[|parts| - 1].errors
  }

  lemma {:induction false} MergeAllSums(parts: seq<Aggregate>)
    ensures MergeAll(parts).requests == Requests(parts)
    ensures MergeAll(parts).errors == Errors(parts)
  {
    if parts != [] { MergeAllSums(parts[..|parts| - 1]); }
  }

  // ------------------------------------------------------------------ percentiles of parts and whole

  /** A cumulative histogram never falls as the bound grows, and never exceeds the number counted. */
  predicate Cumulative(a: Aggregate) {
    && (forall i, j :: 0 <= i <= j < |BOUNDS| ==> a.buckets[i] <= a.buckets[j])
    && forall i :: 0 <= i < |BOUNDS| ==> a.buckets[i] <= a.requests
  }

  lemma {:induction false} CountsCumulate(latencies: seq<nat>, low: nat, high: nat)
    requires low <= high
    ensures CountAtMost(latencies, low) <= CountAtMost(latencies, high) <= |latencies|
  {
    if latencies != [] { CountsCumulate(latencies[..|latencies| - 1], low, high); }
  }

  lemma FoldIsCumulative(events: seq<Observation>)
    ensures Cumulative(Fold(events))
  {
    FoldDescribes(events);
    hide Fold;
    forall i, j | 0 <= i <= j < |BOUNDS|
      ensures Fold(events).buckets[i] <= Fold(events).buckets[j] <= Fold(events).requests
    {
      CountsCumulate(Latencies(events), BOUNDS[i], BOUNDS[j]);
    }
  }

  function PercentileOf(a: Aggregate, q: Quantile): nat
    requires q.Proper()
  {
    Percentile(a.buckets, a.requests, q)
  }

  /** Whether the count at position `i` reaches the fraction `q` of the requests. */
  predicate Reaches(a: Aggregate, i: nat, q: Quantile)
    requires i < |BOUNDS|
  {
    a.buckets[i] * q.den >= a.requests * q.num
  }

  /** The percentile is at most a bound below the top exactly when the count at that bound reaches `q`. */
  lemma PercentileAtMost(a: Aggregate, i: nat, q: Quantile)
    requires q.Proper() && Cumulative(a) && a.requests > 0 && i < |BOUNDS|
    ensures Reaches(a, i, q) ==> PercentileOf(a, q) <= BOUNDS[i]
    ensures PercentileOf(a, q) <= BOUNDS[i] && PercentileOf(a, q) != TOP ==> Reaches(a, i, q)
    ensures PercentileOf(a, q) in BOUNDS
  {
    var target := TargetByCeil(a.requests, q);
    ReachesTarget(a.buckets[i], a.requests, q);
    FirstBoundProperties(a.buckets, target, 0);
    hide TargetByCeil, FirstBound;
    var p := PercentileOf(a, q);
    if p == TOP {
      assert BOUNDS[8] == TOP;
    } else {
      var j :| 0 <= j < |BOUNDS| && p == BOUNDS[j] && a.buckets[j] >= target;
      if p <= BOUNDS[i] {
        assert j <= i;
      }
    }
  }

  lemma {:induction false} AllReach(parts: seq<Aggregate>, i: nat, q: Quantile)
    requires i < |BOUNDS| && forall k :: 0 <= k < |parts| ==> Reaches(parts[k], i, q)
    ensures Reaches(MergeAll(parts), i, q)
  {
    if parts != [] {
      var front, last := parts[..|parts| - 1], parts[|parts| - 1];
      AllReach(front, i, q);
      assert Reaches(last, i, q);
      var sum := MergeAll(front);
      SumTimes(sum.buckets[i], last.buckets[i], q.den);
      SumTimes(sum.requests, last.requests, q.num);
    }
  }

  lemma SumTimes(a: int, b: int, c: int)
    ensures (a + b) * c == a * c + b * c
  {
  }

  /** If no part with traffic reaches `q` at a bound, the whole does not either. */
  lemma {:induction false} NoneReach(parts: seq<Aggregate>, i: nat, q: Quantile)
    requires i < |BOUNDS|
    requires forall k :: 0 <= k < |parts| ==> Cumulative(parts[k])
    requires forall k :: 0 <= k < |parts| && parts[k].requests > 0 ==> !Reaches(parts[k], i, q)
    ensures var sum := MergeAll(parts);
      && sum.buckets[i] * q.den <= sum.requests * q.num
      && (sum.requests > 0 ==> !Reaches(sum, i, q))
  {
    if parts != [] {
      var front, last := parts[..|parts| - 1], parts[|parts| - 1];
      NoneReach(front, i, q);
      assert Cumulative(last) && (last.requests > 0 ==> !Reaches(last, i, q));
      var sum := MergeAll(front);
      SumTimes(sum.buckets[i], last.buckets[i], q.den);
      SumTimes(sum.requests, last.requests, q.num);
    }
  }

  lemma {:induction false} MergeAllCumulative(parts: seq<Aggregate>)
    requires forall k :: 0 <= k < |parts| ==> Cumulative(parts[k])
    ensures Cumulative(MergeAll(parts))
  {
    if parts != [] {
      MergeAllCumulative(parts[..|parts| - 1]);
      assert Cumulative(parts[|parts| - 1]);
    }
  }

  /** The percentile of the whole lies between any bounds on the percentiles of the parts that have
      traffic, so between their minimum and their maximum. */
  lemma PercentileBracketed(parts: seq<Aggregate>, q: Quantile, low: nat, high: nat)
    requires q.Proper()
    requires forall k :: 0 <= k < |parts| ==> Cumulative(parts[k])
    requires forall k :: 0 <= k < |parts| && parts[k].requests > 0 ==> low <= PercentileOf(parts[k], q) <= high
    requires MergeAll(parts).requests > 0
    ensures low <= PercentileOf(MergeAll(parts), q) <= high
  {
    var whole := MergeAll(parts);
    MergeAllCumulative(parts);
    MergeAllSums(parts);
    var busy := BusyPart(parts);
    hide MergeAll, PercentileOf;
    assert PercentileOf(whole, q) <= high by { WholeAtMost(parts, q, high, busy); }
    assert low <= PercentileOf(whole, q) by { WholeAtLeast(parts, q, low, busy); }
  }

  function BusyPart(parts: seq<Aggregate>): (k: nat)
    requires Requests(parts) > 0
    ensures k < |parts| && parts[k].requests > 0
  {
    if parts[|parts| - 1].requests > 0 then |parts| - 1 else BusyPart(parts[..|parts| - 1])
  }

  /** The position of the last bound that is at most `x`. */
  function LastWithin(x: nat, i: nat): (j: nat)
    requires i < |BOUNDS| && BOUNDS[i] <= x
    ensures i <= j < |BOUNDS| && BOUNDS[j] <= x
    ensures j == |BOUNDS| - 1 || x < BOUNDS[j + 1]
    decreases |BOUNDS| - i
  {
    if i + 1 < |BOUNDS| && BOUNDS[i + 1] <= x then LastWithin(x, i + 1) else i
  }

  lemma WholeAtMost(parts: seq<Aggregate>, q: Quantile, high: nat, busy: nat)
    requires q.Proper()
    requires forall k :: 0 <= k < |parts| ==> Cumulative(parts[k])
    requires forall k :: 0 <= k < |parts| && parts[k].requests > 0 ==> PercentileOf(parts[k], q) <= high
    requires Cumulative(MergeAll(parts)) && MergeAll(parts).requests > 0
    requires busy < |parts| && parts[busy].requests > 0
    ensures PercentileOf(MergeAll(parts), q) <= high
  {
    hide MergeAll, PercentileOf, Reaches, Cumulative;
    PercentileAtMost(MergeAll(parts), 8, q);
    if high < TOP {
      PercentileAtMost(parts[busy], 0, q);
      assert BOUNDS[0] <= PercentileOf(parts[busy], q);
      var i := LastWithin(high, 0);
      forall k | 0 <= k < |parts| ensures Reaches(parts[k], i, q) {
        assert Cumulative(parts[k]);
        if parts[k].requests > 0 {
          PercentileAtMost(parts[k], i, q);
          BoundWithin(PercentileOf(parts[k], q), high, i);
        } else {
          EmptyReaches(parts[k], i, q);
        }
      }
      AllReach(parts, i, q);
      PercentileAtMost(MergeAll(parts), i, q);
    }
  }

  lemma EmptyReaches(a: Aggregate, i: nat, q: Quantile)
    requires a.requests == 0 && i < |BOUNDS|
    ensures Reaches(a, i, q)
  {
  }

  lemma BoundWithin(p: nat, high: nat, i: nat)
    requires p in BOUNDS && p <= high && i < |BOUNDS|
    requires i == |BOUNDS| - 1 || high < BOUNDS[i + 1]
    ensures p <= BOUNDS[i]
  {
    var j :| 0 <= j < |BOUNDS| && BOUNDS[j] == p;
  }

  lemma WholeAtLeast(parts: seq<Aggregate>, q: Quantile, low: nat, busy: nat)
    requires q.Proper()
    requires forall k :: 0 <= k < |parts| ==> Cumulative(parts[k])
    requires forall k :: 0 <= k < |parts| && parts[k].requests > 0 ==> low <= PercentileOf(parts[k], q)
    requires Cumulative(MergeAll(parts)) && MergeAll(parts).requests > 0
    requires busy < |parts| && parts[busy].requests > 0
    ensures low <= PercentileOf(MergeAll(parts), q)
  {
    hide MergeAll, PercentileOf, Reaches, Cumulative;
    var whole := MergeAll(parts);
    PercentileAtMost(whole, 0, q);
    PercentileAtMost(parts[busy], 0, q);
    assert PercentileOf(parts[busy], q) <= TOP;
    var p := PercentileOf(whole, q);
    if p < low {
      var i :| 0 <= i < |BOUNDS| && BOUNDS[i] == p;
      forall k | 0 <= k < |parts| && parts[k].requests > 0 ensures !Reaches(parts[k], i, q) {
        assert Cumulative(parts[k]);
        PercentileAtMost(parts[k], i, q);
      }
      NoneReach(parts, i, q);
      PercentileAtMost(whole, i, q);
      assert false;
    }
  }
}

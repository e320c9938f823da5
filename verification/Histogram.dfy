/** The cumulative latency histogram and the percentile read from it. */
module Histogram {

  const BOUNDS: seq<nat> := [10, 25, 50, 100, 250, 500, 1000, 2000, 5000]
  const TOP: nat := 5000

  /** For each bound, by its position in `BOUNDS`, how many latencies are at most that bound. */
  type Buckets = b: seq<nat> | |b| == |BOUNDS| witness [0, 0, 0, 0, 0, 0, 0, 0, 0]

  function EmptyBuckets(): Buckets {
    seq(|BOUNDS|, i => 0)
  }

  function CountAtMost(latencies: seq<nat>, bound: nat): nat {
    if latencies == [] then 0 else
      CountAtMost(latencies[..|latencies| - 1], bound)
      + if latencies[|latencies| - 1] <= bound then 1 else 0
  }

  /** The count is the number of positions whose latency is within the bound. */
  lemma {:induction false} CountAtMostIs(latencies: seq<nat>, bound: nat)
    ensures CountAtMost(latencies, bound) == |set i | 0 <= i < |latencies| && latencies[i] <= bound|
  {
    if latencies != [] {
      var n := |latencies| - 1;
      CountAtMostIs(latencies[..n], bound);
      var front := set i | 0 <= i < n && latencies[..n][i] <= bound;
      var all := set i | 0 <= i < |latencies| && latencies[i] <= bound;
      assert all == front + if latencies[n] <= bound then {n} else {};
    }
  }

  /** The buckets after one more latency. */
  function Counted(b: Buckets, latency: nat): Buckets {
    seq(|BOUNDS|, i requires 0 <= i < |BOUNDS| => if latency <= BOUNDS[i] then b[i] + 1 else b[i])
  }

  /** The loop over the bounds that every recording path runs. */
  method CountLatency(b: Buckets, latency: nat) returns (b': Buckets)
    ensures b' == Counted(b, latency)
  {
    b' := b;
    for i := 0 to |BOUNDS|
      invariant forall j :: 0 <= j < |BOUNDS| ==> b'[j] == if j < i && latency <= BOUNDS[j] then b[j] + 1 else b[j]
    {
      if latency <= BOUNDS[i] {
        b' := b'[i := b'[i] + 1];
      }
    }
  }

  ghost predicate Describes(b: Buckets, latencies: seq<nat>) {
    forall i :: 0 <= i < |BOUNDS| ==> b[i] == CountAtMost(latencies, BOUNDS[i])
  }

  // ------------------------------------------------------------------ quantiles

  /** A quantile `num / den`, kept exact. */
  datatype Quantile = Quantile(num: nat, den: nat) {
    predicate Proper() {
      0 < num <= den <= 1_000_000
    }
  }

  const P95 := Quantile(95, 100)
  const P99 := Quantile(99, 100)

  /** `int64(float64(total)*q + 0.999999)`, over exact rationals. */
  function TargetByOffset(total: nat, q: Quantile): int
    requires q.Proper()
  {
    (total * q.num * 1_000_000 + 999_999 * q.den) / (q.den * 1_000_000)
  }

  /** `int64(math.Ceil(float64(total) * q))`, over exact rationals. */
  function TargetByCeil(total: nat, q: Quantile): int
    requires q.Proper()
  {
    (total * q.num + q.den - 1) / q.den
  }

  lemma DivisionIs(x: int, d: int, k: int)
    requires d > 0 && k * d <= x < k * d + d
    ensures x / d == k
  {
    var r := x - k * d;
    assert x == k * d + r;
    var k' := x / d;
    assert x == k' * d + x % d;
    if k' < k { Grow(k' + 1, k, d); } else if k' > k { Grow(k + 1, k', d); }
  }

  lemma Grow(a: int, b: int, d: int)
    requires a <= b && d >= 0
    ensures a * d <= b * d
  {
  }

  /** The two target formulas of the source agree for every total. */
  lemma TargetsAgree(total: nat, q: Quantile)
    requires q.Proper()
    ensures TargetByOffset(total, q) == TargetByCeil(total, q)
  {
    var x, d := total * q.num, q.den;
    var k := (x + d - 1) / d;
    var r := (x + d - 1) % d;
    assert x + d - 1 == k * d + r;
    assert (k * d) * 1_000_000 == k * (d * 1_000_000);
    DivisionIs(x * 1_000_000 + 999_999 * d, d * 1_000_000, k);
  }

  /** A count reaches the target exactly when it is at least the fraction `q` of the total. */
  lemma ReachesTarget(count: int, total: nat, q: Quantile)
    requires q.Proper()
    ensures count >= TargetByCeil(total, q) <==> count * q.den >= total * q.num
  {
    var x, d := total * q.num, q.den;
    var k := (x + d - 1) / d;
    assert x + d - 1 == k * d + (x + d - 1) % d;
    if count >= k { Grow(k, count, d); } else { Grow(count, k - 1, d); assert (k - 1) * d == k * d - d; }
  }

  lemma TargetInRange(total: nat, q: Quantile)
    requires q.Proper() && total > 0
    ensures 1 <= TargetByCeil(total, q) <= total
  {
    ReachesTarget(total, total, q);
    ReachesTarget(0, total, q);
    Grow(q.num, q.den, total);
    Grow(1, total, q.num);
  }

  // ------------------------------------------------------------------ percentile

  /** The first bound from position `i` whose count reaches the target, or the top bound. */
  function FirstBound(b: Buckets, target: int, i: nat): nat
    requires i <= |BOUNDS|
    decreases |BOUNDS| - i
  {
    if i == |BOUNDS| then TOP
    else if b[i] >= target then BOUNDS[i]
    else FirstBound(b, target, i + 1)
  }

  function Percentile(b: Buckets, total: nat, q: Quantile): nat
    requires q.Proper()
  {
    if total == 0 then 0 else FirstBound(b, TargetByCeil(total, q), 0)
  }

  /** The store's scan, which rounds the target up by an offset. */
  method PercentileFromCumulativeBuckets(cumulative: Buckets, total: nat, q: Quantile) returns (p: nat)
    requires q.Proper()
    ensures p == Percentile(cumulative, total, q)
  {
    if total == 0 {
      return 0;
    }
    TargetsAgree(total, q);
    var target := TargetByOffset(total, q);
    for i := 0 to |BOUNDS|
      invariant FirstBound(cumulative, target, 0) == FirstBound(cumulative, target, i)
    {
      if cumulative[i] >= target {
        return BOUNDS[i];
      }
    }
    return BOUNDS[|BOUNDS| - 1];
  }

  /** The service's scan, which takes the ceiling of the target. */
  method PercentileFromBuckets(cumulative: Buckets, total: nat, q: Quantile) returns (p: nat)
    requires q.Proper()
    ensures p == Percentile(cumulative, total, q)
  {
    if total == 0 {
      return 0;
    }
    var target := TargetByCeil(total, q);
    for i := 0 to |BOUNDS|
      invariant FirstBound(cumulative, target, 0) == FirstBound(cumulative, target, i)
    {
      if cumulative[i] >= target {
        return BOUNDS[i];
      }
    }
    return BOUNDS[|BOUNDS| - 1];
  }

  // ------------------------------------------------------------------ nearest rank

  ghost predicate Ascending(s: seq<nat>) {
    forall i, j :: 0 <= i <= j < |s| ==> s[i] <= s[j]
  }

  /** The least bound that is at least `x`, or the top bound if none is. */
  function RoundUp(x: nat, i: nat): nat
    requires i <= |BOUNDS|
    decreases |BOUNDS| - i
  {
    if i == |BOUNDS| then TOP else if x <= BOUNDS[i] then BOUNDS[i] else RoundUp(x, i + 1)
  }

  /** What rounding up means. */
  lemma {:induction false} RoundUpIsLeastBound(x: nat, i: nat)
    requires i <= |BOUNDS|
    ensures RoundUp(x, i) in BOUNDS
    ensures x <= TOP ==> x <= RoundUp(x, i)
    ensures forall j :: i <= j < |BOUNDS| && x <= BOUNDS[j] ==> RoundUp(x, i) <= BOUNDS[j]
    ensures x > TOP ==> RoundUp(x, i) == TOP
    decreases |BOUNDS| - i
  {
    assert TOP == BOUNDS[8];
    if i < |BOUNDS| { RoundUpIsLeastBound(x, i + 1); }
  }

  lemma {:induction false} CountSplit(a: seq<nat>, b: seq<nat>, bound: nat)
    ensures CountAtMost(a + b, bound) == CountAtMost(a, bound) + CountAtMost(b, bound)
  {
    if b == [] {
      assert a + b == a;
    } else {
      assert (a + b)[..|a + b| - 1] == a + b[..|b| - 1];
      CountSplit(a, b[..|b| - 1], bound);
    }
  }

  /** Taking one element out. */
  lemma CountWithout(s: seq<nat>, i: nat, bound: nat)
    requires i < |s|
    ensures CountAtMost(s, bound) == CountAtMost(s[..i] + s[i + 1..], bound) + if s[i] <= bound then 1 else 0
    ensures multiset(s[..i] + s[i + 1..]) == multiset(s) - multiset{s[i]}
  {
    assert s == s[..i] + ([s[i]] + s[i + 1..]);
    CountSplit(s[..i], s[i + 1..], bound);
    CountSplit(s[..i], [s[i]] + s[i + 1..], bound);
    CountSplit([s[i]], s[i + 1..], bound);
    assert [s[i]][..0] == [];
  }

  /** Counting does not depend on order. */
  lemma {:induction false} CountOfPermutation(a: seq<nat>, b: seq<nat>, bound: nat)
    requires multiset(a) == multiset(b)
    ensures |a| == |b| && CountAtMost(a, bound) == CountAtMost(b, bound)
    decreases |a|
  {
    hide CountAtMost;
    assert |a| == |multiset(a)| == |multiset(b)| == |b|;
    if a == [] {
      assert b == [];
    } else {
      assert a[0] in multiset(b);
      var i :| 0 <= i < |b| && b[i] == a[0];
      CountWithout(a, 0, bound);
      CountWithout(b, i, bound);
      CountOfPermutation(a[..0] + a[1..], b[..i] + b[i + 1..], bound);
    }
  }

  /** In an ascending list, at least `k` elements are within the bound exactly when the `k`th is. */
  lemma {:induction false} CountInAscending(s: seq<nat>, bound: nat, k: int)
    requires Ascending(s) && 1 <= k <= |s|
    ensures CountAtMost(s, bound) >= k <==> s[k - 1] <= bound
    ensures CountAtMost(s, bound) <= |s|
    decreases |s|
  {
    var n := |s| - 1;
    if k <= n {
      CountInAscending(s[..n], bound, k);
    } else if n > 0 {
      CountInAscending(s[..n], bound, n);
    }
  }

  lemma {:induction false} FirstBoundIsRoundUp(b: Buckets, target: int, x: nat, i: nat)
    requires i <= |BOUNDS|
    requires forall j :: 0 <= j < |BOUNDS| ==> (b[j] >= target <==> x <= BOUNDS[j])
    ensures FirstBound(b, target, i) == RoundUp(x, i)
    decreases |BOUNDS| - i
  {
    if i < |BOUNDS| { FirstBoundIsRoundUp(b, target, x, i + 1); }
  }

  /** The histogram percentile is the nearest-rank order statistic rounded up to a bound: the element
      number `ceil(q * n)` of the latencies in ascending order. */
  lemma PercentileIsNearestRank(b: Buckets, latencies: seq<nat>, ascending: seq<nat>, q: Quantile)
    requires q.Proper() && latencies != []
    requires Describes(b, latencies)
    requires Ascending(ascending) && multiset(ascending) == multiset(latencies)
    ensures |ascending| == |latencies|
    ensures 1 <= TargetByCeil(|latencies|, q) <= |latencies|
    ensures Percentile(b, |latencies|, q) == RoundUp(ascending[TargetByCeil(|latencies|, q) - 1], 0)
  {
    CountOfPermutation(ascending, latencies, 0);
    var k := TargetByCeil(|latencies|, q);
    TargetInRange(|latencies|, q);
    forall j | 0 <= j < |BOUNDS| ensures b[j] >= k <==> ascending[k - 1] <= BOUNDS[j] {
      CountOfPermutation(ascending, latencies, BOUNDS[j]);
      CountInAscending(ascending, BOUNDS[j], k);
    }
    FirstBoundIsRoundUp(b, k, ascending[k - 1], 0);
  }

  /** The percentile as the client is told it: the least of nine bounds within which at least `percent` of a
      hundred latencies lie, or the last bound if there is none; zero without latencies. */
  ghost predicate IsPercentile(p: nat, latencies: seq<nat>, percent: nat) {
    var bounds := [10, 25, 50, 100, 250, 500, 1000, 2000, 5000];
    if latencies == [] then p == 0 else
      && p in bounds
      && (p == 5000 || 100 * CountAtMost(latencies, p) >= percent * |latencies|)
      && forall b :: b in bounds && b < p ==> 100 * CountAtMost(latencies, b) < percent * |latencies|
  }

  lemma PercentileIsPercentile(b: Buckets, latencies: seq<nat>, percent: nat)
    requires 0 < percent <= 100 && Describes(b, latencies)
    ensures IsPercentile(Percentile(b, |latencies|, Quantile(percent, 100)), latencies, percent)
  {
    var q := Quantile(percent, 100);
    if latencies != [] {
      var target := TargetByCeil(|latencies|, q);
      FirstBoundProperties(b, target, 0);
      forall j | 0 <= j < |BOUNDS|
        ensures b[j] >= target <==> 100 * CountAtMost(latencies, BOUNDS[j]) >= percent * |latencies|
      {
        ReachesTarget(b[j], |latencies|, q);
      }
      hide TargetByCeil, CountAtMost;
    }
  }

  // ------------------------------------------------------------------ merging

  function Plus(b: Buckets, b': Buckets): Buckets {
    seq(|BOUNDS|, i requires 0 <= i < |BOUNDS| => b[i] + b'[i])
  }

  lemma PlusEmpty(b: Buckets)
    ensures Plus(b, EmptyBuckets()) == b && Plus(EmptyBuckets(), b) == b
  {
  }

  /** Where the percentile lies, in terms of the counts. */
  lemma {:induction false} FirstBoundProperties(b: Buckets, target: int, i: nat)
    requires i <= |BOUNDS|
    ensures FirstBound(b, target, i) == TOP
      || exists j :: i <= j < |BOUNDS| && FirstBound(b, target, i) == BOUNDS[j] && b[j] >= target
    ensures forall j :: i <= j < |BOUNDS| && BOUNDS[j] < FirstBound(b, target, i) ==> b[j] < target
    ensures forall j :: i <= j < |BOUNDS| && b[j] >= target ==> FirstBound(b, target, i) <= BOUNDS[j]
    decreases |BOUNDS| - i
  {
    if i < |BOUNDS| { FirstBoundProperties(b, target, i + 1); }
  }
}

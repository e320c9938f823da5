/** The ranked breakdown of a query by one dimension. */
module Breakdowns {
  import opened Text
  import opened Time
  import opened Domain
  import opened Folds
  import opened Minutes
  import opened Rollups
  import opened Sorting
  import opened Summaries

  datatype Item = Item(dimension: string, value: string, count: nat, percentage: real)

  function Incremented(counts: map<string, nat>, value: string): map<string, nat> {
    counts[value := CountAt(counts, value) + 1]
  }

  /** The counters that one pass over the selected events builds; empty values are skipped. */
  function ValueCounts(selected: seq<Observation>, dimension: string): map<string, nat> {
    if selected == [] then map[] else
      var n := |selected| - 1;
      var counts, value := ValueCounts(selected[..n], dimension), DimensionValue(selected[n], dimension);
      if value == "" then counts else Incremented(counts, value)
  }

  function HasValue(dimension: string, value: string): Observation -> bool {
    (o: Observation) => DimensionValue(o, dimension) == value
  }

  /** A value is counted exactly as often as it occurs, and only values that occur are listed. */
  lemma {:induction false} CountsAreOccurrences(selected: seq<Observation>, dimension: string, value: string)
    ensures value != "" ==>
      CountAt(ValueCounts(selected, dimension), value) == |Select(selected, HasValue(dimension, value))|
    ensures value in ValueCounts(selected, dimension) <==> value != "" && Select(selected, HasValue(dimension, value)) != []
  {
    if selected != [] {
      var n := |selected| - 1;
      CountsAreOccurrences(selected[..n], dimension, value);
      hide DimensionValue;
      assert selected == selected[..n] + [selected[n]];
      SelectAppend(selected[..n], selected[n], HasValue(dimension, value));
    }
  }

  function ItemOf(dimension: string, value: string, count: nat, total: nat): Item {
    Item(dimension, value, count, Rate(count, total) * 100.0)
  }

  /** Larger counts first, and among equal counts smaller values first. */
  function RanksBefore(): (Item, Item) -> bool {
    (a: Item, b: Item) => a.count > b.count || (a.count == b.count && Less(a.value, b.value))
  }

  lemma RanksBeforeIsWeakOrder()
    ensures WeakOrder(RanksBefore())
  {
    var less := RanksBefore();
    forall x, y | less(x, y) ensures !less(y, x) {
      LessAsymmetric(x.value, y.value);
    }
    forall x, y, z | !less(x, y) && !less(y, z) ensures !less(x, z) {
      LessTotal(x.value, y.value);
      LessTotal(y.value, z.value);
      if Less(x.value, z.value) {
        if Less(y.value, x.value) { LessTransitive(y.value, x.value, z.value); }
      }
    }
  }

  lemma LessAsymmetric(a: string, b: string)
    ensures !(Less(a, b) && Less(b, a))
  {
  }

  ghost function ItemSet(counts: map<string, nat>, dimension: string, total: nat): set<Item> {
    set v | v in counts :: ItemOf(dimension, v, counts[v], total)
  }

  /** A full ranking lists every counted value once, in ranking order. */
  ghost predicate IsRanking(ranking: seq<Item>, counts: map<string, nat>, dimension: string, total: nat) {
    SortedBy(RanksBefore(), ranking) && multiset(ranking) == multiset(ItemSet(counts, dimension, total))
  }

  /** A breakdown is the part of a full ranking that the limit admits. */
  ghost predicate IsBreakdown(items: seq<Item>, counts: map<string, nat>, dimension: string, total: nat, limit: nat) {
    exists ranking :: IsRanking(ranking, counts, dimension, total)
      && items == if |ranking| > limit then ranking[..limit] else ranking
  }

  /** There is only one full ranking, so the order in which the map was walked cannot show. */
  lemma RankingUnique(a: seq<Item>, b: seq<Item>, counts: map<string, nat>, dimension: string, total: nat)
    requires IsRanking(a, counts, dimension, total) && IsRanking(b, counts, dimension, total)
    ensures a == b
  {
    var less := RanksBefore();
    forall x, y | x in a && y in a && x != y ensures less(x, y) || less(y, x) {
      assert x in multiset(a) && y in multiset(a);
      var v :| v in counts && x == ItemOf(dimension, v, counts[v], total);
      var w :| w in counts && y == ItemOf(dimension, w, counts[w], total);
      LessTotal(v, w);
    }
    ArrangementUnique(less, a, b);
  }

  lemma BreakdownUnique(a: seq<Item>, b: seq<Item>, counts: map<string, nat>, dimension: string, total: nat, limit: nat)
    requires IsBreakdown(a, counts, dimension, total, limit) && IsBreakdown(b, counts, dimension, total, limit)
    ensures a == b
  {
    var ra :| IsRanking(ra, counts, dimension, total) && a == if |ra| > limit then ra[..limit] else ra;
    var rb :| IsRanking(rb, counts, dimension, total) && b == if |rb| > limit then rb[..limit] else rb;
    RankingUnique(ra, rb, counts, dimension, total);
  }

  /** Every counted value is listed once, with its count and its share. */
  ghost predicate Lists(items: seq<Item>, counts: map<string, nat>, dimension: string, total: nat) {
    && (forall v :: v in counts ==> ItemOf(dimension, v, counts[v], total) in items)
    && (forall x :: x in items ==> x.value in counts && x == ItemOf(dimension, x.value, counts[x.value], total))
    && (forall i, j :: 0 <= i < j < |items| ==> items[i].value != items[j].value)
  }

  lemma RankingLists(ranking: seq<Item>, counts: map<string, nat>, dimension: string, total: nat)
    requires IsRanking(ranking, counts, dimension, total)
    ensures |ranking| == |counts| && Lists(ranking, counts, dimension, total)
  {
    hide Rate, SortedBy;
    ItemSetSize(counts, dimension, total);
    ListOfSet(ranking, ItemSet(counts, dimension, total));
    forall i, j | 0 <= i < j < |ranking| ensures ranking[i].value != ranking[j].value {
      assert ranking[i] != ranking[j] && ranking[i] in ranking && ranking[j] in ranking;
    }
  }

  lemma {:induction false} ItemSetSize(counts: map<string, nat>, dimension: string, total: nat)
    ensures |ItemSet(counts, dimension, total)| == |counts|
    decreases |counts|
  {
    hide Rate;
    if counts == map[] {
      assert ItemSet(counts, dimension, total) == {};
    } else {
      var v :| v in counts;
      var rest := counts - {v};
      ItemSetSize(rest, dimension, total);
      var x := ItemOf(dimension, v, counts[v], total);
      assert counts == rest[v := counts[v]];
      forall y ensures y in ItemSet(counts, dimension, total) <==> y in ItemSet(rest, dimension, total) + {x} {
        if y in ItemSet(rest, dimension, total) {
          var w :| w in rest && y == ItemOf(dimension, w, rest[w], total);
          assert w in counts && counts[w] == rest[w];
        }
      }
      assert x !in ItemSet(rest, dimension, total);
      assert ItemSet(counts, dimension, total) == ItemSet(rest, dimension, total) + {x};
    }
  }

  /** The result has `min(limit, distinct)` items, and every value it leaves out ranks after each it lists. */
  lemma BreakdownIsTop(items: seq<Item>, counts: map<string, nat>, dimension: string, total: nat, limit: nat)
    requires IsBreakdown(items, counts, dimension, total, limit)
    ensures |items| == if |counts| > limit then limit else |counts|
    ensures forall x :: x in items ==> x.value in counts && x == ItemOf(dimension, x.value, counts[x.value], total)
    ensures forall v :: v in counts && ItemOf(dimension, v, counts[v], total) !in items ==>
      forall x :: x in items ==> RanksBefore()(x, ItemOf(dimension, v, counts[v], total))
  {
    var ranking :| IsRanking(ranking, counts, dimension, total)
      && items == if |ranking| > limit then ranking[..limit] else ranking;
    RankingLists(ranking, counts, dimension, total);
    hide Rate, IsBreakdown, RanksBefore, ItemOf, SortedBy;
    var k := |items|;
    assert items == ranking[..k];
    TopOfRanking(ranking, counts, dimension, total, k);
  }

  lemma TopOfRanking(ranking: seq<Item>, counts: map<string, nat>, dimension: string, total: nat, k: nat)
    requires SortedBy(RanksBefore(), ranking) && Lists(ranking, counts, dimension, total) && k <= |ranking|
    ensures forall x :: x in ranking[..k] ==> x.value in counts && x == ItemOf(dimension, x.value, counts[x.value], total)
    ensures forall v :: v in counts && ItemOf(dimension, v, counts[v], total) !in ranking[..k] ==>
      forall x :: x in ranking[..k] ==> RanksBefore()(x, ItemOf(dimension, v, counts[v], total))
  {
    hide Rate, RanksBefore, ItemOf, SortedBy;
    forall v, x | v in counts && ItemOf(dimension, v, counts[v], total) !in ranking[..k] && x in ranking[..k]
      ensures RanksBefore()(x, ItemOf(dimension, v, counts[v], total))
    {
      var j :| 0 <= j < |ranking| && ranking[j] == ItemOf(dimension, v, counts[v], total);
      var i :| 0 <= i < k && ranking[i] == x;
      NotInFront(ranking, k, j);
      EarlierRanksBefore(ranking, counts, dimension, total, i, j);
    }
  }

  lemma NotInFront(s: seq<Item>, k: nat, j: nat)
    requires j < |s| && k <= |s|
    ensures s[j] !in s[..k] ==> j >= k
  {
  }

  lemma EarlierRanksBefore(ranking: seq<Item>, counts: map<string, nat>, dimension: string, total: nat, i: nat, j: nat)
    requires SortedBy(RanksBefore(), ranking) && Lists(ranking, counts, dimension, total) && i < j < |ranking|
    ensures RanksBefore()(ranking[i], ranking[j])
  {
    hide Rate, ItemOf;
    assert !RanksBefore()(ranking[j], ranking[i]);
    assert ranking[i].value != ranking[j].value;
    LessTotal(ranking[i].value, ranking[j].value);
  }

  // ------------------------------------------------------------------ what the answer says

  /** The most frequent values first, among equally frequent ones in the order of their texts, each with how
      often it occurs and its percentage of the events; what is left out occurs less often than everything
      listed, or as often and comes later in that order, and is left out only for the limit. */
  ghost predicate IsTopOf(items: seq<Item>, selected: seq<Observation>, dimension: string, limit: nat) {
    && |items| <= limit
    && (forall i :: 0 <= i < |items| ==>
          && items[i].dimension == dimension && items[i].value != ""
          && items[i].count == |Select(selected, HasValue(dimension, items[i].value))| > 0
          && IsPercentage(items[i].percentage, items[i].count, |selected|))
    && (forall i, j :: 0 <= i < j < |items| ==>
          items[i].count > items[j].count || (items[i].count == items[j].count && Less(items[i].value, items[j].value)))
    && (forall v :: v != "" && Select(selected, HasValue(dimension, v)) != [] ==>
          (exists i :: 0 <= i < |items| && items[i].value == v)
          || (|items| == limit && LeftOut(items, v, |Select(selected, HasValue(dimension, v))|)))
  }

  predicate LeftOut(items: seq<Item>, value: string, count: nat) {
    forall i :: 0 <= i < |items| ==> items[i].count > count || (items[i].count == count && Less(items[i].value, value))
  }

  lemma ItemSays(selected: seq<Observation>, dimension: string, value: string)
    requires value in ValueCounts(selected, dimension)
    ensures var item := ItemOf(dimension, value, ValueCounts(selected, dimension)[value], |selected|);
      && item.dimension == dimension && item.value == value && value != ""
      && item.count == |Select(selected, HasValue(dimension, value))| > 0
      && IsPercentage(item.percentage, item.count, |selected|)
  {
    hide DimensionValue, ValueCounts, Select, Rate, IsPercentage;
    CountsAreOccurrences(selected, dimension, value);
    RateIsAverage(|Select(selected, HasValue(dimension, value))|, |selected|);
  }

  lemma RanksByCount(items: seq<Item>, counts: map<string, nat>, dimension: string, total: nat, limit: nat)
    requires IsBreakdown(items, counts, dimension, total, limit)
    ensures forall i, j :: 0 <= i < j < |items| ==>
      items[i].count > items[j].count || (items[i].count == items[j].count && Less(items[i].value, items[j].value))
  {
    hide Rate, ItemOf, IsRanking;
    var ranking :| IsRanking(ranking, counts, dimension, total)
      && items == if |ranking| > limit then ranking[..limit] else ranking;
    forall i, j | 0 <= i < j < |items|
      ensures items[i].count > items[j].count || (items[i].count == items[j].count && Less(items[i].value, items[j].value))
    {
      RankedInOrder(ranking, counts, dimension, total, i, j);
    }
  }

  lemma RankedInOrder(ranking: seq<Item>, counts: map<string, nat>, dimension: string, total: nat, i: nat, j: nat)
    requires IsRanking(ranking, counts, dimension, total) && i < j < |ranking|
    ensures ranking[i].count > ranking[j].count
      || (ranking[i].count == ranking[j].count && Less(ranking[i].value, ranking[j].value))
  {
    hide Rate, ItemOf, SortedBy, Lists;
    RankingLists(ranking, counts, dimension, total);
    EarlierRanksBefore(ranking, counts, dimension, total, i, j);
  }

  lemma ListedOrLeftOut(items: seq<Item>, counts: map<string, nat>, dimension: string, total: nat, limit: nat, v: string)
    requires IsBreakdown(items, counts, dimension, total, limit) && v in counts
    ensures (exists i :: 0 <= i < |items| && items[i].value == v) || (|items| == limit && LeftOut(items, v, counts[v]))
  {
    BreakdownIsTop(items, counts, dimension, total, limit);
    var item := ItemOf(dimension, v, counts[v], total);
    if item in items {
      var i :| 0 <= i < |items| && items[i] == item;
      assert items[i].value == v;
    } else {
      assert LeftOut(items, v, counts[v]) by {
        forall i | 0 <= i < |items| ensures RanksBefore()(items[i], item) { assert items[i] in items; }
      }
      if |items| == |counts| { AllValuesListed(items, counts, dimension, total, limit, v); }
    }
  }

  lemma AllValuesListed(items: seq<Item>, counts: map<string, nat>, dimension: string, total: nat, limit: nat, v: string)
    requires IsBreakdown(items, counts, dimension, total, limit) && v in counts && |items| == |counts|
    ensures ItemOf(dimension, v, counts[v], total) in items
  {
    hide Rate, ItemOf, IsRanking;
    var ranking :| IsRanking(ranking, counts, dimension, total)
      && items == if |ranking| > limit then ranking[..limit] else ranking;
    RankingLists(ranking, counts, dimension, total);
    assert items == ranking;
  }

  /** Every breakdown says so, in terms of the events it breaks down. */
  lemma BreakdownIsExact(items: seq<Item>, selected: seq<Observation>, dimension: string, limit: nat)
    requires IsBreakdown(items, ValueCounts(selected, dimension), dimension, |selected|, limit)
    ensures IsTopOf(items, selected, dimension, limit)
  {
    var counts, total := ValueCounts(selected, dimension), |selected|;
    hide DimensionValue, ValueCounts, Select, Rate, IsPercentage, IsBreakdown, LeftOut, HasValue, ItemOf, RanksBefore;
    BreakdownIsTop(items, counts, dimension, total, limit);
    RanksByCount(items, counts, dimension, total, limit);
    forall i | 0 <= i < |items|
      ensures items[i].dimension == dimension && items[i].value != ""
      ensures items[i].count == |Select(selected, HasValue(dimension, items[i].value))| > 0
      ensures IsPercentage(items[i].percentage, items[i].count, total)
    {
      assert items[i] in items;
      ItemSays(selected, dimension, items[i].value);
    }
    forall v | v != "" && Select(selected, HasValue(dimension, v)) != []
      ensures (exists i :: 0 <= i < |items| && items[i].value == v)
        || (|items| == limit && LeftOut(items, v, |Select(selected, HasValue(dimension, v))|))
    {
      CountsAreOccurrences(selected, dimension, v);
      ListedOrLeftOut(items, counts, dimension, total, limit, v);
    }
  }

  // ------------------------------------------------------------------ conservation

  function SumCounts(items: seq<Item>): nat {
    if items == [] then 0 else SumCounts(items[..|items| - 1]) + items[|items| - 1].count
  }

  function SumPercentages(items: seq<Item>): real {
    if items == [] then 0.0 else SumPercentages(items[..|items| - 1]) + items[|items| - 1].percentage
  }

  function ValueAmong(dimension: string, items: seq<Item>): Observation -> bool {
    (o: Observation) => exists i :: 0 <= i < |items| && items[i].value == DimensionValue(o, dimension)
  }

  /** Items of different values count different events. */
  lemma {:induction false} ItemsCountEvents(selected: seq<Observation>, dimension: string, items: seq<Item>, total: nat)
    requires forall i :: 0 <= i < |items| ==>
      items[i].value in ValueCounts(selected, dimension)
      && items[i].count == ValueCounts(selected, dimension)[items[i].value]
    requires forall i, j :: 0 <= i < j < |items| ==> items[i].value != items[j].value
    ensures SumCounts(items) == |Select(selected, ValueAmong(dimension, items))|
  {
    hide DimensionValue, Fold, Merge;
    if items == [] {
      SelectNone(selected, ValueAmong(dimension, items));
    } else {
      var front, last := items[..|items| - 1], items[|items| - 1];
      ItemsCountEvents(selected, dimension, front, total);
      CountsAreOccurrences(selected, dimension, last.value);
      var p, q, whole := ValueAmong(dimension, front), HasValue(dimension, last.value), ValueAmong(dimension, items);
      forall o | o in selected ensures (whole(o) <==> p(o) || q(o)) && !(p(o) && q(o)) {
        AmongSplit(dimension, items, o);
      }
      SelectParts(selected, p, q, whole);
    }
  }

  lemma AmongSplit(dimension: string, items: seq<Item>, o: Observation)
    requires items != []
    requires forall i, j :: 0 <= i < j < |items| ==> items[i].value != items[j].value
    ensures var front, last := items[..|items| - 1], items[|items| - 1];
      && (ValueAmong(dimension, items)(o) <==> ValueAmong(dimension, front)(o) || HasValue(dimension, last.value)(o))
      && !(ValueAmong(dimension, front)(o) && HasValue(dimension, last.value)(o))
  {
  }

  lemma SelectParts(events: seq<Observation>, p: Observation -> bool, q: Observation -> bool,
        whole: Observation -> bool)
    requires forall o :: o in events ==> (whole(o) <==> p(o) || q(o)) && !(p(o) && q(o))
    ensures |Select(events, p)| + |Select(events, q)| == |Select(events, whole)|
  {
  }

  lemma ListsConserve(selected: seq<Observation>, dimension: string, items: seq<Item>, total: nat)
    requires Lists(items, ValueCounts(selected, dimension), dimension, total)
    ensures SumCounts(items) + |Select(selected, HasValue(dimension, ""))| == |selected|
  {
    hide DimensionValue, ValueCounts, Select, Rate, Fold;
    forall i | 0 <= i < |items|
      ensures items[i].value in ValueCounts(selected, dimension)
        && items[i].count == ValueCounts(selected, dimension)[items[i].value]
    {
      assert items[i] in items;
    }
    ItemsCountEvents(selected, dimension, items, total);
    hide SumCounts, Lists;
    var all := (o: Observation) => true;
    forall o | o in selected
      ensures (all(o) <==> ValueAmong(dimension, items)(o) || HasValue(dimension, "")(o))
        && !(ValueAmong(dimension, items)(o) && HasValue(dimension, "")(o))
    {
      ListedOrEmpty(selected, dimension, items, total, o);
    }
    hide ValueAmong, HasValue;
    SelectParts(selected, ValueAmong(dimension, items), HasValue(dimension, ""), all);
    SelectAll(selected, all);
  }

  lemma ListedOrEmpty(selected: seq<Observation>, dimension: string, items: seq<Item>, total: nat, o: Observation)
    requires o in selected
    requires Lists(items, ValueCounts(selected, dimension), dimension, total)
    ensures ValueAmong(dimension, items)(o) <==> DimensionValue(o, dimension) != ""
  {
    hide DimensionValue, ValueCounts, Rate;
    var v := DimensionValue(o, dimension);
    if v != "" {
      assert HasValue(dimension, v)(o);
      assert o in Select(selected, HasValue(dimension, v));
      CountsAreOccurrences(selected, dimension, v);
      var x := ItemOf(dimension, v, ValueCounts(selected, dimension)[v], total);
      assert x in items;
      var i :| 0 <= i < |items| && items[i] == x;
      assert items[i].value == v;
    } else {
      forall i | 0 <= i < |items| ensures items[i].value != v {
        assert items[i] in items;
        CountsAreOccurrences(selected, dimension, items[i].value);
      }
    }
  }

  /** Before the limit, the counts add up to all selected events but those without a value. */
  lemma RankingConserves(selected: seq<Observation>, dimension: string, ranking: seq<Item>, total: nat)
    requires IsRanking(ranking, ValueCounts(selected, dimension), dimension, total)
    ensures SumCounts(ranking) + |Select(selected, HasValue(dimension, ""))| == |selected|
  {
    hide *;
    RankingLists(ranking, ValueCounts(selected, dimension), dimension, total);
    ListsConserve(selected, dimension, ranking, total);
  }

  lemma {:induction false} PercentagesAreShares(items: seq<Item>, total: nat)
    requires total > 0
    requires forall i :: 0 <= i < |items| ==> items[i].percentage == Rate(items[i].count, total) * 100.0
    ensures SumPercentages(items) == Rate(SumCounts(items), total) * 100.0
  {
    if items != [] {
      var front, last := items[..|items| - 1], items[|items| - 1];
      PercentagesAreShares(front, total);
      SumOfRates(SumCounts(front), last.count, total);
    }
  }

  lemma SumOfRates(a: nat, b: nat, total: nat)
    requires total > 0
    ensures Rate(a, total) + Rate(b, total) == Rate(a + b, total)
  {
  }

  lemma {:induction false} PrefixSum(items: seq<Item>, n: nat)
    requires n <= |items|
    ensures SumCounts(items[..n]) <= SumCounts(items)
  {
    if n < |items| {
      assert items[..|items| - 1][..n] == items[..n];
      PrefixSum(items[..|items| - 1], n);
    } else {
      assert items[..n] == items;
    }
  }

  /** The exact percentages of a breakdown never exceed 100 together. */
  lemma PercentagesWithinHundred(selected: seq<Observation>, dimension: string, items: seq<Item>, limit: nat)
    requires selected != []
    requires IsBreakdown(items, ValueCounts(selected, dimension), dimension, |selected|, limit)
    ensures SumPercentages(items) <= 100.0
  {
    var counts, total := ValueCounts(selected, dimension), |selected|;
    hide ValueCounts, IsRanking, Select, Rate, SumCounts, SumPercentages;
    var ranking :| IsRanking(ranking, counts, dimension, total)
      && items == if |ranking| > limit then ranking[..limit] else ranking;
    RankingConserves(selected, dimension, ranking, total);
    RankingLists(ranking, counts, dimension, total);
    PrefixSum(ranking, |items|);
    assert ranking[..|items|] == items;
    forall i | 0 <= i < |items| ensures items[i].percentage == Rate(items[i].count, total) * 100.0 {
      assert ranking[i] in ranking;
    }
    hide Lists, HasValue;
    PercentagesAreShares(items, total);
    AtMostHundred(SumCounts(items), total);
  }

  lemma AtMostHundred(part: nat, total: nat)
    requires part <= total && total > 0
    ensures Rate(part, total) * 100.0 <= 100.0
  {
  }

  // ------------------------------------------------------------------ the breakdown from the counters

  function SumAt(s: Counters, inboxID: string, dimension: string, value: string, start: nat, n: nat): nat {
    if n == 0 then 0 else
      SumAt(s, inboxID, dimension, value, start, n - 1)
      + CountAt(s.dims, DimensionKey(start + (n - 1) * MINUTE, inboxID, dimension, value))
  }

  function WithValue(inboxID: string, dimension: string, value: string): Observation -> bool {
    (o: Observation) => o.inboxID == inboxID && DimensionValue(o, dimension) == value
  }

  lemma {:induction false} CountersAddUp(s: Counters, watermark: int, inboxID: string, dimension: string,
        value: string, start: nat, n: nat)
    requires Consistent(s, watermark) && watermark <= start && start % MINUTE == 0 && start + n * MINUTE <= YEAR_10000
    requires '|' !in inboxID && dimension in DIMENSIONS
    ensures SumAt(s, inboxID, dimension, value, start, n)
      == |Select(s.events, InWindow(WithValue(inboxID, dimension, value), start, n))|
  {
    hide DimensionKey, CountAt, Select, DimensionValue;
    var p := WithValue(inboxID, dimension, value);
    if n == 0 {
      SelectNone(s.events, InWindow(p, start, 0));
    } else {
      CountersAddUp(s, watermark, inboxID, dimension, value, start, n - 1);
      var last := start + (n - 1) * MINUTE;
      assert PrintableMinute(last);
      assert CountHolds(s, watermark, last, inboxID, dimension, value);
      hide Consistent, InWindow, InMinute;
      WindowParts(s.events, p, start, n);
      SameMinute(s.events, inboxID, dimension, value, last);
    }
  }

  lemma SameMinute(events: seq<Observation>, inboxID: string, dimension: string, value: string, minute: nat)
    ensures Select(events, OfValue(minute, inboxID, dimension, value))
      == Select(events, InMinute(WithValue(inboxID, dimension, value), minute))
  {
  }

  lemma WindowParts(events: seq<Observation>, p: Observation -> bool, start: int, n: nat)
    requires start % MINUTE == 0 && n > 0 && forall o :: o in events ==> WellFormed(o)
    ensures |Select(events, InWindow(p, start, n))| ==
      |Select(events, InWindow(p, start, n - 1))| + |Select(events, InMinute(p, start + (n - 1) * MINUTE))|
  {
  }

  /** For whole minutes above the watermark, the count of a value before the limit is the sum of its
      dimension counters. */
  lemma BreakdownFromCounters(s: Counters, watermark: int, q: MonitoringQuery, inboxID: string,
        dimension: string, value: string, start: nat, n: nat)
    requires Consistent(s, watermark) && watermark <= start && WholeMinutesOf(q, inboxID, start, n)
    requires '|' !in inboxID && dimension in DIMENSIONS && value != ""
    ensures CountAt(ValueCounts(Select(s.events, Matching(q)), dimension), value)
      == SumAt(s, inboxID, dimension, value, start, n)
  {
    hide DimensionKey, CountAt, Select, DimensionValue, Matches, ValueCounts;
    CountsAreOccurrences(Select(s.events, Matching(q)), dimension, value);
    CountersAddUp(s, watermark, inboxID, dimension, value, start, n);
    forall o | o in s.events
      ensures InWindow(WithValue(inboxID, dimension, value), start, n)(o)
        <==> Matching(q)(o) && HasValue(dimension, value)(o)
    {
      assert Recordable(o);
      WholeMinutesMatch(q, inboxID, start, n, o);
    }
    SelectAgain(s.events, Matching(q), HasValue(dimension, value), InWindow(WithValue(inboxID, dimension, value), start, n));
  }
}

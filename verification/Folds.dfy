/** Folding a list of observations into counters, and how folds combine. */
module Folds {
  import opened Domain
  import opened Histogram

  datatype Aggregate = Aggregate(
    requests: nat, errors: nat, status2xx: nat, status4xx: nat, status5xx: nat, latencySum: nat,
    buckets: Buckets)

  function EmptyAggregate(): Aggregate
  {
    Aggregate(0, 0, 0, 0, 0, 0, EmptyBuckets())
  }

  /** One observation more. */
  function Add(a: Aggregate, o: Observation): Aggregate
  {
    Aggregate(
      a.requests + 1,
      a.errors + if IsError(o) then 1 else 0,
      a.status2xx + if o.statusClass == "2xx" then 1 else 0,
      a.status4xx + if o.statusClass == "4xx" then 1 else 0,
      a.status5xx + if o.statusClass == "5xx" then 1 else 0,
      a.latencySum + o.latencyMs,
      Counted(a.buckets, o.latencyMs))
  }

  function Fold(events: seq<Observation>): Aggregate
  {
    if events == [] then EmptyAggregate()
    else Add(Fold(events[..|events| - 1]), events[|events| - 1])
  }

  function BodyBytes(events: seq<Observation>): nat {
    if events == [] then 0 else BodyBytes(events[..|events| - 1]) + events[|events| - 1].bodySizeBytes
  }

  /** The observations that pass a test, in order. */
  function Select(events: seq<Observation>, keep: Observation -> bool): (kept: seq<Observation>)
    ensures |kept| <= |events|
    ensures forall o :: o in kept <==> o in events && keep(o)
  {
    if events == [] then [] else
      var n := |events| - 1;
      Select(events[..n], keep) + if keep(events[n]) then [events[n]] else []
  }

  function Merge(a: Aggregate, b: Aggregate): Aggregate
  {
    Aggregate(a.requests + b.requests, a.errors + b.errors, a.status2xx + b.status2xx,
      a.status4xx + b.status4xx, a.status5xx + b.status5xx, a.latencySum + b.latencySum,
      Plus(a.buckets, b.buckets))
  }

  // ------------------------------------------------------------------ what a fold is

  function Latencies(events: seq<Observation>): (ls: seq<nat>)
    ensures |ls| == |events|
  {
    seq(|events|, i requires 0 <= i < |events| => events[i].latencyMs)
  }

  /** The buckets of a fold are the histogram of the latencies, and the request count is the length. */
  lemma {:induction false} FoldDescribes(events: seq<Observation>)
    ensures Fold(events).requests == |events|
    ensures Describes(Fold(events).buckets, Latencies(events))
  {
    if events != [] {
      var n := |events| - 1;
      FoldDescribes(events[..n]);
      assert Latencies(events)[..n] == Latencies(events[..n]);
    }
  }

  function Sum(ns: seq<nat>): nat {
    if ns == [] then 0 else Sum(ns[..|ns| - 1]) + ns[|ns| - 1]
  }

  function Sizes(events: seq<Observation>): (sizes: seq<nat>)
    ensures |sizes| == |events|
  {
    seq(|events|, i requires 0 <= i < |events| => events[i].bodySizeBytes)
  }

  function OfClass(statusClass: string): Observation -> bool {
    (o: Observation) => o.statusClass == statusClass
  }

  function Failed(): Observation -> bool {
    (o: Observation) => o.statusClass == "4xx" || o.statusClass == "5xx"
  }

  /** The counters of an aggregate are what their names say of the events. */
  ghost predicate Counts(a: Aggregate, events: seq<Observation>) {
    && a.requests == |events|
    && a.errors == |Select(events, Failed())|
    && a.status2xx == |Select(events, OfClass("2xx"))|
    && a.status4xx == |Select(events, OfClass("4xx"))|
    && a.status5xx == |Select(events, OfClass("5xx"))|
    && a.latencySum == Sum(Latencies(events))
    && Describes(a.buckets, Latencies(events))
  }

  /** Every counter of a fold, for every log. */
  lemma {:induction false} FoldCounts(events: seq<Observation>)
    ensures Counts(Fold(events), events)
  {
    hide Counts, Add;
    if events == [] {
      CountsNothing();
    } else {
      var front, last := events[..|events| - 1], events[|events| - 1];
      FoldCounts(front);
      assert events == front + [last];
      CountsNext(Fold(front), front, last);
    }
  }

  /** What a rollup keeps beside its aggregate is the sum of the body sizes. */
  lemma {:induction false} BodyBytesAreSum(events: seq<Observation>)
    ensures BodyBytes(events) == Sum(Sizes(events))
  {
    if events != [] {
      var n := |events| - 1;
      BodyBytesAreSum(events[..n]);
      assert Sizes(events)[..n] == Sizes(events[..n]);
    }
  }

  lemma CountsNothing()
    ensures Counts(EmptyAggregate(), [])
  {
  }

  lemma CountsNext(a: Aggregate, events: seq<Observation>, o: Observation)
    requires Counts(a, events)
    ensures Counts(Add(a, o), events + [o])
  {
    SelectAppend(events, o, Failed());
    SelectAppend(events, o, OfClass("2xx"));
    SelectAppend(events, o, OfClass("4xx"));
    SelectAppend(events, o, OfClass("5xx"));
    hide Select, CountAtMost;
    LatenciesNext(a.buckets, events, o);
    hide Counted, Describes;
  }

  lemma LatenciesNext(b: Buckets, events: seq<Observation>, o: Observation)
    requires Describes(b, Latencies(events))
    ensures Sum(Latencies(events + [o])) == Sum(Latencies(events)) + o.latencyMs
    ensures Describes(Counted(b, o.latencyMs), Latencies(events + [o]))
  {
    assert Latencies(events + [o])[..|events|] == Latencies(events);
  }

  /** Every observation is of one of the three classes, and the errors are the 4xx and 5xx. */
  lemma {:induction false} FoldClasses(events: seq<Observation>)
    requires forall o :: o in events ==> WellFormed(o)
    ensures Fold(events).requests == Fold(events).status2xx + Fold(events).status4xx + Fold(events).status5xx
    ensures Fold(events).errors == Fold(events).status4xx + Fold(events).status5xx
  {
    if events != [] {
      var n := |events| - 1;
      assert WellFormed(events[n]);
      FoldClasses(events[..n]);
    }
  }

  // ------------------------------------------------------------------ selection

  lemma SelectAppend(events: seq<Observation>, o: Observation, p: Observation -> bool)
    ensures Select(events + [o], p) == Select(events, p) + if p(o) then [o] else []
  {
    assert (events + [o])[..|events|] == events;
  }

  lemma {:induction false} SelectAgain(events: seq<Observation>, p: Observation -> bool, q: Observation -> bool,
        r: Observation -> bool)
    requires forall o :: o in events ==> (r(o) <==> p(o) && q(o))
    ensures Select(Select(events, p), q) == Select(events, r)
  {
    if events != [] {
      var n := |events| - 1;
      var o, front := events[n], events[..n];
      SelectAgain(front, p, q, r);
      assert events == front + [o] && o in events;
      hide Select;
      SelectAppend(front, o, p);
      SelectAppend(front, o, r);
      if p(o) {
        SelectAppend(Select(front, p), o, q);
      } else {
        assert Select(front, p) + [] == Select(front, p);
        assert Select(front, r) + [] == Select(front, r);
      }
    }
  }

  lemma {:induction false} SelectSame(events: seq<Observation>, p: Observation -> bool, q: Observation -> bool)
    requires forall o :: o in events ==> (p(o) <==> q(o))
    ensures Select(events, p) == Select(events, q)
  {
    if events != [] {
      SelectSame(events[..|events| - 1], p, q);
    }
  }

  lemma {:induction false} SelectNone(events: seq<Observation>, p: Observation -> bool)
    requires forall o :: o in events ==> !p(o)
    ensures Select(events, p) == []
  {
    if events != [] { SelectNone(events[..|events| - 1], p); }
  }

  lemma {:induction false} SelectAll(events: seq<Observation>, all: Observation -> bool)
    requires forall o :: o in events ==> all(o)
    ensures Select(events, all) == events
  {
    if events != [] {
      var n := |events| - 1;
      assert events == events[..n] + [events[n]];
      SelectAll(events[..n], all);
      hide Select;
      SelectAppend(events[..n], events[n], all);
    } else {
      assert Select([], all) == [];
    }
  }

  // ------------------------------------------------------------------ folds of parts

  lemma MergeEmpty(a: Aggregate)
    ensures Merge(a, EmptyAggregate()) == a && Merge(EmptyAggregate(), a) == a
  {
    PlusEmpty(a.buckets);
  }

  lemma MergeAdd(a: Aggregate, b: Aggregate, o: Observation)
    ensures Merge(Add(a, o), b) == Add(Merge(a, b), o)
    ensures Merge(a, Add(b, o)) == Add(Merge(a, b), o)
  {
  }

  lemma FoldSelectAppend(events: seq<Observation>, o: Observation, p: Observation -> bool)
    ensures Fold(Select(events + [o], p)) ==
      if p(o) then Add(Fold(Select(events, p)), o) else Fold(Select(events, p))
  {
    SelectAppend(events, o, p);
    var kept := Select(events, p);
    if p(o) {
      assert (kept + [o])[..|kept|] == kept;
    } else {
      assert kept + [] == kept;
    }
  }

  /** Folding two exclusive parts and merging is folding the whole. */
  lemma {:induction false} FoldParts(events: seq<Observation>, p: Observation -> bool, q: Observation -> bool,
        whole: Observation -> bool)
    requires forall o :: o in events ==> (whole(o) <==> p(o) || q(o)) && !(p(o) && q(o))
    ensures Merge(Fold(Select(events, p)), Fold(Select(events, q))) == Fold(Select(events, whole))
  {
    if events == [] {
      MergeEmpty(EmptyAggregate());
    } else {
      hide Select, Fold, Merge, Add;
      var n := |events| - 1;
      var o, front := events[n], events[..n];
      assert events == front + [o] && o in events;
      FoldParts(front, p, q, whole);
      FoldSelectAppend(front, o, p);
      FoldSelectAppend(front, o, q);
      FoldSelectAppend(front, o, whole);
      MergeAdd(Fold(Select(front, p)), Fold(Select(front, q)), o);
    }
  }

  /** Merging a list of aggregates from the left. */
  function MergeAll(parts: seq<Aggregate>): Aggregate
  {
    if parts == [] then EmptyAggregate()
    else Merge(MergeAll(parts[..|parts| - 1]), parts[|parts| - 1])
  }
}

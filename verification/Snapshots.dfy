/** The snapshot of the latest events with which a live stream begins. */
module Snapshots {
  import opened Domain
  import opened Sorting

  datatype LiveEvent = LiveEvent(
    observedAt: nat, inboxID: string, httpMethod: string, path: string, statusCode: int, statusClass: string,
    latencyMs: nat, bodySizeBytes: nat, remoteIP: string, country: string, userAgent: string)

  function ToLive(o: Observation): LiveEvent {
    LiveEvent(o.observedAt, o.inboxID, o.httpMethod, o.path, o.statusCode, o.statusClass, o.latencyMs,
      o.bodySizeBytes, o.remoteIP, o.country, o.userAgent)
  }

  function Newest(): (Observation, Observation) -> bool {
    (a: Observation, b: Observation) => a.observedAt > b.observedAt
  }

  function Oldest(): (Observation, Observation) -> bool {
    (a: Observation, b: Observation) => a.observedAt < b.observedAt
  }

  /** The `limit` newest of the matches: taken from the matches, and no match that is left out is newer than one
      that is listed. */
  ghost predicate HoldsNewest(listed: seq<Observation>, matches: seq<Observation>, limit: nat) {
    && |listed| == (if |matches| > limit then limit else |matches|)
    && multiset(listed) <= multiset(matches)
    && forall x, y :: x in multiset(matches) - multiset(listed) && y in listed ==> x.observedAt <= y.observedAt
  }

  /** The `limit` newest of the matches, oldest first. */
  ghost predicate IsSnapshot(listed: seq<Observation>, matches: seq<Observation>, limit: nat) {
    && HoldsNewest(listed, matches, limit)
    && forall i, j :: 0 <= i < j < |listed| ==> listed[i].observedAt <= listed[j].observedAt
  }

  lemma CutOfSorted(sorted: seq<Observation>, matches: seq<Observation>, limit: nat)
    requires Arranges(Newest(), sorted, matches)
    ensures |sorted| == |matches|
    ensures HoldsNewest(if |sorted| > limit then sorted[..limit] else sorted, matches, limit)
  {
    SameLength(sorted, matches);
    var k := if |sorted| > limit then limit else |sorted|;
    var cut, rest := sorted[..k], sorted[k..];
    assert sorted == cut + rest;
    assert multiset(matches) == multiset(cut) + multiset(rest);
    forall x, y | x in multiset(matches) - multiset(cut) && y in cut ensures x.observedAt <= y.observedAt {
      assert x in multiset(rest);
      CutIsNewer(sorted, k, x, y);
    }
  }

  lemma CutIsNewer(sorted: seq<Observation>, k: nat, x: Observation, y: Observation)
    requires SortedBy(Newest(), sorted) && k <= |sorted| && x in sorted[k..] && y in sorted[..k]
    ensures x.observedAt <= y.observedAt
  {
    var j :| k <= j < |sorted| && sorted[j] == x;
    var i :| 0 <= i < k && sorted[i] == y;
    assert !Newest()(sorted[j], sorted[i]);
  }

  /** Sorting what was cut, oldest first, gives a snapshot, whatever the sort does with equal times. */
  lemma SortedCutIsSnapshot(sorted: seq<Observation>, listed: seq<Observation>, matches: seq<Observation>, limit: nat)
    requires Arranges(Newest(), sorted, matches)
    requires Arranges(Oldest(), listed, if |sorted| > limit then sorted[..limit] else sorted)
    ensures IsSnapshot(listed, matches, limit)
  {
    CutOfSorted(sorted, matches, limit);
    OldestIsAscending(listed);
    hide SortedBy, HoldsNewest, Newest, Oldest;
    SameElements(listed, if |sorted| > limit then sorted[..limit] else sorted, matches, limit);
  }

  /** Which of the matches are listed does not depend on their order. */
  lemma SameElements(a: seq<Observation>, b: seq<Observation>, matches: seq<Observation>, limit: nat)
    requires HoldsNewest(b, matches, limit) && multiset(a) == multiset(b)
    ensures HoldsNewest(a, matches, limit)
  {
    SameLength(a, b);
    forall y | y in a ensures y in b {
      assert y in multiset(a) && y in multiset(b);
    }
  }

  lemma ReversedAscends(sorted: seq<Observation>, k: nat)
    requires SortedBy(Newest(), sorted) && k <= |sorted|
    ensures SortedBy(Oldest(), Reversed(sorted[..k]))
  {
  }

  lemma OldestIsAscending(listed: seq<Observation>)
    ensures SortedBy(Oldest(), listed) <==>
      forall i, j :: 0 <= i < j < |listed| ==> listed[i].observedAt <= listed[j].observedAt
  {
  }

  /** Reading newest first up to the limit and reversing gives a snapshot as well. */
  lemma ReversedCutIsSnapshot(sorted: seq<Observation>, matches: seq<Observation>, limit: nat)
    requires Arranges(Newest(), sorted, matches)
    ensures IsSnapshot(Reversed(if |sorted| > limit then sorted[..limit] else sorted), matches, limit)
  {
    hide Reversed;
    CutOfSorted(sorted, matches, limit);
    if |sorted| > limit {
      ReversedIsSnapshot(sorted, limit, matches, limit);
    } else {
      assert sorted[..|sorted|] == sorted;
      ReversedIsSnapshot(sorted, |sorted|, matches, limit);
    }
  }

  lemma ReversedIsSnapshot(sorted: seq<Observation>, k: nat, matches: seq<Observation>, limit: nat)
    requires SortedBy(Newest(), sorted) && k <= |sorted| && HoldsNewest(sorted[..k], matches, limit)
    ensures IsSnapshot(Reversed(sorted[..k]), matches, limit)
  {
    hide Reversed, SortedBy, HoldsNewest, Newest, Oldest;
    ReversedAscends(sorted, k);
    ReversedKeepsElements(sorted[..k]);
    OldestIsAscending(Reversed(sorted[..k]));
    SameElements(Reversed(sorted[..k]), sorted[..k], matches, limit);
  }

  /** Two events at the same time are the same event. */
  ghost predicate TimesTellApart(matches: seq<Observation>) {
    forall x, y :: x in matches && y in matches && x.observedAt == y.observedAt ==> x == y
  }

  lemma SurplusElement(a: multiset<Observation>, b: multiset<Observation>) returns (x: Observation)
    requires |a| == |b| && a != b
    ensures a[x] > b[x]
  {
    if a <= b { SameSizeSubset(a, b); }
    x :| a[x] > b[x];
  }

  /** When times tell the matches apart there is one snapshot, so the two stores list the same events. */
  lemma SnapshotUnique(a: seq<Observation>, b: seq<Observation>, matches: seq<Observation>, limit: nat)
    requires IsSnapshot(a, matches, limit) && IsSnapshot(b, matches, limit)
    requires TimesTellApart(matches)
    ensures a == b
  {
    if multiset(a) != multiset(b) {
      var x := SurplusElement(multiset(a), multiset(b));
      var y := SurplusElement(multiset(b), multiset(a));
      SurplusIsNoNewer(a, b, matches, limit, x, y);
      SurplusIsNoNewer(b, a, matches, limit, y, x);
    }
    forall x, y | x in a && y in a && x != y ensures Oldest()(x, y) || Oldest()(y, x) {
      assert x in multiset(a) && y in multiset(a);
      assert x in multiset(matches) && y in multiset(matches);
    }
    ArrangementUnique(Oldest(), a, b);
  }

  lemma SurplusIsNoNewer(a: seq<Observation>, b: seq<Observation>, matches: seq<Observation>, limit: nat,
        x: Observation, y: Observation)
    requires IsSnapshot(a, matches, limit) && IsSnapshot(b, matches, limit)
    requires multiset(a)[x] > multiset(b)[x] && multiset(b)[y] > multiset(a)[y]
    ensures x.observedAt <= y.observedAt && x in matches && y in matches
  {
  }

  /** Every match is listed, or the limit is reached and nothing listed is older. */
  lemma ListedOrCut(listed: seq<Observation>, matches: seq<Observation>, limit: nat, x: Observation)
    requires IsSnapshot(listed, matches, limit) && x in matches
    ensures x in listed || (|listed| == limit && forall y :: y in listed ==> x.observedAt <= y.observedAt)
  {
    if x !in listed {
      assert x !in multiset(listed) && x in multiset(matches);
      assert x in multiset(matches) - multiset(listed);
      if |listed| == |matches| { AllListed(listed, matches); }
    }
  }

  lemma AllListed(listed: seq<Observation>, matches: seq<Observation>)
    requires multiset(listed) <= multiset(matches) && |listed| == |matches|
    ensures forall x :: x in matches ==> x in listed
  {
    SameSizeSubset(multiset(listed), multiset(matches));
    forall x | x in matches ensures x in listed {
      assert x in multiset(matches);
    }
  }

  /** A list of which the first and the last `i` elements have been turned around. */
  function TurnedAround(was: seq<Observation>, i: nat): (now: seq<Observation>)
    requires 2 * i <= |was| + 1
    ensures |now| == |was|
  {
    seq(|was|, k requires 0 <= k < |was| => if i <= k < |was| - i then was[k] else was[|was| - 1 - k])
  }

  lemma TurnOneMore(was: seq<Observation>, i: nat)
    requires 2 * i + 1 < |was|
    ensures var now, j := TurnedAround(was, i), |was| - 1 - i;
      && now[i] == was[i] && now[j] == was[j]
      && now[i := now[j]][j := now[i]] == TurnedAround(was, i + 1)
  {
  }

  lemma NoneTurned(was: seq<Observation>)
    ensures TurnedAround(was, 0) == was
  {
  }

  lemma AllTurned(was: seq<Observation>, i: nat)
    requires |was| <= 2 * i + 1 <= |was| + 2
    ensures TurnedAround(was, i) == Reversed(was)
  {
    hide Reversed;
  }

  /** The two-index loop with which the SQL store turns its newest-first rows around. */
  method ReverseInPlace(a: array<Observation>)
    modifies a
    ensures a[..] == Reversed(old(a[..]))
  {
    hide Reversed, TurnedAround;
    ghost var was := a[..];
    NoneTurned(was);
    var i, j := 0, a.Length - 1;
    while i < j
      invariant 0 <= i <= j + 1 && j == a.Length - 1 - i
      invariant a[..] == TurnedAround(was, i)
    {
      TurnOneMore(was, i);
      ghost var before := a[..];
      a[i], a[j] := a[j], a[i];
      assert a[..] == before[i := before[j]][j := before[i]];
      i, j := i + 1, j - 1;
    }
    AllTurned(was, i);
  }
}

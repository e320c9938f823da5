/** Whole runs of recording and retention: what every counter counts, and when the counters agree with the
    log. */
module CounterRuns {
  import opened Time
  import opened Domain
  import opened Folds
  import opened Rollups

  datatype Step = Record(o: Observation) | Retain(cutoff: int)

  predicate Allowed(step: Step) {
    step.Record? ==> Recordable(step.o)
  }

  function Apply(s: Counters, step: Step): Counters {
    match step
    case Record(o) => Recorded(s, o)
    case Retain(cutoff) => Retained(s, cutoff)
  }

  function After(run: seq<Step>): Counters {
    if run == [] then NO_COUNTERS else Apply(After(run[..|run| - 1]), run[|run| - 1])
  }

  /** The largest cutoff so far. */
  function Watermark(run: seq<Step>): int {
    if run == [] then 0 else
      var w := Watermark(run[..|run| - 1]);
      if run[|run| - 1].Retain? then Max(w, run[|run| - 1].cutoff) else w
  }

  lemma NoCountersConsistent()
    ensures Consistent(NO_COUNTERS, 0)
  {
  }

  /** Over every run of recording and retention, the counters agree with the log from the watermark
      on and never exceed it before. */
  lemma {:induction false} RunKeepsConsistent(run: seq<Step>)
    requires forall i :: 0 <= i < |run| ==> Allowed(run[i])
    ensures Consistent(After(run), Watermark(run))
  {
    if run == [] {
      NoCountersConsistent();
    } else {
      var front, last := run[..|run| - 1], run[|run| - 1];
      RunKeepsConsistent(front);
      hide Consistent, Recorded, Retained;
      match last
      case Record(o) => RecordKeepsConsistent(After(front), o, Watermark(front));
      case Retain(cutoff) => RetainKeepsConsistent(After(front), cutoff, Watermark(front));
    }
  }

  // ------------------------------------------------------------------ what every counter counts

  /** The calls that the counters count after a run: each retention forgets those whose minute begins before
      its cutoff. */
  function CountedCalls(run: seq<Step>): seq<Observation> {
    if run == [] then [] else
      var front := CountedCalls(run[..|run| - 1]);
      match run[|run| - 1]
      case Record(o) => front + [o]
      case Retain(cutoff) => Select(front, MinuteFrom(cutoff))
  }

  /** The counters of a run beside the calls that they count. */
  function Counting(run: seq<Step>): Counters {
    After(run).(events := CountedCalls(run))
  }

  lemma CountingStep(front: seq<Step>, last: Step)
    ensures Counting(front + [last]) ==
      match last
      case Record(o) => Recorded(Counting(front), o)
      case Retain(cutoff) => Uncounted(Counting(front), cutoff)
  {
    assert (front + [last])[..|front|] == front;
    hide RollupKey, RollupAt, Grown, KeysOf, BumpedDims, FreshOnly, Select;
  }

  lemma NothingCounted()
    ensures Counting([]) == NO_COUNTERS
  {
  }

  /** Over every run, every rollup and every dimension counter is exactly the fold of the counted calls. */
  lemma {:induction false} CountersAreCounted(run: seq<Step>)
    requires forall i :: 0 <= i < |run| ==> Allowed(run[i])
    ensures Consistent(Counting(run), 0)
  {
    hide Consistent, Recorded, Uncounted, Counting, Recordable;
    if run == [] {
      NoCountersConsistent();
      NothingCounted();
    } else {
      var front, last := run[..|run| - 1], run[|run| - 1];
      CountersAreCounted(front);
      CountingStep(front, last);
      assert run == front + [last];
      match last
      case Record(o) => RecordKeepsConsistent(Counting(front), o, 0);
      case Retain(cutoff) => RetainKeepsCounted(Counting(front), cutoff);
    }
  }

  /** The counters in words: a rollup holds the counts of the counted calls of its minute and inbox, with the sum of
      their body sizes, and a dimension counter holds the number of those with its value. */
  lemma CountersInWords(run: seq<Step>, m: nat, i: string, d: string, v: string)
    requires (forall k :: 0 <= k < |run| ==> Allowed(run[k])) && PrintableMinute(m)
    ensures var rollup, calls := RollupAt(After(run).rollups, RollupKey(m, i)), Select(CountedCalls(run), OfMinute(m, i));
      Counts(rollup.agg, calls) && rollup.bodyBytes == Sum(Sizes(calls))
    ensures '|' !in i && d in DIMENSIONS ==>
      CountAt(After(run).dims, DimensionKey(m, i, d, v)) == |Select(CountedCalls(run), OfValue(m, i, d, v))|
  {
    CountersAreCounted(run);
    var s := Counting(run);
    assert RollupHolds(s, 0, m, i) && ('|' !in i && d in DIMENSIONS ==> CountHolds(s, 0, m, i, d, v));
    hide Consistent, After, CountedCalls, Select, Counts, RollupAt, RollupKey, DimensionKey, CountAt, Fold;
    FoldCounts(Select(CountedCalls(run), OfMinute(m, i)));
    BodyBytesAreSum(Select(CountedCalls(run), OfMinute(m, i)));
  }

  // ------------------------------------------------------------------ positions in a run

  /** The call recorded at `k` is still in the log. */
  predicate LoggedAt(run: seq<Step>, k: int) {
    0 <= k < |run| && run[k].Record?
    && forall j :: k < j < |run| && run[j].Retain? ==> run[j].cutoff <= run[k].o.observedAt
  }

  /** The call recorded at `k` is still counted. */
  predicate CountedAt(run: seq<Step>, k: int) {
    0 <= k < |run| && run[k].Record?
    && forall j :: k < j < |run| && run[j].Retain? ==> run[j].cutoff <= run[k].o.bucketMinute
  }

  lemma PositionsAppend(front: seq<Step>, last: Step, k: int)
    ensures var run := front + [last];
      && (0 <= k < |front| ==>
           (LoggedAt(run, k) <==> LoggedAt(front, k) && (last.Retain? ==> last.cutoff <= front[k].o.observedAt))
           && (CountedAt(run, k) <==> CountedAt(front, k) && (last.Retain? ==> last.cutoff <= front[k].o.bucketMinute)))
      && (k == |front| ==> (LoggedAt(run, k) <==> last.Record?) && (CountedAt(run, k) <==> last.Record?))
  {
    var run := front + [last];
    assert run[|front|] == last;
    if 0 <= k < |front| {
      assert run[k] == front[k];
      assert forall j :: k < j < |front| ==> run[j] == front[j];
    }
  }

  /** What one more step does to membership among the counted calls. */
  lemma CountedAfter(front: seq<Step>, last: Step, o: Observation)
    ensures o in CountedCalls(front + [last]) <==>
      match last
      case Record(o') => o in CountedCalls(front) || o == o'
      case Retain(cutoff) => o in CountedCalls(front) && cutoff <= o.bucketMinute
  {
    assert (front + [last])[..|front|] == front;
    hide Select;
  }

  lemma {:induction false} CountedIff(run: seq<Step>, o: Observation)
    ensures o in CountedCalls(run) <==> exists k :: CountedAt(run, k) && run[k].o == o
  {
    if run == [] {
    } else {
      var front, last := run[..|run| - 1], run[|run| - 1];
      assert run == front + [last];
      CountedIff(front, o);
      CountedAfter(front, last, o);
      hide CountedCalls;
      if k :| CountedAt(run, k) && run[k].o == o {
        PositionsAppend(front, last, k);
      }
      if k :| CountedAt(front, k) && front[k].o == o {
        PositionsAppend(front, last, k);
      }
      PositionsAppend(front, last, |front|);
    }
  }

  lemma CountedIsLogged(run: seq<Step>, k: int)
    requires (forall i :: 0 <= i < |run| ==> Allowed(run[i])) && CountedAt(run, k)
    ensures LoggedAt(run, k) && run[k].o.bucketMinute <= run[k].o.observedAt
  {
    assert Allowed(run[k]) && WellFormed(run[k].o);
  }

  /** Every call that is still in the log and passes the test is still counted. */
  ghost predicate MissesNone(run: seq<Step>, p: Observation -> bool) {
    forall k :: LoggedAt(run, k) && p(run[k].o) ==> CountedAt(run, k)
  }

  lemma {:induction false} SelectNarrower(events: seq<Observation>, p: Observation -> bool, q: Observation -> bool)
    requires forall o :: o in events && p(o) ==> q(o)
    ensures |Select(events, p)| <= |Select(events, q)|
    ensures (exists o :: o in events && q(o) && !p(o)) ==> |Select(events, p)| < |Select(events, q)|
  {
    if events != [] {
      var n := |events| - 1;
      assert events == events[..n] + [events[n]];
      SelectNarrower(events[..n], p, q);
      hide Select;
      SelectAppend(events[..n], events[n], p);
      SelectAppend(events[..n], events[n], q);
    }
  }

  function Both(p: Observation -> bool, q: Observation -> bool): Observation -> bool {
    (o: Observation) => p(o) && q(o)
  }

  /** The retention case: both lists of the longer run are selections from those of the shorter one. */
  lemma ListsAfterRetention(front: seq<Step>, cutoff: int, p: Observation -> bool)
    ensures var run := front + [Retain(cutoff)];
      && Select(CountedCalls(run), p) == Select(CountedCalls(front), Both(p, MinuteFrom(cutoff)))
      && Select(After(run).events, p) == Select(After(front).events, Both(p, Since(cutoff)))
  {
    assert (front + [Retain(cutoff)])[..|front|] == front;
    SelectAgain(CountedCalls(front), MinuteFrom(cutoff), p, Both(p, MinuteFrom(cutoff)));
    SelectAgain(After(front).events, Since(cutoff), p, Both(p, Since(cutoff)));
    hide Select, FreshOnly;
  }

  lemma ListsAfterRecording(front: seq<Step>, o: Observation, p: Observation -> bool)
    ensures var run, more := front + [Record(o)], if p(o) then [o] else [];
      && Select(CountedCalls(run), p) == Select(CountedCalls(front), p) + more
      && Select(After(run).events, p) == Select(After(front).events, p) + more
  {
    assert (front + [Record(o)])[..|front|] == front;
    SelectAppend(CountedCalls(front), o, p);
    SelectAppend(After(front).events, o, p);
    hide Select, RollupKey, KeysOf, BumpedDims, RollupAt, Grown;
  }

  lemma MissesAfterRecording(front: seq<Step>, o: Observation, p: Observation -> bool)
    ensures MissesNone(front + [Record(o)], p) <==> MissesNone(front, p)
  {
    var run := front + [Record(o)];
    forall k: int ensures (LoggedAt(front, k) ==> run[k] == front[k])
      && (LoggedAt(run, k) <==> LoggedAt(front, k) || k == |front|)
      && (CountedAt(run, k) <==> CountedAt(front, k) || k == |front|)
    {
      PositionsAppend(front, Record(o), k);
      if LoggedAt(front, k) { assert run[k] == front[k]; }
    }
    hide LoggedAt, CountedAt;
  }

  /** A retention misses none exactly when the run before missed none of what stays logged, and none of the
      counted calls that stay logged is forgotten. */
  lemma MissesAfterRetention(front: seq<Step>, cutoff: int, p: Observation -> bool)
    requires forall i :: 0 <= i < |front| ==> Allowed(front[i])
    ensures MissesNone(front + [Retain(cutoff)], p) <==>
      && MissesNone(front, Both(p, Since(cutoff)))
      && forall o :: o in CountedCalls(front) && Both(p, Since(cutoff))(o) ==> o.bucketMinute >= cutoff
  {
    var run := front + [Retain(cutoff)];
    forall k: int
      ensures LoggedAt(run, k) <==> LoggedAt(front, k) && cutoff <= front[k].o.observedAt
      ensures CountedAt(run, k) <==> CountedAt(front, k) && cutoff <= front[k].o.bucketMinute
      ensures LoggedAt(front, k) ==> run[k] == front[k]
      ensures CountedAt(front, k) ==> LoggedAt(front, k)
    {
      PositionsAppend(front, Retain(cutoff), k);
      if LoggedAt(front, k) { assert run[k] == front[k]; }
      if CountedAt(front, k) { CountedIsLogged(front, k); }
    }
    forall o: Observation ensures o in CountedCalls(front) <==> exists k :: CountedAt(front, k) && front[k].o == o {
      CountedIff(front, o);
    }
    hide LoggedAt, CountedAt, CountedCalls;
  }

  /** The counted calls that pass a test are those in the log, or fewer when one is missed. */
  lemma {:induction false} CountedAgainstLogged(run: seq<Step>, p: Observation -> bool)
    requires forall i :: 0 <= i < |run| ==> Allowed(run[i])
    ensures MissesNone(run, p) ==> Select(CountedCalls(run), p) == Select(After(run).events, p)
    ensures !MissesNone(run, p) ==> |Select(CountedCalls(run), p)| < |Select(After(run).events, p)|
  {
    hide Select, MissesNone;
    if run == [] {
      assert MissesNone(run, p) by { NothingMissed(p); }
    } else {
      var front, last := run[..|run| - 1], run[|run| - 1];
      assert run == front + [last];
      match last
      case Record(o) =>
        CountedAgainstLogged(front, p);
        ListsAfterRecording(front, o, p);
        MissesAfterRecording(front, o, p);
      case Retain(cutoff) =>
        var counted := CountedCalls(front);
        var narrow, wide := Both(p, MinuteFrom(cutoff)), Both(p, Since(cutoff));
        CountedAgainstLogged(front, wide);
        ListsAfterRetention(front, cutoff, p);
        MissesAfterRetention(front, cutoff, p);
        forall o | o in counted ensures o.bucketMinute <= o.observedAt { CountedIsEarlier(front, o); }
        hide CountedCalls, After;
        SelectNarrower(counted, narrow, wide);
        if forall o :: o in counted && wide(o) ==> o.bucketMinute >= cutoff { SelectSame(counted, narrow, wide); }
    }
  }

  lemma NothingMissed(p: Observation -> bool)
    ensures MissesNone([], p)
  {
  }

  lemma CountedIsEarlier(run: seq<Step>, o: Observation)
    requires (forall i :: 0 <= i < |run| ==> Allowed(run[i])) && o in CountedCalls(run)
    ensures o.bucketMinute <= o.observedAt
  {
    CountedIff(run, o);
    var k :| CountedAt(run, k) && run[k].o == o;
    CountedIsLogged(run, k);
  }

  // ------------------------------------------------------------------ when counters and log agree

  /** No call that is still in the log was straddled by a later cutoff. */
  ghost predicate NoneStraddled(run: seq<Step>) {
    forall k, j :: 0 <= k < j < |run| && LoggedAt(run, k) && run[j].Retain? ==> !Straddles(run[k].o, run[j].cutoff)
  }

  lemma NoneStraddledMeans(run: seq<Step>)
    ensures NoneStraddled(run) <==> MissesNone(run, (o: Observation) => true)
  {
    forall k, j | 0 <= k < j < |run| && LoggedAt(run, k) && run[j].Retain?
      ensures Straddles(run[k].o, run[j].cutoff) <==> !(run[j].cutoff <= run[k].o.bucketMinute)
    {
      assert run[j].cutoff <= run[k].o.observedAt;
    }
  }

  /** A rollup cannot agree with two lists of calls of different lengths. */
  lemma DisagreesWithLonger(s: Counters, longer: seq<Observation>, m: nat, i: string)
    requires RollupAgrees(s, m, i)
    requires |Select(s.events, OfMinute(m, i))| < |Select(longer, OfMinute(m, i))|
    ensures !RollupAgrees(s.(events := longer), m, i)
  {
    FoldDescribes(Select(s.events, OfMinute(m, i)));
    FoldDescribes(Select(longer, OfMinute(m, i)));
    hide Select, Fold, RollupKey, RollupAt;
  }

  lemma MissedCallDisagrees(run: seq<Step>, k: int)
    requires (forall i :: 0 <= i < |run| ==> Allowed(run[i])) && LoggedAt(run, k) && !CountedAt(run, k)
    ensures !Consistent(After(run), 0)
  {
    var o := run[k].o;
    var m, i := o.bucketMinute, o.inboxID;
    assert Allowed(run[k]) && PrintableMinute(m);
    hide Allowed, Consistent, After, CountedCalls, Select, RollupAgrees, LoggedAt, CountedAt, PrintableMinute;
    assert !MissesNone(run, OfMinute(m, i));
    CountedAgainstLogged(run, OfMinute(m, i));
    CountersAreCounted(run);
    AgreesInMinute(Counting(run), m, i);
    AgreesInMinute(After(run), m, i);
    DisagreesWithLonger(Counting(run), After(run).events, m, i);
    assert Counting(run).(events := After(run).events) == After(run);
  }

  /** Over every run, log and counters agree everywhere exactly when no call that is still in the log was
      straddled by a later cutoff. */
  lemma RunAgreesIff(run: seq<Step>)
    requires forall i :: 0 <= i < |run| ==> Allowed(run[i])
    ensures Consistent(After(run), 0) <==> NoneStraddled(run)
  {
    hide Consistent, NoneStraddled, LoggedAt, CountedAt;
    var all := (o: Observation) => true;
    NoneStraddledMeans(run);
    if MissesNone(run, all) {
      CountedAgainstLogged(run, all);
      SelectAll(CountedCalls(run), all);
      SelectAll(After(run).events, all);
      CountersAreCounted(run);
      assert Counting(run) == After(run) by { hide After, CountedCalls; }
    } else {
      var k :| LoggedAt(run, k) && !CountedAt(run, k);
      MissedCallDisagrees(run, k);
    }
  }

  /** No earlier retention reached beyond the latest one, as when the clock does not go back and the
      default retention does not change. */
  predicate LastCutIsHighest(run: seq<Step>) {
    if run == [] then true
    else match run[|run| - 1]
      case Record(_) => LastCutIsHighest(run[..|run| - 1])
      case Retain(cutoff) => forall k :: 0 <= k < |run| && run[k].Retain? ==> run[k].cutoff <= cutoff
  }

  /** Nothing that was recorded before the latest retention straddles its cutoff. */
  predicate LastCutIsClean(run: seq<Step>) {
    if run == [] then true
    else match run[|run| - 1]
      case Record(_) => LastCutIsClean(run[..|run| - 1])
      case Retain(cutoff) => forall k :: 0 <= k < |run| && run[k].Record? ==> !Straddles(run[k].o, cutoff)
  }

  /** The latest retention run is on a whole minute. */
  predicate EndsAligned(run: seq<Step>) {
    if run == [] then true
    else match run[|run| - 1]
      case Record(_) => EndsAligned(run[..|run| - 1])
      case Retain(cutoff) => cutoff % MINUTE == 0
  }

  /** Where no earlier retention reached beyond the latest one, that one alone decides. */
  lemma {:induction false} LatestCutDecides(run: seq<Step>)
    requires LastCutIsHighest(run)
    ensures NoneStraddled(run) <==> LastCutIsClean(run)
  {
    if run == [] {
    } else {
      var front, last := run[..|run| - 1], run[|run| - 1];
      assert run == front + [last];
      if last.Record? {
        LatestCutDecides(front);
        NoneStraddledMeans(run);
        NoneStraddledMeans(front);
        MissesAfterRecording(front, last.o, (o: Observation) => true);
      } else {
        HighestCutDecides(front, last.cutoff);
      }
      hide NoneStraddled, MissesNone;
    }
  }

  lemma HighestCutDecides(front: seq<Step>, cutoff: int)
    requires forall k :: 0 <= k < |front| && front[k].Retain? ==> front[k].cutoff <= cutoff
    ensures NoneStraddled(front + [Retain(cutoff)]) <==> LastCutIsClean(front + [Retain(cutoff)])
  {
    var run := front + [Retain(cutoff)];
    assert run[|front|] == Retain(cutoff);
    forall j | 0 <= j < |run| && run[j].Retain? ensures run[j].cutoff <= cutoff {
      if j < |front| { assert run[j] == front[j]; }
    }
    forall k | 0 <= k < |front| && run[k].Record? && Straddles(run[k].o, cutoff) ensures !NoneStraddled(run) {
      assert LoggedAt(run, k);
    }
    forall k, j | 0 <= k < j < |run| && LoggedAt(run, k) && run[j].Retain? && Straddles(run[k].o, run[j].cutoff)
      ensures Straddles(run[k].o, cutoff)
    {
      assert run[|front|].cutoff <= run[k].o.observedAt;
    }
  }

  /** When the latest cutoff is the highest and lies on a whole minute, they agree everywhere. */
  lemma AlignedRunAgreesEverywhere(run: seq<Step>)
    requires (forall i :: 0 <= i < |run| ==> Allowed(run[i])) && LastCutIsHighest(run) && EndsAligned(run)
    ensures Consistent(After(run), 0)
  {
    RunAgreesIff(run);
    LatestCutDecides(run);
    AlignedCutIsClean(run);
    hide Consistent, After, NoneStraddled, LastCutIsClean;
  }

  lemma {:induction false} AlignedCutIsClean(run: seq<Step>)
    requires (forall i :: 0 <= i < |run| ==> Allowed(run[i])) && EndsAligned(run)
    ensures LastCutIsClean(run)
  {
    if run != [] {
      var last := run[|run| - 1];
      if last.Record? {
        AlignedCutIsClean(run[..|run| - 1]);
      } else {
        forall k | 0 <= k < |run| && run[k].Record? ensures !Straddles(run[k].o, last.cutoff) {
          assert Allowed(run[k]) && WellFormed(run[k].o);
        }
      }
    }
  }

  /** From agreement to disagreement and back: one call, a retention whose cutoff falls between the start
      of its minute and the call, and any later retention that the call does not straddle. */
  lemma StrayEventDisagrees(o: Observation, cutoff: int, later: int)
    requires Recordable(o) && Straddles(o, cutoff) && cutoff <= later && !Straddles(o, later)
    ensures Consistent(After([Record(o)]), 0)
    ensures !Consistent(After([Record(o), Retain(cutoff)]), 0)
    ensures Consistent(After([Record(o), Retain(cutoff), Retain(later)]), 0)
  {
    hide Consistent, After, Recordable;
    var a, b, c := Record(o), Retain(cutoff), Retain(later);
    RunAgreesIff([a]);
    RunAgreesIff([a, b]);
    RunAgreesIff([a, b, c]);
    assert LoggedAt([a, b], 0) && [a, b][1] == b;
    assert [a, b, c][0] == a && [a, b, c][1] == b && [a, b, c][2] == c;
    assert LoggedAt([a, b, c], 0) ==> later <= o.observedAt;
  }

  /** An overlapping retention with an older clock reading does not heal, although the call does not straddle
      its cutoff. */
  lemma OlderCutoffDoesNotHeal(o: Observation, cutoff: int, older: int)
    requires Recordable(o) && Straddles(o, cutoff) && older <= o.bucketMinute
    ensures LastCutIsClean([Record(o), Retain(cutoff), Retain(older)])
    ensures !Consistent(After([Record(o), Retain(cutoff), Retain(older)]), 0)
  {
    hide Consistent, After, Recordable;
    var a, b, c := Record(o), Retain(cutoff), Retain(older);
    RunAgreesIff([a, b, c]);
    assert [a, b, c][0] == a && [a, b, c][1] == b && [a, b, c][2] == c;
    assert LoggedAt([a, b, c], 0);
  }

  /** The failure at an input: a call at time 1, retention at cutoff 1, and a cutoff of one minute and one
      nanosecond that heals although it is off the minute as well. */
  lemma StrayEventExample() returns (o: Observation)
    ensures Recordable(o) && o.observedAt == 1
    ensures Consistent(After([Record(o)]), 0)
    ensures !Consistent(After([Record(o), Retain(1)]), 0)
    ensures Consistent(After([Record(o), Retain(1), Retain(MINUTE + 1)]), 0)
  {
    hide Consistent, After;
    o := Observation(1, 0, "", "POST", "/hook/t", 204, "2xx", 3, 2, true, "ip", "agent", "BR", "text/plain", "");
    StrayEventDisagrees(o, 1, MINUTE + 1);
  }
}

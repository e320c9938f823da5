/** The event log of the store and the two counter maps it keeps beside it, as values: what recording
    and retention do to them, and when the counters agree with the log. */
module Rollups {
  import opened Text
  import opened Time
  import opened Domain
  import opened Histogram
  import opened Folds

  datatype Rollup = Rollup(agg: Aggregate, bodyBytes: nat)

  datatype Counters = Counters(events: seq<Observation>, rollups: map<string, Rollup>, dims: map<string, nat>)

  const NO_COUNTERS := Counters([], map[], map[])
  const EMPTY_ROLLUP := Rollup(EmptyAggregate(), 0)

  // ------------------------------------------------------------------ keys

  function RollupKey(minute: nat, inboxID: string): string {
    Rfc3339(minute) + "|" + inboxID
  }

  function DimensionKey(minute: nat, inboxID: string, dimension: string, value: string): string {
    Rfc3339(minute) + "|" + (inboxID + "|" + (dimension + "|" + value))
  }

  lemma RollupKeyParts(minute: nat, inboxID: string)
    ensures RollupKey(minute, inboxID) == Rfc3339(minute) + "|" + inboxID
  {
    hide Rfc3339;
  }

  lemma DimensionKeyParts(minute: nat, inboxID: string, dimension: string, value: string)
    ensures DimensionKey(minute, inboxID, dimension, value)
      == Rfc3339(minute) + "|" + (inboxID + "|" + (dimension + "|" + value))
  {
    hide Rfc3339;
  }

  predicate PrintableMinute(m: int) {
    0 <= m < YEAR_10000 && m % MINUTE == 0
  }

  lemma PrintedMinutes(m: nat, m': nat)
    requires PrintableMinute(m) && PrintableMinute(m')
    ensures '|' !in Rfc3339(m) && '|' !in Rfc3339(m')
    ensures Rfc3339(m) == Rfc3339(m') <==> m == m'
  {
    hide Rfc3339;
    WholeMinuteIsWholeSecond(m);
    WholeMinuteIsWholeSecond(m');
    hide PrintableMinute;
    PrintedHasNoBar(m);
    PrintedHasNoBar(m');
    PrintInjective(m, m');
  }

  lemma WholeMinuteIsWholeSecond(m: nat)
    requires PrintableMinute(m)
    ensures m < YEAR_10000 && m % SECOND == 0
  {
    assert m == (60 * (m / MINUTE)) * SECOND;
  }

  /** A rollup key determines the minute and the inbox. */
  lemma RollupKeyInjective(m: nat, inboxID: string, m': nat, inboxID': string)
    requires PrintableMinute(m) && PrintableMinute(m')
    ensures RollupKey(m, inboxID) == RollupKey(m', inboxID') <==> m == m' && inboxID == inboxID'
  {
    hide Rfc3339, RollupKey, PrintableMinute;
    RollupKeyParts(m, inboxID);
    RollupKeyParts(m', inboxID');
    PrintedMinutes(m, m');
    if RollupKey(m, inboxID) == RollupKey(m', inboxID') {
      SplitUnique(Rfc3339(m), inboxID, Rfc3339(m'), inboxID');
    }
  }

  lemma DimensionHasNoBar(dim: string)
    requires dim in DIMENSIONS
    ensures '|' !in dim
  {
  }

  /** A dimension key determines its four parts, even when the value holds the separator. */
  lemma DimensionKeyInjective(m: nat, inboxID: string, dim: string, value: string, m': nat, inboxID': string,
        dim': string, value': string)
    requires PrintableMinute(m) && PrintableMinute(m')
    requires '|' !in inboxID && '|' !in inboxID' && dim in DIMENSIONS && dim' in DIMENSIONS
    ensures DimensionKey(m, inboxID, dim, value) == DimensionKey(m', inboxID', dim', value')
      <==> m == m' && inboxID == inboxID' && dim == dim' && value == value'
  {
    hide Rfc3339, DimensionKey, PrintableMinute;
    DimensionKeyParts(m, inboxID, dim, value);
    DimensionKeyParts(m', inboxID', dim', value');
    PrintedMinutes(m, m');
    DimensionHasNoBar(dim);
    DimensionHasNoBar(dim');
    var rest, rest' := inboxID + "|" + (dim + "|" + value), inboxID' + "|" + (dim' + "|" + value');
    if DimensionKey(m, inboxID, dim, value) == DimensionKey(m', inboxID', dim', value') {
      SplitUnique(Rfc3339(m), rest, Rfc3339(m'), rest');
      SplitUnique(inboxID, dim + "|" + value, inboxID', dim' + "|" + value');
      SplitUnique(dim, value, dim', value');
    }
  }

  /** With the separator in an inbox ID two different counters would share a key.  The service never uses
      such an ID: its inbox IDs are ULIDs, or empty when a token is not resolved. */
  lemma DimensionKeyCollides(m: nat)
    ensures DimensionKey(m, "a", "path", "b|ip|c") == DimensionKey(m, "a|path|b", "ip", "c")
  {
    hide Rfc3339, DimensionKey;
    DimensionKeyParts(m, "a", "path", "b|ip|c");
    DimensionKeyParts(m, "a|path|b", "ip", "c");
    assert "a" + "|" + ("path" + "|" + "b|ip|c") == "a|path|b" + "|" + ("ip" + "|" + "c");
  }

  /** One observation bumps six different keys, whatever its inbox ID is. */
  lemma DimensionKeysDistinct(m: nat, inboxID: string, dim: string, value: string, dim': string, value': string)
    requires dim in DIMENSIONS && dim' in DIMENSIONS && dim != dim'
    ensures DimensionKey(m, inboxID, dim, value) != DimensionKey(m, inboxID, dim', value')
  {
    hide Rfc3339;
    DimensionHasNoBar(dim);
    DimensionHasNoBar(dim');
    if DimensionKey(m, inboxID, dim, value) == DimensionKey(m, inboxID, dim', value') {
      var n := |Rfc3339(m)| + 1 + |inboxID| + 1;
      assert DimensionKey(m, inboxID, dim, value)[n..] == dim + "|" + value;
      assert DimensionKey(m, inboxID, dim', value')[n..] == dim' + "|" + value';
      SplitUnique(dim, value, dim', value');
      assert false;
    }
  }

  // ------------------------------------------------------------------ the two operations

  function KeyOf(o: Observation, dimension: string): string {
    DimensionKey(o.bucketMinute, o.inboxID, dimension, DimensionValue(o, dimension))
  }

  function KeysOf(o: Observation): set<string> {
    set d | d in DIMENSIONS :: KeyOf(o, d)
  }

  function CountAt(dims: map<string, nat>, key: string): nat {
    if key in dims then dims[key] else 0
  }

  function RollupAt(rollups: map<string, Rollup>, key: string): Rollup {
    if key in rollups then rollups[key] else EMPTY_ROLLUP
  }

  function Grown(r: Rollup, o: Observation): Rollup {
    Rollup(Add(r.agg, o), r.bodyBytes + o.bodySizeBytes)
  }

  function BumpedDims(dims: map<string, nat>, keys: set<string>): map<string, nat> {
    map k | k in dims.Keys + keys :: CountAt(dims, k) + if k in keys then 1 else 0
  }

  /** Recording appends to the log and bumps one rollup and six dimension counters. */
  function Recorded(s: Counters, o: Observation): Counters {
    var key := RollupKey(o.bucketMinute, o.inboxID);
    Counters(
      s.events + [o],
      s.rollups[key := Grown(RollupAt(s.rollups, key), o)],
      BumpedDims(s.dims, KeysOf(o)))
  }

  /** A counter is dropped when its minute does not parse or lies before the cutoff. */
  predicate IsStale(key: string, cutoff: int) {
    match Parse(FirstPiece(key))
    case Malformed => true
    case Instant(t) => t < cutoff
  }

  function Since(cutoff: int): Observation -> bool {
    (o: Observation) => o.observedAt >= cutoff
  }

  function FreshOnly<V>(counters: map<string, V>, cutoff: int): map<string, V> {
    map k | k in counters && !IsStale(k, cutoff) :: counters[k]
  }

  function Retained(s: Counters, cutoff: int): Counters {
    Counters(Select(s.events, Since(cutoff)), FreshOnly(s.rollups, cutoff), FreshOnly(s.dims, cutoff))
  }

  /** The minute that retention reads back from a key is the one that was printed into it. */
  lemma StaleKeys(minute: nat, inboxID: string, dimension: string, value: string, cutoff: int)
    requires PrintableMinute(minute)
    ensures IsStale(RollupKey(minute, inboxID), cutoff) <==> minute < cutoff
    ensures IsStale(DimensionKey(minute, inboxID, dimension, value), cutoff) <==> minute < cutoff
  {
    hide Rfc3339, Parse, FirstPiece;
    PrintedHasNoBar(minute);
    FirstPieceOf(Rfc3339(minute), inboxID);
    FirstPieceOf(Rfc3339(minute), inboxID + "|" + (dimension + "|" + value));
    ParsePrinted(minute);
  }

  /** A counter of year 10000 or later is dropped by any retention, whatever the cutoff. */
  lemma LateKeysAlwaysStale(minute: nat, inboxID: string, dimension: string, value: string, cutoff: int)
    requires minute >= YEAR_10000
    ensures IsStale(RollupKey(minute, inboxID), cutoff)
    ensures IsStale(DimensionKey(minute, inboxID, dimension, value), cutoff)
  {
    hide Rfc3339, Parse, FirstPiece;
    PrintedHasNoBar(minute);
    FirstPieceOf(Rfc3339(minute), inboxID);
    FirstPieceOf(Rfc3339(minute), inboxID + "|" + (dimension + "|" + value));
    ParsePrinted(minute);
  }

  // ------------------------------------------------------------------ agreement with the log

  function OfMinute(minute: nat, inboxID: string): Observation -> bool {
    (o: Observation) => o.bucketMinute == minute && o.inboxID == inboxID
  }

  function OfValue(minute: nat, inboxID: string, dimension: string, value: string): Observation -> bool {
    (o: Observation) => o.bucketMinute == minute && o.inboxID == inboxID && DimensionValue(o, dimension) == value
  }

  function FoldedRollup(events: seq<Observation>): Rollup {
    Rollup(Fold(events), BodyBytes(events))
  }

  function LoggedRollup(s: Counters, minute: nat, inboxID: string): Rollup {
    FoldedRollup(Select(s.events, OfMinute(minute, inboxID)))
  }

  function LoggedCount(s: Counters, minute: nat, inboxID: string, dimension: string, value: string): nat {
    |Select(s.events, OfValue(minute, inboxID, dimension, value))|
  }

  predicate RollupAgrees(s: Counters, minute: nat, inboxID: string) {
    RollupAt(s.rollups, RollupKey(minute, inboxID)) == LoggedRollup(s, minute, inboxID)
  }

  predicate CountAgrees(s: Counters, minute: nat, inboxID: string, dimension: string, value: string) {
    CountAt(s.dims, DimensionKey(minute, inboxID, dimension, value)) == LoggedCount(s, minute, inboxID, dimension, value)
  }

  /** No field of `a`, no bucket included, exceeds the one of `b`. */
  predicate AtMost(a: Rollup, b: Rollup) {
    && a.agg.requests <= b.agg.requests && a.agg.errors <= b.agg.errors
    && a.agg.status2xx <= b.agg.status2xx && a.agg.status4xx <= b.agg.status4xx && a.agg.status5xx <= b.agg.status5xx
    && a.agg.latencySum <= b.agg.latencySum && a.bodyBytes <= b.bodyBytes
    && forall i :: 0 <= i < |BOUNDS| ==> a.agg.buckets[i] <= b.agg.buckets[i]
  }

  predicate RollupBelow(s: Counters, minute: nat, inboxID: string) {
    AtMost(RollupAt(s.rollups, RollupKey(minute, inboxID)), LoggedRollup(s, minute, inboxID))
  }

  predicate CountBelow(s: Counters, minute: nat, inboxID: string, dimension: string, value: string) {
    CountAt(s.dims, DimensionKey(minute, inboxID, dimension, value)) <= LoggedCount(s, minute, inboxID, dimension, value)
  }

  /** From the watermark on a counter agrees with the log, and before it does not exceed it. */
  predicate RollupHolds(s: Counters, watermark: int, m: nat, i: string) {
    if m >= watermark then RollupAgrees(s, m, i) else RollupBelow(s, m, i)
  }

  predicate CountHolds(s: Counters, watermark: int, m: nat, i: string, d: string, v: string) {
    if m >= watermark then CountAgrees(s, m, i, d, v) else CountBelow(s, m, i, d, v)
  }

  /** What may be recorded: an observation of the service, up to year 9999, from an inbox whose ID
      does not hold the separator. */
  predicate Recordable(o: Observation) {
    WellFormed(o) && o.observedAt < YEAR_10000 && '|' !in o.inboxID
  }

  /** Both counter maps agree with the log from the watermark on, and never exceed it before. */
  ghost predicate Consistent(s: Counters, watermark: int) {
    && (forall o :: o in s.events ==> Recordable(o))
    && (forall m: nat, i :: PrintableMinute(m) ==> RollupHolds(s, watermark, m, i))
    && (forall m: nat, i, d, v :: PrintableMinute(m) && '|' !in i && d in DIMENSIONS ==>
          CountHolds(s, watermark, m, i, d, v))
  }

  lemma AgreesInMinute(s: Counters, m: nat, i: string)
    requires PrintableMinute(m)
    ensures Consistent(s, 0) ==> RollupAgrees(s, m, i)
  {
    hide RollupAgrees, RollupBelow, CountHolds;
    if Consistent(s, 0) { assert RollupHolds(s, 0, m, i); }
  }

  // ------------------------------------------------------------------ recording keeps agreement

  lemma FoldedAppend(events: seq<Observation>, o: Observation)
    ensures FoldedRollup(events + [o]) == Grown(FoldedRollup(events), o)
  {
    assert (events + [o])[..|events|] == events;
  }

  lemma RecordedRollup(s: Counters, o: Observation, m: nat, i: string)
    requires PrintableMinute(m) && PrintableMinute(o.bucketMinute)
    ensures var s' := Recorded(s, o);
      var before, after := RollupAt(s.rollups, RollupKey(m, i)), RollupAt(s'.rollups, RollupKey(m, i));
      if OfMinute(m, i)(o) then
        after == Grown(before, o) && LoggedRollup(s', m, i) == Grown(LoggedRollup(s, m, i), o)
      else
        after == before && LoggedRollup(s', m, i) == LoggedRollup(s, m, i)
  {
    var p := OfMinute(m, i);
    SelectAppend(s.events, o, p);
    if p(o) {
      FoldedAppend(Select(s.events, p), o);
    } else {
      assert Select(s.events, p) + [] == Select(s.events, p);
      RollupKeyInjective(m, i, o.bucketMinute, o.inboxID);
    }
  }

  lemma RecordedCount(s: Counters, o: Observation, m: nat, i: string, d: string, v: string)
    requires PrintableMinute(m) && Recordable(o) && '|' !in i && d in DIMENSIONS
    ensures var s' := Recorded(s, o);
      var key, one := DimensionKey(m, i, d, v), if OfValue(m, i, d, v)(o) then 1 else 0;
      && CountAt(s'.dims, key) == CountAt(s.dims, key) + one
      && LoggedCount(s', m, i, d, v) == LoggedCount(s, m, i, d, v) + one
  {
    hide DimensionKey, Select, DimensionValue;
    SelectAppend(s.events, o, OfValue(m, i, d, v));
    BumpedKeys(o, m, i, d, v);
  }

  lemma BumpedKeys(o: Observation, m: nat, i: string, d: string, v: string)
    requires PrintableMinute(m) && Recordable(o) && '|' !in i && d in DIMENSIONS
    ensures DimensionKey(m, i, d, v) in KeysOf(o) <==> OfValue(m, i, d, v)(o)
  {
    hide DimensionKey, DimensionValue;
    var key := DimensionKey(m, i, d, v);
    if OfValue(m, i, d, v)(o) {
      assert KeyOf(o, d) == key;
    }
    if key in KeysOf(o) {
      var d' :| d' in DIMENSIONS && KeyOf(o, d') == key;
      DimensionKeyInjective(m, i, d, v, o.bucketMinute, o.inboxID, d', DimensionValue(o, d'));
    }
  }

  lemma GrownKeepsAtMost(a: Rollup, b: Rollup, o: Observation)
    requires AtMost(a, b)
    ensures AtMost(Grown(a, o), Grown(b, o))
  {
  }

  lemma RecordKeepsRollup(s: Counters, o: Observation, watermark: int, m: nat, i: string)
    requires PrintableMinute(m) && PrintableMinute(o.bucketMinute)
    requires RollupHolds(s, watermark, m, i)
    ensures RollupHolds(Recorded(s, o), watermark, m, i)
  {
    hide Recorded, RollupAt, LoggedRollup, RollupKey, Grown, AtMost;
    RecordedRollup(s, o, m, i);
    if m < watermark && OfMinute(m, i)(o) {
      GrownKeepsAtMost(RollupAt(s.rollups, RollupKey(m, i)), LoggedRollup(s, m, i), o);
    }
  }

  lemma RecordKeepsCount(s: Counters, o: Observation, watermark: int, m: nat, i: string, d: string, v: string)
    requires PrintableMinute(m) && Recordable(o) && '|' !in i && d in DIMENSIONS
    requires CountHolds(s, watermark, m, i, d, v)
    ensures CountHolds(Recorded(s, o), watermark, m, i, d, v)
  {
    hide Recorded, LoggedCount, DimensionKey, DimensionValue;
    RecordedCount(s, o, m, i, d, v);
  }

  lemma EventsRecorded(s: Counters, o: Observation)
    ensures Recorded(s, o).events == s.events + [o]
  {
    hide RollupKey, KeysOf, BumpedDims, Grown;
  }

  lemma RecordKeepsConsistent(s: Counters, o: Observation, watermark: int)
    requires Consistent(s, watermark) && Recordable(o)
    ensures Consistent(Recorded(s, o), watermark)
  {
    hide RollupHolds, CountHolds, Recorded;
    var s' := Recorded(s, o);
    EventsRecorded(s, o);
    assert PrintableMinute(o.bucketMinute);
    hide Recordable, PrintableMinute;
    forall m: nat, i | PrintableMinute(m)
      ensures RollupHolds(s', watermark, m, i)
    {
      assert RollupHolds(s, watermark, m, i);
      RecordKeepsRollup(s, o, watermark, m, i);
    }
    forall m: nat, i, d, v | PrintableMinute(m) && '|' !in i && d in DIMENSIONS
      ensures CountHolds(s', watermark, m, i, d, v)
    {
      assert CountHolds(s, watermark, m, i, d, v);
      RecordKeepsCount(s, o, watermark, m, i, d, v);
    }
  }

  // ------------------------------------------------------------------ retention keeps agreement

  /** What retention does to one rollup and to the log it stands for. */
  lemma RetainedRollup(s: Counters, cutoff: int, m: nat, i: string)
    requires PrintableMinute(m)
    ensures var s' := Retained(s, cutoff);
      RollupAt(s'.rollups, RollupKey(m, i)) ==
        if m < cutoff then EMPTY_ROLLUP else RollupAt(s.rollups, RollupKey(m, i))
  {
    hide RollupKey, IsStale;
    StaleKeys(m, i, "", "", cutoff);
  }

  lemma RetainedCount(s: Counters, cutoff: int, m: nat, i: string, d: string, v: string)
    requires PrintableMinute(m)
    ensures var s' := Retained(s, cutoff);
      CountAt(s'.dims, DimensionKey(m, i, d, v)) == if m < cutoff then 0 else CountAt(s.dims, DimensionKey(m, i, d, v))
  {
    hide DimensionKey, IsStale;
    StaleKeys(m, i, d, v, cutoff);
  }

  /** From the cutoff on, the log of a minute is untouched; a minute that ends by the cutoff is emptied. */
  lemma RetainedLog(s: Counters, cutoff: int, m: nat, p: Observation -> bool)
    requires forall o :: o in s.events ==> WellFormed(o) && (p(o) ==> o.bucketMinute == m)
    ensures m >= cutoff ==> Select(Retained(s, cutoff).events, p) == Select(s.events, p)
    ensures m + MINUTE <= cutoff ==> Select(Retained(s, cutoff).events, p) == []
  {
    var keep := Since(cutoff);
    if m >= cutoff {
      SelectAgain(s.events, keep, p, p);
    } else if m + MINUTE <= cutoff {
      SelectNone(Select(s.events, keep), p);
    }
  }

  /** A rollup that retention dropped is empty, so it cannot exceed the log. */
  lemma EmptyAtMost(r: Rollup)
    ensures AtMost(EMPTY_ROLLUP, r)
  {
  }

  lemma RetainKeepsRollup(s: Counters, cutoff: int, watermark: int, m: nat, i: string)
    requires PrintableMinute(m)
    requires forall o :: o in s.events ==> WellFormed(o)
    requires RollupHolds(s, watermark, m, i)
    ensures m >= watermark && m >= cutoff ==> RollupAgrees(Retained(s, cutoff), m, i)
    ensures RollupBelow(Retained(s, cutoff), m, i)
    ensures m + MINUTE <= cutoff ==> RollupAgrees(Retained(s, cutoff), m, i)
  {
    hide Retained, RollupKey, RollupAt, Select, Fold, BodyBytes, AtMost;
    RetainedRollup(s, cutoff, m, i);
    RetainedLog(s, cutoff, m, OfMinute(m, i));
    EmptyAtMost(LoggedRollup(Retained(s, cutoff), m, i));
    AtMostSelf(LoggedRollup(s, m, i));
    assert m + MINUTE <= cutoff ==> LoggedRollup(Retained(s, cutoff), m, i) == EMPTY_ROLLUP by { NothingFolded(); }
  }

  lemma RetainKeepsCount(s: Counters, cutoff: int, watermark: int, m: nat, i: string, d: string, v: string)
    requires PrintableMinute(m)
    requires forall o :: o in s.events ==> WellFormed(o)
    requires CountHolds(s, watermark, m, i, d, v)
    ensures m >= watermark && m >= cutoff ==> CountAgrees(Retained(s, cutoff), m, i, d, v)
    ensures CountBelow(Retained(s, cutoff), m, i, d, v)
    ensures m + MINUTE <= cutoff ==> CountAgrees(Retained(s, cutoff), m, i, d, v)
  {
    hide Retained, DimensionKey, DimensionValue, CountAt, Select;
    RetainedCount(s, cutoff, m, i, d, v);
    RetainedLog(s, cutoff, m, OfValue(m, i, d, v));
  }

  lemma AtMostSelf(r: Rollup)
    ensures AtMost(r, r)
  {
  }

  lemma NothingFolded()
    ensures FoldedRollup([]) == EMPTY_ROLLUP
  {
  }

  function Max(a: int, b: int): int {
    if a < b then b else a
  }

  /** Retention raises the watermark to its cutoff at most. */
  lemma RetainKeepsConsistent(s: Counters, cutoff: int, watermark: int)
    requires Consistent(s, watermark)
    ensures Consistent(Retained(s, cutoff), Max(watermark, cutoff))
  {
    hide RollupAgrees, RollupBelow, CountAgrees, CountBelow;
    var s', w := Retained(s, cutoff), Max(watermark, cutoff);
    forall m: nat, i | PrintableMinute(m)
      ensures RollupHolds(s', w, m, i)
    {
      assert RollupHolds(s, watermark, m, i);
      RetainKeepsRollup(s, cutoff, watermark, m, i);
    }
    forall m: nat, i, d, v | PrintableMinute(m) && '|' !in i && d in DIMENSIONS
      ensures CountHolds(s', w, m, i, d, v)
    {
      assert CountHolds(s, watermark, m, i, d, v);
      RetainKeepsCount(s, cutoff, watermark, m, i, d, v);
    }
  }

  // ------------------------------------------------------------------ the boundary minute

  /** An event that survives the cutoff although its minute begins before it. */
  predicate Straddles(o: Observation, cutoff: int) {
    o.bucketMinute < cutoff <= o.observedAt
  }

  /** After a retention at or above the watermark, log and counters agree everywhere exactly when no
      logged event straddled the cutoff, whether or not they agreed before. */
  lemma AgreementSurvivesIff(s: Counters, cutoff: int, watermark: int)
    requires Consistent(s, watermark) && watermark <= cutoff
    ensures Consistent(Retained(s, cutoff), 0) <==> forall o :: o in s.events ==> !Straddles(o, cutoff)
  {
    if o :| o in s.events && Straddles(o, cutoff) {
      StraddlerBreaks(s, cutoff, watermark, o);
    } else {
      NoStraddlerRestores(s, cutoff, watermark);
    }
  }

  /** The rollup of a straddling event is gone, but the event is still in the log. */
  lemma StraddlerBreaks(s: Counters, cutoff: int, watermark: int, o: Observation)
    requires Consistent(s, watermark) && o in s.events && Straddles(o, cutoff)
    ensures !Consistent(Retained(s, cutoff), 0)
  {
    var m, i := o.bucketMinute, o.inboxID;
    var s' := Retained(s, cutoff);
    assert Recordable(o) && PrintableMinute(m);
    assert o in s'.events && OfMinute(m, i)(o);
    RetainedRollup(s, cutoff, m, i);
    hide Consistent, RollupKey, Retained, RollupAt, Select, RollupAgrees;
    NonEmptyLogDisagrees(s', m, i, o);
    AgreesInMinute(s', m, i);
  }

  lemma NonEmptyLogDisagrees(s: Counters, m: nat, i: string, o: Observation)
    requires RollupAt(s.rollups, RollupKey(m, i)) == EMPTY_ROLLUP && o in s.events && OfMinute(m, i)(o)
    ensures !RollupAgrees(s, m, i)
  {
    var kept := Select(s.events, OfMinute(m, i));
    assert o in kept;
    FoldDescribes(kept);
    EmptyHasNone();
    hide RollupKey, RollupAt, Select, Fold, EmptyAggregate;
  }

  lemma EmptyHasNone()
    ensures EmptyAggregate().requests == 0
  {
  }

  lemma NoStraddlerRestores(s: Counters, cutoff: int, watermark: int)
    requires Consistent(s, watermark) && watermark <= cutoff
    requires forall o :: o in s.events ==> !Straddles(o, cutoff)
    ensures Consistent(Retained(s, cutoff), 0)
  {
    hide RollupAgrees, RollupBelow, CountAgrees, CountBelow;
    var s' := Retained(s, cutoff);
    forall m: nat, i | PrintableMinute(m) ensures RollupAgrees(s', m, i) {
      assert RollupHolds(s, watermark, m, i);
      RetainKeepsRollup(s, cutoff, watermark, m, i);
      if m < cutoff {
        EmptiedMinute(s, cutoff, m, OfMinute(m, i));
        RetainedRollup(s, cutoff, m, i);
        EmptyLogAgrees(s', m, i);
      }
    }
    forall m: nat, i, d, v | PrintableMinute(m) && '|' !in i && d in DIMENSIONS ensures CountAgrees(s', m, i, d, v) {
      assert CountHolds(s, watermark, m, i, d, v);
      RetainKeepsCount(s, cutoff, watermark, m, i, d, v);
      if m < cutoff {
        EmptiedMinute(s, cutoff, m, OfValue(m, i, d, v));
        RetainedCount(s, cutoff, m, i, d, v);
        EmptyCountAgrees(s', m, i, d, v);
      }
    }
  }

  /** No event straddles a whole minute, so such a cutoff restores agreement everywhere. */
  lemma AlignedRetentionRestores(s: Counters, cutoff: int, watermark: int)
    requires Consistent(s, watermark) && watermark <= cutoff && cutoff % MINUTE == 0
    ensures Consistent(Retained(s, cutoff), 0)
  {
    hide RollupAgrees, RollupBelow, CountAgrees, CountBelow, Retained;
    AgreementSurvivesIff(s, cutoff, watermark);
    forall o | o in s.events ensures !Straddles(o, cutoff) {
      assert WellFormed(o);
    }
  }

  lemma EmptyLogAgrees(s: Counters, m: nat, i: string)
    requires RollupAt(s.rollups, RollupKey(m, i)) == EMPTY_ROLLUP && Select(s.events, OfMinute(m, i)) == []
    ensures RollupAgrees(s, m, i)
  {
    hide RollupKey;
  }

  lemma EmptyCountAgrees(s: Counters, m: nat, i: string, d: string, v: string)
    requires CountAt(s.dims, DimensionKey(m, i, d, v)) == 0 && Select(s.events, OfValue(m, i, d, v)) == []
    ensures CountAgrees(s, m, i, d, v)
  {
    hide DimensionKey;
  }

  lemma EmptiedMinute(s: Counters, cutoff: int, m: nat, p: Observation -> bool)
    requires forall o :: o in s.events ==> WellFormed(o) && (p(o) ==> o.bucketMinute == m)
    requires m < cutoff && forall o :: o in s.events ==> !Straddles(o, cutoff)
    ensures Select(Retained(s, cutoff).events, p) == []
  {
    SelectNone(Retained(s, cutoff).events, p);
  }

  // ------------------------------------------------------------------ what the counters still count

  function MinuteFrom(cutoff: int): Observation -> bool {
    (o: Observation) => o.bucketMinute >= cutoff
  }

  /** What retention does to the calls behind the counters: it forgets whole minutes, by their start. */
  function Uncounted(s: Counters, cutoff: int): Counters {
    Retained(s, cutoff).(events := Select(s.events, MinuteFrom(cutoff)))
  }

  lemma UncountedLog(s: Counters, cutoff: int, m: nat, p: Observation -> bool)
    requires forall o :: o in s.events && p(o) ==> o.bucketMinute == m
    ensures Select(Uncounted(s, cutoff).events, p) == if m >= cutoff then Select(s.events, p) else []
  {
    if m >= cutoff {
      SelectAgain(s.events, MinuteFrom(cutoff), p, p);
    } else {
      SelectNone(Select(s.events, MinuteFrom(cutoff)), p);
    }
  }

  lemma UncountedRollupAgrees(s: Counters, cutoff: int, m: nat, i: string)
    requires PrintableMinute(m) && RollupAgrees(s, m, i)
    ensures RollupAgrees(Uncounted(s, cutoff), m, i)
  {
    RetainedRollup(s, cutoff, m, i);
    UncountedLog(s, cutoff, m, OfMinute(m, i));
    assert Uncounted(s, cutoff).rollups == Retained(s, cutoff).rollups;
    if m < cutoff {
      hide Uncounted, Retained;
      EmptyLogAgrees(Uncounted(s, cutoff), m, i);
    }
    hide Uncounted, Retained, RollupKey, RollupAt, Select;
  }

  lemma UncountedCountAgrees(s: Counters, cutoff: int, m: nat, i: string, d: string, v: string)
    requires PrintableMinute(m) && CountAgrees(s, m, i, d, v)
    ensures CountAgrees(Uncounted(s, cutoff), m, i, d, v)
  {
    RetainedCount(s, cutoff, m, i, d, v);
    UncountedLog(s, cutoff, m, OfValue(m, i, d, v));
    assert Uncounted(s, cutoff).dims == Retained(s, cutoff).dims;
    if m < cutoff {
      hide Uncounted, Retained;
      EmptyCountAgrees(Uncounted(s, cutoff), m, i, d, v);
    }
    hide Uncounted, Retained, DimensionKey, CountAt, Select;
  }

  lemma RetainKeepsCounted(s: Counters, cutoff: int)
    requires Consistent(s, 0)
    ensures Consistent(Uncounted(s, cutoff), 0)
  {
    hide RollupAgrees, RollupBelow, CountAgrees, CountBelow;
    forall m: nat, i | PrintableMinute(m) ensures RollupAgrees(Uncounted(s, cutoff), m, i) {
      assert RollupHolds(s, 0, m, i);
      UncountedRollupAgrees(s, cutoff, m, i);
    }
    forall m: nat, i, d, v | PrintableMinute(m) && '|' !in i && d in DIMENSIONS
      ensures CountAgrees(Uncounted(s, cutoff), m, i, d, v)
    {
      assert CountHolds(s, 0, m, i, d, v);
      UncountedCountAgrees(s, cutoff, m, i, d, v);
    }
  }

  // ------------------------------------------------------------------ repeating and undoing

  lemma CountedInjective(a: Buckets, b: Buckets, latency: nat)
    requires Counted(a, latency) == Counted(b, latency)
    ensures a == b
  {
    forall i | 0 <= i < |BOUNDS| ensures a[i] == b[i] {
      assert Counted(a, latency)[i] == Counted(b, latency)[i];
    }
  }

  lemma GrownInjective(a: Rollup, b: Rollup, o: Observation)
    requires Grown(a, o) == Grown(b, o)
    ensures a == b
  {
    CountedInjective(a.agg.buckets, b.agg.buckets, o.latencyMs);
    hide Counted;
  }

  lemma RecordNeverHealsRollup(s: Counters, o: Observation, m: nat, i: string)
    requires PrintableMinute(m) && PrintableMinute(o.bucketMinute) && RollupAgrees(Recorded(s, o), m, i)
    ensures RollupAgrees(s, m, i)
  {
    hide Recorded, RollupAt, LoggedRollup, RollupKey, Grown;
    RecordedRollup(s, o, m, i);
    if OfMinute(m, i)(o) { GrownInjective(RollupAt(s.rollups, RollupKey(m, i)), LoggedRollup(s, m, i), o); }
  }

  lemma RecordNeverHealsCount(s: Counters, o: Observation, m: nat, i: string, d: string, v: string)
    requires PrintableMinute(m) && Recordable(o) && '|' !in i && d in DIMENSIONS
    requires CountAgrees(Recorded(s, o), m, i, d, v)
    ensures CountAgrees(s, m, i, d, v)
  {
    hide Recorded, LoggedCount, DimensionKey, DimensionValue;
    RecordedCount(s, o, m, i, d, v);
  }

  /** Recording never heals: what disagrees before still disagrees after. */
  lemma RecordNeverHeals(s: Counters, o: Observation)
    requires Recordable(o) && Consistent(Recorded(s, o), 0)
    ensures Consistent(s, 0)
  {
    hide RollupAgrees, RollupBelow, CountAgrees, CountBelow, Recorded;
    var s' := Recorded(s, o);
    EventsRecorded(s, o);
    forall e | e in s.events ensures Recordable(e) {
      assert e in s'.events;
    }
    assert PrintableMinute(o.bucketMinute);
    hide Recordable, PrintableMinute;
    forall m: nat, i | PrintableMinute(m) ensures RollupAgrees(s, m, i) {
      assert RollupHolds(s', 0, m, i);
      RecordNeverHealsRollup(s, o, m, i);
    }
    forall m: nat, i, d, v | PrintableMinute(m) && '|' !in i && d in DIMENSIONS ensures CountAgrees(s, m, i, d, v) {
      assert CountHolds(s', 0, m, i, d, v);
      RecordNeverHealsCount(s, o, m, i, d, v);
    }
  }

  /** Retaining at one cutoff and then at a later one is retaining at the later one alone. */
  lemma RetainTwice(s: Counters, first: int, second: int)
    requires first <= second
    ensures Retained(Retained(s, first), second) == Retained(s, second)
  {
    hide FirstPiece, Parse;
    SelectAgain(s.events, Since(first), Since(second), Since(second));
    assert FreshOnly(FreshOnly(s.rollups, first), second) == FreshOnly(s.rollups, second);
    assert FreshOnly(FreshOnly(s.dims, first), second) == FreshOnly(s.dims, second);
  }
}

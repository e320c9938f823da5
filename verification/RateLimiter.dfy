/** The fixed-window rate limiter of the admin API.

    `Limiter` is the object with its mutable entries.  `Step` gives the effect of one call on the
    table of windows as a value, and the theorems are about whole runs of calls. */
module RateLimiter {

  import opened Time

  datatype Window = Window(start: int, count: int)

  type Table = map<string, Window>

  datatype Call = Call(key: string, now: int)

  function Normalized(key: string): (k: string)
    ensures key != "" ==> k == key
    ensures key == "" ==> k == "unknown"
  {
    if key == "" then "unknown" else key
  }

  function EffectiveLimit(limitRPM: int): (limit: int)
    ensures limit > 0
    ensures limitRPM > 0 ==> limit == limitRPM
    ensures limitRPM <= 0 ==> limit == 120
  {
    if limitRPM <= 0 then 120 else limitRPM
  }

  /** The table after one call, and whether the call is admitted. */
  function Step(table: Table, limit: int, call: Call): (Table, bool) {
    var key := Normalized(call.key);
    if key !in table || call.now - table[key].start >= MINUTE then
      (table[key := Window(call.now, 1)], true)
    else if table[key].count >= limit then
      (table, false)
    else
      (table[key := Window(table[key].start, table[key].count + 1)], true)
  }

  // ------------------------------------------------------------------ the object

  class Entry {
    var windowStart: int
    var count: int

    constructor (windowStart: int, count: int)
      ensures this.windowStart == windowStart && this.count == count
    {
      this.windowStart, this.count := windowStart, count;
    }
  }

  class Limiter {
    var entries: map<string, Entry>
    const limitRPM: int

    /** No two keys share an entry, so that counting one never counts the other. */
    ghost predicate Valid()
      reads this
    {
      && limitRPM > 0
      && forall k, k' :: k in entries && k' in entries && k != k' ==> entries[k] != entries[k']
    }

    ghost function View(): Table
      reads this, entries.Values
    {
      map k | k in entries :: Window(entries[k].windowStart, entries[k].count)
    }

    constructor (limitRPM: int)
      ensures Valid() && fresh(this)
      ensures View() == map[]
      ensures this.limitRPM == EffectiveLimit(limitRPM)
    {
      entries := map[];
      this.limitRPM := EffectiveLimit(limitRPM);
    }

    method Allow(key: string, now: int) returns (ok: bool)
      requires Valid()
      modifies this, entries.Values
      ensures Valid() && fresh(entries.Values - old(entries.Values))
      ensures (View(), ok) == Step(old(View()), limitRPM, Call(key, now))
    {
      var k := Normalized(key);
      if k !in entries || now - entries[k].windowStart >= MINUTE {
        var e := new Entry(now, 1);
        entries := entries[k := e];
        assert View() == old(View())[k := Window(now, 1)];
        return true;
      }
      var e := entries[k];
      assert e in entries.Values;
      if e.count >= limitRPM {
        return false;
      }
      e.count := e.count + 1;
      assert View() == old(View())[k := Window(e.windowStart, e.count)];
      return true;
    }
  }

  // ------------------------------------------------------------------ whole runs

  function After(limit: int, run: seq<Call>): Table {
    if run == [] then map[] else Step(After(limit, run[..|run| - 1]), limit, run[|run| - 1]).0
  }

  predicate IsAdmitted(limit: int, run: seq<Call>, i: nat)
    requires i < |run|
  {
    Step(After(limit, run[..i]), limit, run[i]).1
  }

  ghost predicate Monotone(run: seq<Call>) {
    forall i, j :: 0 <= i <= j < |run| ==> run[i].now <= run[j].now
  }

  /** How many calls on `key` are admitted at a time in `[from, to)`. */
  function AdmittedWithin(limit: int, run: seq<Call>, key: string, from: int, to: int): nat {
    if run == [] then 0 else
      var n := |run| - 1;
      AdmittedWithin(limit, run[..n], key, from, to)
      + if Normalized(run[n].key) == key && from <= run[n].now < to && IsAdmitted(limit, run, n) then 1 else 0
  }

  /** How many admitted calls the windows before one that starts `d` after `from` can place at or
      after `from`: whole windows, and all but the opening call of a window that straddles `from`. */
  function Earlier(limit: int, d: int): int
    decreases d
  {
    if d <= 0 then 0
    else if d < MINUTE then limit - 1
    else limit + Earlier(limit, d - MINUTE)
  }

  lemma {:induction false} EarlierMonotone(limit: int, d: int, d': int)
    requires limit > 0 && 0 <= d <= d'
    ensures 0 <= Earlier(limit, d) <= Earlier(limit, d')
    ensures d' > 0 ==> Earlier(limit, d') >= limit - 1
    decreases d'
  {
    if d >= MINUTE {
      EarlierMonotone(limit, d - MINUTE, d' - MINUTE);
    } else if d' >= MINUTE {
      EarlierMonotone(limit, 0, d' - MINUTE);
    }
  }

  lemma {:induction false} EarlierBound(limit: int, d: int, m: int)
    requires limit > 0 && m > 0 && d < m * MINUTE
    ensures Earlier(limit, d) <= m * limit - 1
    decreases m
  {
    if m > 1 {
      if d >= MINUTE {
        EarlierBound(limit, d - MINUTE, m - 1);
      }
      assert m * limit == (m - 1) * limit + limit;
      AtLeast(m - 1, limit);
    }
  }

  lemma AtLeast(m: int, limit: int)
    requires m >= 1 && limit >= 0
    ensures m * limit >= limit
  {
  }

  /** What the window of `key` says about `n` admitted calls at or after `from`. */
  ghost predicate Bounded(limit: int, table: Table, key: string, from: int, n: int) {
    if key !in table then n == 0 else
      var w := table[key];
      && 1 <= w.count <= limit
      && (from <= w.start ==> n <= w.count + Earlier(limit, w.start - from))
      && (from > w.start ==> n <= w.count - 1)
      && (from >= w.start + MINUTE ==> n == 0)
  }

  lemma OneMoreCall(limit: int, run: seq<Call>, call: Call, key: string, from: int, to: int)
    ensures After(limit, run + [call]) == Step(After(limit, run), limit, call).0
    ensures AdmittedWithin(limit, run + [call], key, from, to) == AdmittedWithin(limit, run, key, from, to)
      + if Normalized(call.key) == key && from <= call.now < to && Step(After(limit, run), limit, call).1 then 1 else 0
  {
    assert (run + [call])[..|run|] == run;
  }

  lemma LastTime(limit: int, run: seq<Call>, key: string)
    requires Monotone(run) && run != []
    ensures key in After(limit, run) ==> After(limit, run)[key].start <= run[|run| - 1].now
  {
    if |run| > 1 { LastTime(limit, run[..|run| - 1], key); }
  }

  lemma EarlierOfCall(limit: int, table: Table, call: Call, key: string, from: int)
    requires limit > 0
    ensures from <= call.now ==>
      Earlier(limit, call.now - from) >= 0 && (from < call.now ==> Earlier(limit, call.now - from) >= limit - 1)
    ensures key in table && call.now - table[key].start >= MINUTE && from <= table[key].start ==>
      Earlier(limit, call.now - from) >= Earlier(limit, table[key].start - from) + limit
  {
    if from <= call.now {
      EarlierMonotone(limit, 0, call.now - from);
      if key in table && call.now - table[key].start >= MINUTE && from <= table[key].start {
        EarlierMonotone(limit, table[key].start - from + MINUTE, call.now - from);
      }
    }
  }

  /** One call keeps the bound on the number of admitted calls. */
  lemma OpeningOrCounting(limit: int, table: Table, call: Call, key: string, from: int, n: int, n': int)
    requires limit > 0
    requires Bounded(limit, table, key, from, n)
    requires key in table ==> table[key].start <= call.now
    requires n' == n + if Normalized(call.key) == key && from <= call.now && Step(table, limit, call).1 then 1 else 0
    ensures Bounded(limit, Step(table, limit, call).0, key, from, n')
  {
    EarlierOfCall(limit, table, call, key, from);
    hide Earlier;
  }

  /** Every window bounds the admitted calls, whatever the run before it. */
  lemma {:induction false} KeepsBounded(limit: int, run: seq<Call>, key: string, from: int, to: int)
    requires limit > 0 && Monotone(run)
    requires forall i :: 0 <= i < |run| ==> run[i].now < to
    ensures Bounded(limit, After(limit, run), key, from, AdmittedWithin(limit, run, key, from, to))
  {
    if run != [] {
      var n := |run| - 1;
      var prev, call := run[..n], run[n];
      KeepsBounded(limit, prev, key, from, to);
      if prev != [] { LastTime(limit, prev, key); }
      assert run == prev + [call];
      OneMoreCall(limit, prev, call, key, from, to);
      hide *;
      OpeningOrCounting(limit, After(limit, prev), call, key, from,
        AdmittedWithin(limit, prev, key, from, to), AdmittedWithin(limit, run, key, from, to));
    }
  }

  /** In every run with non-decreasing times and for every key, any interval of `m` minutes holds
      at most `(m + 1) * limit - 1` admitted calls. */
  lemma {:induction false} SlidingIntervalBound(limit: int, run: seq<Call>, key: string, from: int, m: int)
    requires limit > 0 && Monotone(run) && m > 0
    ensures AdmittedWithin(limit, run, key, from, from + m * MINUTE) <= (m + 1) * limit - 1
  {
    var to := from + m * MINUTE;
    AtLeast(m, limit);
    Distribute(m, limit);
    if run != [] && run[|run| - 1].now >= to {
      SlidingIntervalBound(limit, run[..|run| - 1], key, from, m);
    } else {
      KeepsBounded(limit, run, key, from, to);
      var table := After(limit, run);
      if key in table && from <= table[key].start {
        LastTime(limit, run, key);
        EarlierBound(limit, table[key].start - from, m);
      }
    }
  }

  lemma Distribute(m: int, limit: int)
    ensures (m + 1) * limit == m * limit + limit
  {
  }

  // ------------------------------------------------------------------ the bound is attained

  /** `n` calls on the same key at the same time. */
  function Burst(key: string, now: int, n: nat): (calls: seq<Call>)
    ensures |calls| == n
    ensures forall i :: 0 <= i < n ==> calls[i] == Call(key, now)
  {
    seq(n, _ => Call(key, now))
  }

  /** One call at 0 and `limit - 1` just after it, then `limit` calls at each of `m` full minutes. */
  function Saturating(limit: nat, m: nat): seq<Call>
    requires limit > 0
  {
    if m == 0 then Burst("k", 0, 1) + Burst("k", 1, limit - 1)
    else Saturating(limit, m - 1) + Burst("k", m * MINUTE, limit)
  }

  lemma {:induction false} BurstIsCounted(limit: int, run: seq<Call>, now: int, n: nat, from: int, to: int)
    requires limit > 0 && from <= now < to
    requires "k" in After(limit, run)
    requires var w := After(limit, run)["k"];
      if now - w.start >= MINUTE then 0 < n <= limit else w.count + n <= limit
    ensures var run' := run + Burst("k", now, n);
      && AdmittedWithin(limit, run', "k", from, to) == AdmittedWithin(limit, run, "k", from, to) + n
      && "k" in After(limit, run')
      && var w := After(limit, run)["k"];
      After(limit, run')["k"] == if now - w.start >= MINUTE then Window(now, n) else Window(w.start, w.count + n)
    decreases n
  {
    hide After, AdmittedWithin;
    if n <= 1 {
      assert run + Burst("k", now, 0) == run;
      if n == 1 {
        assert run + Burst("k", now, 1) == run + [Call("k", now)];
        OneMoreCall(limit, run, Call("k", now), "k", from, to);
      }
    } else {
      var prev := run + Burst("k", now, n - 1);
      assert run + Burst("k", now, n) == prev + [Call("k", now)];
      BurstIsCounted(limit, run, now, n - 1, from, to);
      OneMoreCall(limit, prev, Call("k", now), "k", from, to);
    }
  }

  lemma {:induction false} SaturatingMonotone(limit: nat, m: nat)
    requires limit > 0
    ensures Monotone(Saturating(limit, m))
    ensures forall i :: 0 <= i < |Saturating(limit, m)| ==> Saturating(limit, m)[i].now <= m * MINUTE + 1
    ensures m > 0 ==> forall i :: 0 <= i < |Saturating(limit, m)| ==> Saturating(limit, m)[i].now <= m * MINUTE
  {
    if m > 0 { SaturatingMonotone(limit, m - 1); }
  }

  function SaturatingTotal(limit: nat, m: nat): nat
    requires limit > 0
  {
    if m == 0 then limit - 1 else SaturatingTotal(limit, m - 1) + limit
  }

  lemma {:induction false} SaturatingTotalIs(limit: nat, m: nat)
    requires limit > 0
    ensures SaturatingTotal(limit, m) == (m + 1) * limit - 1
  {
    if m > 0 {
      SaturatingTotalIs(limit, m - 1);
      Distribute(m, limit);
    }
  }

  lemma {:induction false} SaturatingCount(limit: nat, m: nat, to: int)
    requires limit > 0 && m * MINUTE + 1 < to
    ensures AdmittedWithin(limit, Saturating(limit, m), "k", 1, to) == SaturatingTotal(limit, m)
    ensures "k" in After(limit, Saturating(limit, m))
    ensures After(limit, Saturating(limit, m))["k"] == Window(m * MINUTE, limit)
  {
    hide After, AdmittedWithin;
    if m == 0 {
      SaturatingBase(limit, to);
    } else {
      var prev := Saturating(limit, m - 1);
      SaturatingCount(limit, m - 1, to);
      assert Saturating(limit, m) == prev + Burst("k", m * MINUTE, limit);
      hide Saturating, Burst;
      BurstIsCounted(limit, prev, m * MINUTE, limit, 1, to);
    }
  }

  lemma SaturatingBase(limit: nat, to: int)
    requires limit > 0 && 1 < to
    ensures AdmittedWithin(limit, Saturating(limit, 0), "k", 1, to) == limit - 1
    ensures "k" in After(limit, Saturating(limit, 0))
    ensures After(limit, Saturating(limit, 0))["k"] == Window(0, limit)
  {
    var first := Burst("k", 0, 1);
    assert first == [] + [Call("k", 0)];
    FirstCall(limit, to);
    assert Saturating(limit, 0) == first + Burst("k", 1, limit - 1);
    hide Saturating, After, AdmittedWithin;
    BurstIsCounted(limit, first, 1, limit - 1, 1, to);
  }

  lemma FirstCall(limit: nat, to: int)
    requires limit > 0
    ensures After(limit, [] + [Call("k", 0)]) == map["k" := Window(0, 1)]
    ensures AdmittedWithin(limit, [] + [Call("k", 0)], "k", 1, to) == 0
  {
    OneMoreCall(limit, [], Call("k", 0), "k", 1, to);
    assert After(limit, []) == map[] && AdmittedWithin(limit, [], "k", 1, to) == 0;
    hide After, AdmittedWithin;
  }

  /** For every limit and every number of minutes some run reaches the bound. */
  lemma SlidingIntervalBoundIsAttained(limit: nat, m: nat)
    requires limit > 0 && m > 0
    ensures Monotone(Saturating(limit, m))
    ensures AdmittedWithin(limit, Saturating(limit, m), "k", 1, 1 + m * MINUTE) == (m + 1) * limit - 1
  {
    SaturatingMonotone(limit, m);
    SaturatingCount(limit, m, 2 + m * MINUTE);
    SaturatingTotalIs(limit, m);
    SameCount(limit, Saturating(limit, m), "k", 1, 2 + m * MINUTE, 1 + m * MINUTE);
  }

  lemma {:induction false} SameCount(limit: int, run: seq<Call>, key: string, from: int, to: int, to': int)
    requires forall i :: 0 <= i < |run| ==> run[i].now < to && run[i].now < to'
    ensures AdmittedWithin(limit, run, key, from, to) == AdmittedWithin(limit, run, key, from, to')
  {
    if run != [] { SameCount(limit, run[..|run| - 1], key, from, to, to'); }
  }

  // ------------------------------------------------------------------ refusals

  /** The admitted calls of the current window are exactly those since it was opened. */
  lemma {:induction false} WindowCountIsExact(limit: int, run: seq<Call>, key: string, to: int)
    requires limit > 0 && Monotone(run)
    requires forall i :: 0 <= i < |run| ==> run[i].now < to
    requires key in After(limit, run)
    ensures var w := After(limit, run)[key];
      1 <= w.count <= limit && AdmittedWithin(limit, run, key, w.start, to) == w.count
  {
    var n := |run| - 1;
    var prev, call := run[..n], run[n];
    var table, w := After(limit, prev), After(limit, run)[key];
    if key in table && w.start == table[key].start {
      WindowCountIsExact(limit, prev, key, to);
    }
    LastTime(limit, run, key);
    KeepsBounded(limit, run, key, w.start, to);
  }

  /** A refused call finds exactly `limit` admitted calls of its key since the window was opened,
      all of them less than a minute old. */
  lemma RefusalIsJustified(limit: int, run: seq<Call>, call: Call)
    requires limit > 0 && Monotone(run + [call])
    requires !Step(After(limit, run), limit, call).1
    ensures var key := Normalized(call.key);
      && key in After(limit, run)
      && var w := After(limit, run)[key];
      && call.now - MINUTE < w.start <= call.now
      && w.count == limit
      && AdmittedWithin(limit, run, key, w.start, call.now + 1) == limit
      && AdmittedWithin(limit, run, key, call.now - MINUTE + 1, call.now + 1) >= limit
  {
    var key := Normalized(call.key);
    var w := After(limit, run)[key];
    forall i, j | 0 <= i <= j < |run| ensures run[i].now <= run[j].now {
      assert (run + [call])[i].now <= (run + [call])[j].now;
    }
    forall i | 0 <= i < |run| ensures run[i].now < call.now + 1 {
      assert (run + [call])[i].now <= (run + [call])[|run|].now;
    }
    LastTime(limit, run, key);
    WindowCountIsExact(limit, run, key, call.now + 1);
    KeepsBounded(limit, run, key, w.start, call.now + 1);
    WiderCountsMore(limit, run, key, w.start, call.now - MINUTE + 1, call.now + 1);
  }

  lemma {:induction false} WiderCountsMore(limit: int, run: seq<Call>, key: string, from: int, from': int, to: int)
    requires from' <= from
    ensures AdmittedWithin(limit, run, key, from, to) <= AdmittedWithin(limit, run, key, from', to)
  {
    if run != [] { WiderCountsMore(limit, run[..|run| - 1], key, from, from', to); }
  }
}

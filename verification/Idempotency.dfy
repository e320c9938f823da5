/** The cache of responses by idempotency key: a map with a time to live and a cap, seen as a
    refinement of the log of everything that was ever stored in it. */
module Idempotency {
  import opened Wrappers
  import opened Time

  const TTL: int := DAY
  const MAX_ENTRIES: nat := 10000

  datatype Response = Response(statusCode: int, body: string)

  datatype Entry = Entry(response: Response, expiresAt: int)

  type Responses = map<string, Entry>

  function CacheKey(httpMethod: string, path: string, key: string): (k: string)
    ensures k != ""
  {
    httpMethod + ":" + path + ":" + key
  }

  /** Under one method and path the client's key determines the cache key. */
  lemma CacheKeyInjective(httpMethod: string, path: string, key: string, key': string)
    requires CacheKey(httpMethod, path, key) == CacheKey(httpMethod, path, key')
    ensures key == key'
  {
    var n := |httpMethod| + 1 + |path| + 1;
    assert CacheKey(httpMethod, path, key)[n..] == key;
    assert CacheKey(httpMethod, path, key')[n..] == key';
  }

  // ------------------------------------------------------------------ the two operations as relations

  function Unexpired(m: Responses, now: int): Responses {
    map k | k in m && now <= m[k].expiresAt :: m[k]
  }

  /** What enforcing the cap may leave: when there are too many, the cap's number of entries, and no
      entry that went expires later than one that stayed.  Ties may fall either way. */
  ghost predicate CutToCap(before: Responses, after: Responses) {
    && IsCut(before, after)
    && |after| == if |before| > MAX_ENTRIES then MAX_ENTRIES else |before|
  }

  ghost predicate IsCut(before: Responses, after: Responses) {
    && after.Keys <= before.Keys
    && (forall k :: k in after ==> after[k] == before[k])
    && (forall gone, kept :: gone in before && gone !in after && kept in after ==>
          before[gone].expiresAt <= before[kept].expiresAt)
  }

  datatype Op = Lookup(key: string, now: int) | Remember(key: string, response: Response, now: int)

  /** One critical section, by cache key. */
  ghost predicate Moves(m: Responses, op: Op, m': Responses) {
    match op
    case Lookup(_, now) => m' == Unexpired(m, now)
    case Remember(key, response, now) => CutToCap(Unexpired(m, now)[key := Entry(response, now + TTL)], m')
  }

  /** What a lookup answers from the state it leaves. */
  function Answer(m: Responses, key: string): Option<Response> {
    if key in m then Some(m[key].response) else None
  }

  // ------------------------------------------------------------------ the cache

  class Cache {
    var responses: Responses

    ghost predicate Valid()
      reads this
    {
      "" !in responses
    }

    constructor ()
      ensures Valid() && responses == map[]
    {
      responses := map[];
    }

    method ReadIdempotencyResponse(httpMethod: string, path: string, key: string, now: int)
      returns (r: Option<Response>)
      requires Valid()
      modifies this
      ensures Valid()
      ensures key == "" ==> r == None && responses == old(responses)
      ensures key != "" ==>
        var cacheKey := CacheKey(httpMethod, path, key);
        Moves(old(responses), Lookup(cacheKey, now), responses) && r == Answer(responses, cacheKey)
    {
      if key == "" {
        return None;
      }
      hide CacheKey;
      var cacheKey := CacheKey(httpMethod, path, key);
      PurgeExpired(now);
      if cacheKey !in responses {
        return None;
      }
      var entry := responses[cacheKey];
      // The purge has just removed whatever is past its time, so the second expiry test never succeeds.
      assert !(now > entry.expiresAt);
      return Some(entry.response);
    }

    method StoreIdempotencyResponse(httpMethod: string, path: string, key: string, response: Response, now: int)
      requires Valid()
      modifies this
      ensures Valid()
      ensures key == "" ==> responses == old(responses)
      ensures key != "" ==> Moves(old(responses), Remember(CacheKey(httpMethod, path, key), response, now), responses)
    {
      if key == "" {
        return;
      }
      hide CacheKey, Unexpired, CutToCap;
      var cacheKey := CacheKey(httpMethod, path, key);
      PurgeExpired(now);
      responses := responses[cacheKey := Entry(response, now + TTL)];
      EnforceCap();
    }

    method PurgeExpired(now: int)
      requires Valid()
      modifies this
      ensures Valid() && responses == Unexpired(old(responses), now)
    {
      var before, kept := responses, responses;
      var left := before.Keys;
      while left != {}
        invariant left <= kept.Keys <= before.Keys
        invariant forall k :: k in kept ==> kept[k] == before[k]
        invariant forall k :: k in before && k !in left ==> (k in kept <==> now <= before[k].expiresAt)
        decreases |left|
      {
        var k :| k in left;
        left := left - {k};
        if now > before[k].expiresAt {
          kept := kept - {k};
        }
      }
      assert kept == Unexpired(before, now);
      responses := kept;
    }

    /** Evicts one oldest entry at a time.  No key is empty, so an empty `oldestKey` only ever means that
        the scan has not begun. */
    method EnforceCap()
      requires Valid()
      modifies this
      ensures Valid() && CutToCap(old(responses), responses)
    {
      ghost var before := responses;
      while |responses| > MAX_ENTRIES
        invariant Valid() && IsCut(before, responses)
        invariant |before| > MAX_ENTRIES ==> |responses| >= MAX_ENTRIES
        invariant |before| <= MAX_ENTRIES ==> responses == before
        decreases |responses|
      {
        var oldestKey := OldestKey(responses);
        responses := responses - {oldestKey};
      }
    }

    static method OldestKey(m: Responses) returns (oldestKey: string)
      requires "" !in m && m != map[]
      ensures oldestKey in m && forall k :: k in m ==> m[oldestKey].expiresAt <= m[k].expiresAt
    {
      oldestKey := "";
      var oldestExpiresAt := 0;
      var left := m.Keys;
      while left != {}
        invariant left <= m.Keys
        invariant oldestKey == "" ==> left == m.Keys
        invariant oldestKey != "" ==> oldestKey in m && m[oldestKey].expiresAt == oldestExpiresAt
        invariant oldestKey != "" ==> forall k :: k in m && k !in left ==> oldestExpiresAt <= m[k].expiresAt
        decreases |left|
      {
        var k :| k in left;
        if oldestKey == "" || m[k].expiresAt < oldestExpiresAt {
          oldestKey, oldestExpiresAt := k, m[k].expiresAt;
        }
        left := left - {k};
      }
      var someKey :| someKey in m;
      assert oldestKey != "";
    }
  }

  // ------------------------------------------------------------------ runs and the log of stores

  datatype Move = Move(op: Op, after: Responses)

  function StateAfter(run: seq<Move>): Responses {
    if run == [] then map[] else run[|run| - 1].after
  }

  /** Critical sections one after the other, under a clock that does not run backwards. */
  ghost predicate IsRun(run: seq<Move>) {
    run != [] ==>
      var front, last := run[..|run| - 1], run[|run| - 1];
      && IsRun(front)
      && (front != [] ==> front[|front| - 1].op.now <= last.op.now)
      && Moves(StateAfter(front), last.op, last.after)
  }

  /** Where the latest store of a key is in the run, or -1. */
  function LatestStore(run: seq<Move>, key: string): (j: int)
    ensures -1 <= j < |run|
    ensures j >= 0 ==> run[j].op.Remember? && run[j].op.key == key
    ensures forall i :: j < i < |run| ==> !(run[i].op.Remember? && run[i].op.key == key)
  {
    if run == [] then -1
    else if run[|run| - 1].op.Remember? && run[|run| - 1].op.key == key then |run| - 1
    else LatestStore(run[..|run| - 1], key)
  }

  predicate StoredSince(run: seq<Move>, key: string, t: int) {
    exists j :: 0 <= j < |run| && run[j].op.Remember? && run[j].op.key == key && run[j].op.now >= t
  }

  /** The cap's number of other keys were stored no earlier than `t`. */
  ghost predicate Crowded(run: seq<Move>, key: string, t: int) {
    exists others :: IsCrowd(run, key, t, others)
  }

  ghost predicate IsCrowd(run: seq<Move>, key: string, t: int, others: set<string>) {
    |others| == 10_000 && key !in others && forall k :: k in others ==> StoredSince(run, k, t)
  }

  function Now(run: seq<Move>): int
    requires run != []
  {
    run[|run| - 1].op.now
  }

  function EntryAt(run: seq<Move>, j: nat): Entry
    requires j < |run| && run[j].op.Remember?
  {
    Entry(run[j].op.response, run[j].op.now + TTL)
  }

  /** An entry is the latest store of its key, and is not past its time. */
  predicate HoldsLatest(run: seq<Move>, key: string) {
    run != [] && key in StateAfter(run) ==>
      var j := LatestStore(run, key);
      j >= 0 && StateAfter(run)[key] == EntryAt(run, j) && Now(run) - run[j].op.now <= TTL
  }

  /** A key that was stored and is not held has expired or was crowded out. */
  ghost predicate MissExplained(run: seq<Move>, key: string) {
    LatestStore(run, key) >= 0 && key !in StateAfter(run) ==>
      var stored := run[LatestStore(run, key)].op.now;
      Now(run) - stored > TTL || Crowded(run, key, stored)
  }

  ghost predicate Explained(run: seq<Move>) {
    && |StateAfter(run)| <= MAX_ENTRIES
    && (forall k :: HoldsLatest(run, k))
    && (forall k :: MissExplained(run, k))
  }

  lemma StoredStaysStored(front: seq<Move>, last: Move, key: string, t: int)
    requires StoredSince(front, key, t)
    ensures StoredSince(front + [last], key, t)
  {
    var j :| 0 <= j < |front| && front[j].op.Remember? && front[j].op.key == key && front[j].op.now >= t;
    assert (front + [last])[j] == front[j];
  }

  lemma CrowdStays(front: seq<Move>, last: Move, key: string, t: int)
    requires Crowded(front, key, t)
    ensures Crowded(front + [last], key, t)
  {
    hide StoredSince;
    var others :| IsCrowd(front, key, t, others);
    forall k | k in others ensures StoredSince(front + [last], k, t) {
      StoredStaysStored(front, last, k, t);
    }
    assert IsCrowd(front + [last], key, t, others);
  }

  lemma LatestOfAppend(front: seq<Move>, last: Move, key: string)
    ensures LatestStore(front + [last], key) ==
      if last.op.Remember? && last.op.key == key then |front| else LatestStore(front, key)
    ensures LatestStore(front, key) >= 0 ==> (front + [last])[LatestStore(front, key)] == front[LatestStore(front, key)]
  {
    assert (front + [last])[..|front|] == front;
  }

  /** What a step sees after its purge. */
  lemma PurgedHolds(front: seq<Move>, last: Move, key: string)
    requires HoldsLatest(front, key) && key in Unexpired(StateAfter(front), last.op.now)
    ensures LatestStore(front, key) >= 0
    ensures StateAfter(front)[key] == EntryAt(front, LatestStore(front, key))
    ensures last.op.now - front[LatestStore(front, key)].op.now <= TTL
  {
    hide LatestStore;
  }

  lemma StepHoldsLatest(front: seq<Move>, last: Move, key: string)
    requires HoldsLatest(front, key) && Moves(StateAfter(front), last.op, last.after)
    ensures HoldsLatest(front + [last], key)
  {
  }

  /** A key that the purge did not leave was already missing, or has just expired. */
  lemma PurgedMisses(front: seq<Move>, last: Move, key: string)
    requires HoldsLatest(front, key) && MissExplained(front, key)
    requires front != [] ==> Now(front) <= last.op.now
    requires LatestStore(front, key) >= 0 && key !in Unexpired(StateAfter(front), last.op.now)
    ensures var stored := front[LatestStore(front, key)].op.now;
      last.op.now - stored > TTL || Crowded(front + [last], key, stored)
  {
    hide Crowded;
    var stored := front[LatestStore(front, key)].op.now;
    if Crowded(front, key, stored) { CrowdStays(front, last, key, stored); }
    hide LatestStore;
  }

  /** What an eviction leaves is a crowd of keys that were stored no earlier. */
  lemma EvictedIsCrowded(run: seq<Move>, before: Responses, key: string)
    requires run != [] && (forall k :: HoldsLatest(run, k)) && CutToCap(before, StateAfter(run))
    requires key in before && key !in StateAfter(run)
    ensures Crowded(run, key, before[key].expiresAt - TTL)
  {
    hide LatestStore;
    var after, t := StateAfter(run), before[key].expiresAt - TTL;
    SameSizeSameKeys(before, after);
    forall k | k in after.Keys ensures StoredSince(run, k, t) {
      assert HoldsLatest(run, k) && before[key].expiresAt <= before[k].expiresAt == after[k].expiresAt;
      LatestIsStore(run, k);
      assert run[LatestStore(run, k)].op.now >= t;
    }
    hide StoredSince;
    assert |after.Keys| == |after|;
    assert IsCrowd(run, key, t, after.Keys);
  }

  lemma LatestIsStore(run: seq<Move>, key: string)
    ensures LatestStore(run, key) >= 0 ==>
      run[LatestStore(run, key)].op.Remember? && run[LatestStore(run, key)].op.key == key
  {
  }

  lemma SameSizeSameKeys(before: Responses, after: Responses)
    requires after.Keys <= before.Keys
    ensures |after| == |before| ==> after.Keys == before.Keys
  {
    var gone := before.Keys - after.Keys;
    assert before.Keys == after.Keys + gone;
    assert |before.Keys| == |after.Keys| + |gone|;
  }

  lemma StepExplainsMiss(front: seq<Move>, last: Move, key: string)
    requires HoldsLatest(front, key) && MissExplained(front, key)
    requires front != [] ==> Now(front) <= last.op.now
    requires Moves(StateAfter(front), last.op, last.after) && forall k :: HoldsLatest(front + [last], k)
    ensures MissExplained(front + [last], key)
  {
    var run := front + [last];
    LatestOfAppend(front, last, key);
    var purged := Unexpired(StateAfter(front), last.op.now);
    if key in purged { PurgedHolds(front, last, key); }
    else if LatestStore(front, key) >= 0 { PurgedMisses(front, last, key); }
    hide LatestStore, HoldsLatest, Crowded, CutToCap;
    assert StateAfter(run) == last.after;
    if last.op.Remember? {
      var before := purged[last.op.key := Entry(last.op.response, last.op.now + TTL)];
      if key in before && key !in last.after { EvictedIsCrowded(run, before, key); }
    }
  }

  lemma StepKeepsCap(m: Responses, op: Op, m': Responses)
    requires |m| <= MAX_ENTRIES && Moves(m, op, m')
    ensures |m'| <= MAX_ENTRIES
  {
    if op.Lookup? {
      assert m.Keys == m'.Keys + (m.Keys - m'.Keys);
      assert |m.Keys| == |m'.Keys| + |m.Keys - m'.Keys|;
    }
  }

  /** Over every run: never more entries than the cap, every entry is the latest store of its key, and
      what is missing has expired or was crowded out by the cap's number of stores no older than it. */
  lemma {:induction false} RunIsExplained(run: seq<Move>)
    requires IsRun(run)
    ensures Explained(run)
  {
    if run != [] {
      var front, last := run[..|run| - 1], run[|run| - 1];
      RunIsExplained(front);
      StepKeepsCap(StateAfter(front), last.op, last.after);
      hide Moves, HoldsLatest, MissExplained;
      forall k ensures HoldsLatest(front + [last], k) {
        StepHoldsLatest(front, last, k);
      }
      forall k ensures MissExplained(front + [last], k) {
        assert HoldsLatest(front, k) && MissExplained(front, k);
        StepExplainsMiss(front, last, k);
      }
      assert run == front + [last];
    }
  }

  lemma {:induction false} ClockRuns(run: seq<Move>, i: nat)
    requires IsRun(run) && i < |run|
    ensures run[i].op.now <= Now(run)
  {
    hide Moves;
    if i < |run| - 1 { ClockRuns(run[..|run| - 1], i); }
  }

  /** What a lookup can say after any run.  A hit is the latest response stored for the key, at most a
      day old; a miss means that nothing was stored, or that the latest store has expired or has been
      crowded out by 10000 other keys stored no earlier. */
  lemma LookupMeansLatest(run: seq<Move>, key: string)
    requires IsRun(run) && run != []
    ensures var j := LatestStore(run, key);
      match Answer(StateAfter(run), key)
      case Some(response) => j >= 0 && response == run[j].op.response && 0 <= Now(run) - run[j].op.now <= 86_400_000_000_000
      case None => j < 0 || Now(run) - run[j].op.now > 86_400_000_000_000 || Crowded(run, key, run[j].op.now)
    ensures |StateAfter(run)| <= 10_000
  {
    RunIsExplained(run);
    var j := LatestStore(run, key);
    if j >= 0 {
      ClockRuns(run, j);
      hide LatestStore, IsRun, Crowded;
    }
    assert HoldsLatest(run, key) && MissExplained(run, key);
  }

  // ------------------------------------------------------------------ when a lookup hits

  /** As long as a key is held, so is every key that was stored strictly later, and it expires later. */
  predicate LaterStays(run: seq<Move>, key: string, other: string) {
    var m := StateAfter(run);
    key in m && StoredSince(run, other, m[key].expiresAt - TTL + 1) ==>
      other in m && m[other].expiresAt > m[key].expiresAt
  }

  lemma StoredSinceAppend(front: seq<Move>, last: Move, key: string, t: int)
    requires forall i :: 0 <= i < |front| ==> front[i].op.now <= last.op.now
    ensures StoredSince(front + [last], key, t) <==>
      StoredSince(front, key, t) || (last.op.Remember? && last.op.key == key && last.op.now >= t)
    ensures StoredSince(front, key, t) ==> t <= last.op.now
  {
    var run := front + [last];
    assert run[|front|] == last;
    if StoredSince(front, key, t) { StoredStaysStored(front, last, key, t); }
  }

  lemma StepKeepsLater(front: seq<Move>, last: Move, key: string, other: string)
    requires LaterStays(front, key, other) && Moves(StateAfter(front), last.op, last.after)
    requires forall i :: 0 <= i < |front| ==> front[i].op.now <= last.op.now
    ensures LaterStays(front + [last], key, other)
  {
    var run, m, m', now := front + [last], StateAfter(front), last.after, last.op.now;
    assert StateAfter(run) == m';
    if key in m' {
      var t := m'[key].expiresAt - TTL + 1;
      StoredSinceAppend(front, last, other, t);
      hide StoredSince;
      if StoredSince(run, other, t) {
        LaterIsKept(m, last.op, m', key, other, StoredSince(front, other, t));
      }
    }
  }

  /** One step: `before` says that the other key was already stored later than the key. */
  lemma LaterIsKept(m: Responses, op: Op, m': Responses, key: string, other: string, before: bool)
    requires Moves(m, op, m') && key in m'
    requires m'[key].expiresAt - TTL + 1 <= op.now
    requires before && key in m && m'[key].expiresAt == m[key].expiresAt ==>
      other in m && m[other].expiresAt > m[key].expiresAt
    requires before || (op.Remember? && op.key == other)
    ensures other in m' && m'[other].expiresAt > m'[key].expiresAt
  {
  }

  lemma {:induction false} LaterStaysInRun(run: seq<Move>, key: string, other: string)
    requires IsRun(run)
    ensures LaterStays(run, key, other)
  {
    if run != [] {
      var front, last := run[..|run| - 1], run[|run| - 1];
      LaterStaysInRun(front, key, other);
      forall i | 0 <= i < |front| ensures front[i].op.now <= last.op.now {
        ClockRuns(run, i);
      }
      hide Moves, LaterStays;
      StepKeepsLater(front, last, key, other);
      assert run == front + [last];
    }
  }

  lemma CrowdIsHeld(run: seq<Move>, key: string, others: set<string>)
    requires IsRun(run) && run != [] && LatestStore(run, key) >= 0
    requires IsCrowd(run, key, run[LatestStore(run, key)].op.now + 1, others)
    ensures key in StateAfter(run) ==> others <= StateAfter(run).Keys
  {
    RunIsExplained(run);
    assert HoldsLatest(run, key);
    hide LatestStore, StoredSince, IsRun, Explained;
    forall k | k in others ensures key in StateAfter(run) ==> k in StateAfter(run) {
      LaterStaysInRun(run, key, k);
    }
  }

  lemma NoRoom(others: set<string>, key: string, keys: set<string>)
    requires |others| == MAX_ENTRIES && key !in others
    ensures others + {key} <= keys ==> |keys| > MAX_ENTRIES
  {
    var all := others + {key};
    assert |all| == MAX_ENTRIES + 1;
    if all <= keys {
      assert keys == all + (keys - all);
      assert |keys| == |all| + |keys - all|;
    }
  }

  /** 10000 other keys stored strictly later leave no room for a key. */
  lemma CrowdForcesMiss(run: seq<Move>, key: string)
    requires IsRun(run) && run != [] && LatestStore(run, key) >= 0
    requires Crowded(run, key, run[LatestStore(run, key)].op.now + 1)
    ensures key !in StateAfter(run)
  {
    var others :| IsCrowd(run, key, run[LatestStore(run, key)].op.now + 1, others);
    CrowdIsHeld(run, key, others);
    RunIsExplained(run);
    hide LatestStore, StoredSince, IsRun, HoldsLatest, MissExplained;
    NoRoom(others, key, StateAfter(run).Keys);
    assert |StateAfter(run).Keys| == |StateAfter(run)|;
  }

  /** No other key was stored at exactly this time. */
  predicate OnlyStoreAt(run: seq<Move>, key: string, t: int) {
    forall i :: 0 <= i < |run| && run[i].op.Remember? && run[i].op.key != key ==> run[i].op.now != t
  }

  lemma CrowdIsLater(run: seq<Move>, key: string, t: int)
    requires Crowded(run, key, t) && OnlyStoreAt(run, key, t)
    ensures Crowded(run, key, t + 1)
  {
    var others :| IsCrowd(run, key, t, others);
    forall k | k in others ensures StoredSince(run, k, t + 1) {
      assert StoredSince(run, k, t);
    }
    assert IsCrowd(run, key, t + 1, others);
  }

  /** A stored key misses when it has expired or 10000 other keys were stored strictly later.  When no other
      key was stored at the very time of its latest store, it hits exactly when it has not expired and fewer
      than 10000 other keys were stored since. */
  lemma LookupHitsIff(run: seq<Move>, key: string)
    requires IsRun(run) && run != [] && LatestStore(run, key) >= 0
    ensures var stored := run[LatestStore(run, key)].op.now;
      && (Now(run) - stored > 86_400_000_000_000 || Crowded(run, key, stored + 1) ==> Answer(StateAfter(run), key) == None)
      && (OnlyStoreAt(run, key, stored) ==>
            (Answer(StateAfter(run), key).Some? <==> Now(run) - stored <= 86_400_000_000_000 && !Crowded(run, key, stored)))
  {
    LookupMeansLatest(run, key);
    var stored := run[LatestStore(run, key)].op.now;
    hide IsRun, LatestStore, Crowded, OnlyStoreAt;
    if Crowded(run, key, stored) && OnlyStoreAt(run, key, stored) { CrowdIsLater(run, key, stored); }
    if Crowded(run, key, stored + 1) { CrowdForcesMiss(run, key); }
  }

  // ------------------------------------------------------------------ overlapping requests

  /** Looking up and storing are two critical sections: two requests with one key that overlap both
      miss, both create, and the second response replaces the first. */
  lemma OverlappingRequestsBothMiss(key: string, first: Response, second: Response)
    ensures var run := [
        Move(Lookup(key, 0), map[]), Move(Lookup(key, 0), map[]),
        Move(Remember(key, first, 0), map[key := Entry(first, TTL)]),
        Move(Remember(key, second, 0), map[key := Entry(second, TTL)])];
      && IsRun(run)
      && Answer(run[0].after, key) == None && Answer(run[1].after, key) == None
      && Answer(StateAfter(run), key) == Some(second)
  {
    var empty: Responses := map[];
    var a, b := Move(Lookup(key, 0), empty), Move(Lookup(key, 0), empty);
    var c := Move(Remember(key, first, 0), map[key := Entry(first, TTL)]);
    var d := Move(Remember(key, second, 0), map[key := Entry(second, TTL)]);
    assert Unexpired(empty, 0) == empty;
    assert Unexpired(c.after, 0) == c.after;
    assert c.after[key := Entry(second, TTL)] == d.after;
    assert |c.after| == 1 && |d.after| == 1;
    assert Moves(empty, c.op, c.after) && Moves(c.after, d.op, d.after);
    hide Moves, Unexpired;
    assert [a, b, c, d][..3] == [a, b, c] && [a, b, c][..2] == [a, b] && [a, b][..1] == [a] && [a][..0] == [];
    assert IsRun([]);
    assert IsRun([a]) && IsRun([a, b]) && IsRun([a, b, c]);
  }
}

/** Creating an inbox behind the idempotency cache: look the key up, create, remember the response. */
module CreateInboxHandler {
  import opened Wrappers
  import opened Text
  import opened Domain
  import opened Lifecycle
  import opened Services
  import I = Idempotency

  const STATUS_CREATED := 201

  /** One request; `id` and `token`, as far as they could be generated, and the two clock readings are what it
      meets on its way. */
  datatype Call = Call(
    httpMethod: string, path: string, idempotencyKey: string, input: CreateInboxInput, id: Option<string>,
    token: Option<string>, readAt: int, storedAt: int)

  datatype Reply = Replayed(response: I.Response) | Fresh(response: I.Response) | Refused(error: StoreError)

  function KeyOf(call: Call): string {
    I.CacheKey(call.httpMethod, call.path, TrimSpace(call.idempotencyKey))
  }

  predicate HasKey(call: Call) {
    TrimSpace(call.idempotencyKey) != ""
  }

  function Looked(m: I.Responses, call: Call): I.Responses {
    if HasKey(call) then I.Unexpired(m, call.readAt) else m
  }

  /** What one request does to the cache and to the store; `payload` writes the output as JSON. */
  ghost predicate Serves(m: I.Responses, s: State, baseURL: string, call: Call, payload: CreateInboxOutput -> string,
                         m': I.Responses, s': State, reply: Reply)
  {
    var looked := Looked(m, call);
    if HasKey(call) && KeyOf(call) in looked then
      reply == Replayed(looked[KeyOf(call)].response) && m' == looked && s' == s
    else if !IsValidCreate(call.input) then reply == Refused(InvalidInput) && m' == looked && s' == s
    else if call.id.None? || call.token.None? then reply == Refused(GeneratorFailed) && m' == looked && s' == s
    else if TokenTaken(s, call.token.value) then reply == Refused(Conflict) && m' == looked && s' == s
    else
      var inbox := NewInbox(call.input, call.id.value, call.token.value);
      && reply == Fresh(I.Response(STATUS_CREATED, payload(OutputFor(baseURL, call.input, inbox))))
      && s' == s.(inboxes := s.inboxes[inbox.id := inbox])
      && if HasKey(call) then I.Moves(looked, I.Remember(KeyOf(call), reply.response, call.storedAt), m') else m' == looked
  }

  method HandleCreateInbox(cache: I.Cache, services: Services, call: Call, payload: CreateInboxOutput -> string)
    returns (reply: Reply)
    requires cache.Valid()
    modifies cache, services.store
    ensures cache.Valid()
    ensures Serves(old(cache.responses), old(services.store.View()), services.publicBaseURL, call, payload,
      cache.responses, services.store.View(), reply)
    ensures reply.Fresh? ==> reply.response.statusCode == 201
  {
    hide TrimSpace, I.CacheKey, IsValidCreate, I.CutToCap, OutputFor;
    var idempoKey := TrimSpace(call.idempotencyKey);
    var cached := cache.ReadIdempotencyResponse(call.httpMethod, call.path, idempoKey, call.readAt);
    if cached.Some? {
      return Replayed(cached.value);
    }
    var created := services.CreateInbox(call.input, call.id, call.token);
    if created.Err? {
      return Refused(created.error);
    }
    var response := I.Response(STATUS_CREATED, payload(created.value));
    if idempoKey != "" {
      cache.StoreIdempotencyResponse(call.httpMethod, call.path, idempoKey, response, call.storedAt);
    }
    return Fresh(response);
  }

  lemma LookupAddsNoStore(run: seq<I.Move>, op: I.Op, after: I.Responses, key: string, t: int)
    requires op.Lookup?
    ensures I.LatestStore(run + [I.Move(op, after)], key) == I.LatestStore(run, key)
    ensures I.Crowded(run + [I.Move(op, after)], key, t) ==> I.Crowded(run, key, t)
  {
    var longer := run + [I.Move(op, after)];
    I.LatestOfAppend(run, I.Move(op, after), key);
    hide I.LatestStore;
    if I.Crowded(longer, key, t) {
      var others :| I.IsCrowd(longer, key, t, others);
      forall k | k in others ensures I.StoredSince(run, k, t) {
        assert I.StoredSince(longer, k, t);
      }
      assert I.IsCrowd(run, key, t, others);
    }
  }

  /** A request that created an inbox under a key leaves its response as the latest store of that key. */
  lemma FreshIsRemembered(run: seq<I.Move>, s: State, baseURL: string, call: Call,
        payload: CreateInboxOutput -> string, m': I.Responses,
        s': State, reply: Reply)
    requires I.IsRun(run) && Serves(I.StateAfter(run), s, baseURL, call, payload, m', s', reply)
    requires HasKey(call) && reply.Fresh? && call.readAt <= call.storedAt && (run != [] ==> I.Now(run) <= call.readAt)
    ensures var run' := run + [I.Move(I.Lookup(KeyOf(call), call.readAt), Looked(I.StateAfter(run), call)),
                               I.Move(I.Remember(KeyOf(call), reply.response, call.storedAt), m')];
      && I.IsRun(run') && I.StateAfter(run') == m'
      && I.LatestStore(run', KeyOf(call)) == |run'| - 1
  {
    hide I.Moves, KeyOf, HasKey, IsValidCreate, I.Unexpired, TokenTaken, NewInbox;
    var looked := Looked(I.StateAfter(run), call);
    var first := I.Move(I.Lookup(KeyOf(call), call.readAt), looked);
    var second := I.Move(I.Remember(KeyOf(call), reply.response, call.storedAt), m');
    assert I.Moves(I.StateAfter(run), first.op, looked) by { LookupMoves(run, call); }
    assert run + [first, second] == run + [first] + [second];
    assert (run + [first])[..|run|] == run && (run + [first] + [second])[..|run| + 1] == run + [first];
    assert I.IsRun(run + [first]);
  }

  lemma LookupMoves(run: seq<I.Move>, call: Call)
    requires HasKey(call)
    ensures I.Moves(I.StateAfter(run), I.Lookup(KeyOf(call), call.readAt), Looked(I.StateAfter(run), call))
  {
    hide HasKey, KeyOf;
  }

  /** A retry that does not overlap the stores before it is answered with the latest stored response and
      creates nothing, as long as that response is at most a day old and was not crowded out. */
  lemma RetryReplays(run: seq<I.Move>, s: State, baseURL: string, call: Call,
        payload: CreateInboxOutput -> string, m': I.Responses,
        s': State, reply: Reply)
    requires I.IsRun(run) && Serves(I.StateAfter(run), s, baseURL, call, payload, m', s', reply)
    requires HasKey(call) && I.LatestStore(run, KeyOf(call)) >= 0
    requires var stored := run[I.LatestStore(run, KeyOf(call))].op.now;
      I.Now(run) <= call.readAt <= stored + 86_400_000_000_000 && !I.Crowded(run, KeyOf(call), stored)
    ensures reply == Replayed(run[I.LatestStore(run, KeyOf(call))].op.response) && s' == s
  {
    var key, looked := KeyOf(call), Looked(I.StateAfter(run), call);
    var j, last := I.LatestStore(run, key), I.Move(I.Lookup(key, call.readAt), looked);
    var longer := run + [last];
    hide KeyOf, IsValidCreate, NewInbox, I.LatestStore, I.Crowded, I.CutToCap;
    assert longer[..|run|] == run;
    assert I.IsRun(longer);
    LookupAddsNoStore(run, last.op, looked, key, run[j].op.now);
    assert longer[j] == run[j];
    I.LookupMeansLatest(longer, key);
  }
}

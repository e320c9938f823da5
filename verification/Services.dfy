/** The service layer over the in-memory store: what it checks, what it fills in, and which store step
    each of its operations takes. */
module Services {
  import opened Wrappers
  import opened Text
  import opened Time
  import opened Domain
  import opened Histogram
  import opened Folds
  import opened Rollups
  import opened Summaries
  import opened Breakdowns
  import opened Pages
  import opened RequestFilters
  import opened Snapshots
  import opened InboxStats
  import opened Lifecycle
  import opened MemoryStore
  import opened MonitoringInputs
  import opened Ulid

  datatype CreateInboxInput = CreateInboxInput(
    name: string, description: Option<string>, retentionDays: Option<int>, now: int,
    requestHost: string, requestProto: string)

  datatype CreateInboxOutput = CreateInboxOutput(inbox: Inbox, publicCaptureURL: string)

  datatype CaptureInput = CaptureInput(
    token: string, httpMethod: string, path: string, queryParams: map<string, string>,
    headers: map<string, string>, bodyRaw: string, contentType: string, remoteIP: string, userAgent: string,
    receivedAt: int)

  /** One step of the state machine, taken between two states of the store. */
  ghost predicate Takes(before: State, step: Lifecycle.Step, after: State) {
    var w := World(before, map[]);
    Enabled(w, step) && after == Next(w, step).store
  }

  /** A lookup and nothing else, which leaves no capture pending. */
  ghost predicate OnlyLooksUp(before: State, token: string, answer: Result<Inbox, StoreError>, after: State) {
    var w, lookup := World(before, map[]), Lookup(0, token, answer);
    Enabled(w, lookup) && Next(w, lookup) == World(after, map[])
  }

  /** A lookup that finds an inbox, and then the store of a request for that inbox. */
  ghost predicate LooksUpAndStores(before: State, token: string, inbox: Inbox, request: CapturedRequest, after: State) {
    var w, lookup, storing := World(before, map[]), Lookup(0, token, Ok(inbox)), Lifecycle.Step.Store(0, request);
    && Enabled(w, lookup)
    && var found := Next(w, lookup);
    && found.store == before && Enabled(found, storing) && Next(found, storing) == World(after, map[])
  }

  predicate IsValidCreate(input: CreateInboxInput) {
    TrimSpace(input.name) != "" && (input.retentionDays.Some? ==> input.retentionDays.value > 0)
  }

  function NewInbox(input: CreateInboxInput, id: string, token: string): Inbox {
    Inbox(id, TrimSpace(input.name), token, ACTIVE, input.description, input.retentionDays, input.now, input.now, None, None)
  }

  function WithoutSlash(s: string): string {
    if s != "" && s[|s| - 1] == '/' then s[..|s| - 1] else s
  }

  /** Where the inbox takes calls: under the configured address, or else under the one that was asked. */
  function CaptureURL(publicBaseURL: string, token: string, requestHost: string, requestProto: string): string {
    var base :=
      if publicBaseURL == "" then (if requestProto == "" then "https" else requestProto) + "://" + requestHost
      else publicBaseURL;
    WithoutSlash(base) + "/hook/" + token
  }

  /** A slash at the end of the address makes no difference, and without a configured address the one that was asked
      takes its place, by default over HTTPS. */
  lemma CaptureURLIs(base: string, token: string, host: string, proto: string)
    ensures base != "" && base[|base| - 1] != '/' ==>
      CaptureURL(base, token, host, proto) == base + "/hook/" + token == CaptureURL(base + "/", token, host, proto)
    ensures CaptureURL("", token, host, "") == CaptureURL("https://" + host, token, host, proto)
    ensures proto != "" ==> CaptureURL("", token, host, proto) == CaptureURL(proto + "://" + host, token, host, "")
  {
    hide WithoutSlash;
    SlashGoes(base);
    var asked := "https" + "://" + host;
    assert asked == "https://" + host by { Prefixed(host); }
  }

  lemma Prefixed(host: string)
    ensures "https" + "://" + host == "https://" + host
  {
    assert "https" + "://" == "https://";
  }

  lemma SlashGoes(base: string)
    ensures base != "" && base[|base| - 1] != '/' ==> WithoutSlash(base) == base && WithoutSlash(base + "/") == base
  {
  }

  /** A new inbox shows its input, and is live and active. */
  predicate IsNewFrom(inbox: Inbox, input: CreateInboxInput, id: string, token: string) {
    && inbox.id == id && inbox.token == token && inbox.name == TrimSpace(input.name) && inbox.status == "active"
    && inbox.description == input.description && inbox.retentionDays == input.retentionDays
    && inbox.createdAt == input.now && inbox.updatedAt == input.now && inbox.disabledAt == None && inbox.deletedAt == None
  }

  /** A captured request shows its input. */
  predicate IsCaptureOf(r: CapturedRequest, input: CaptureInput, id: string, inboxID: string, requestHash: string) {
    && r.id == id && r.inboxID == inboxID && r.requestHash == requestHash
    && EqualFold(r.httpMethod, input.httpMethod) && (forall c :: c in r.httpMethod ==> !('a' <= c <= 'z'))
    && r.path == input.path && r.queryParams == input.queryParams && r.headers == input.headers
    && r.bodyRaw == input.bodyRaw && r.bodySizeBytes == |input.bodyRaw| && r.contentType == input.contentType
    && r.remoteIP == input.remoteIP && r.userAgent == input.userAgent && r.receivedAt == input.receivedAt
  }

  lemma CaptureIsExact(input: CaptureInput, id: string, inboxID: string, requestHash: string)
    ensures IsCaptureOf(CapturedFrom(input, id, inboxID, requestHash), input, id, inboxID, requestHash)
  {
    CaseChanges(input.httpMethod);
    hide ToUpper, EqualFold;
  }

  /** An event shows the call it was recorded for. */
  predicate IsEventOf(event: LiveEvent, input: HookObservationInput, now: nat) {
    && event.observedAt == (if input.observedAt == 0 then now else input.observedAt)
    && (event.statusClass == "2xx" <==> 200 <= input.statusCode < 300)
    && (event.statusClass == "4xx" <==> 400 <= input.statusCode < 500)
    && (event.statusClass == "5xx" <==> !(200 <= input.statusCode < 300) && !(400 <= input.statusCode < 500))
    && event.statusCode == (if input.statusCode <= 0 then 500 else input.statusCode)
    && event.latencyMs == (if input.latencyMs < 0 then 0 else input.latencyMs)
    && event.bodySizeBytes == (if input.bodySizeBytes < 0 then 0 else input.bodySizeBytes)
    && event.inboxID == TrimSpace(input.inboxID) && event.path == input.path
    && event.remoteIP == input.remoteIP && event.userAgent == input.userAgent
    && IsFilledIn(event.httpMethod, input.httpMethod) && IsFilledIn(event.country, input.country)
  }

  lemma EventIsExact(input: HookObservationInput, now: nat)
    ensures IsEventOf(ToLive(ObservationFrom(input, now)), input, now)
  {
    ObservationShowsCall(input, now);
    hide ObservationFrom, IsFilledIn, TrimSpace;
  }

  function OutputFor(publicBaseURL: string, input: CreateInboxInput, inbox: Inbox): CreateInboxOutput {
    CreateInboxOutput(inbox, CaptureURL(publicBaseURL, inbox.token, input.requestHost, input.requestProto))
  }

  function CapturedFrom(input: CaptureInput, id: string, inboxID: string, requestHash: string): CapturedRequest {
    CapturedRequest(id, inboxID, ToUpper(input.httpMethod), input.path, input.queryParams, input.headers,
      input.bodyRaw, |input.bodyRaw|, input.contentType, input.remoteIP, input.userAgent, input.receivedAt, requestHash)
  }

  function Clamped(limit: int, default: nat, most: nat): (l: nat)
    requires 0 < default <= most
    ensures 0 < l <= most
    ensures 0 < limit <= most ==> l == limit
    ensures limit <= 0 ==> l == default
    ensures limit > most ==> l == most
  {
    if limit <= 0 then default else if limit > most then most else limit
  }

  /** One assessment for every row of the inbox statistics, in the same order. */
  ghost predicate IsHealthReport(items: seq<InboxHealth>, inboxes: map<string, Inbox>, events: seq<Observation>,
        q: MonitoringQuery) {
    exists stats ::
      && IsStats(stats, inboxes, events, q)
      && |items| == |stats|
      && forall i :: 0 <= i < |stats| ==> items[i] == HealthOf(stats[i])
  }

  /** The default order is newest first, and which requests are listed does not depend on the order. */
  lemma OrderDoesNotFilter(requests: map<string, CapturedRequest>, inboxID: string, f: ListFilter)
    ensures CapturedMatches(requests, inboxID, f.(order := "desc")) == CapturedMatches(requests, inboxID, f)
    ensures !EqualFold("desc", "asc") && !EqualFold("", "asc")
  {
    assert ToLower("desc")[0] == 'd' && ToLower("asc")[0] == 'a' && |ToLower("")| == 0;
    hide EqualFold, Contains, ToLower, TextMatches;
    forall k | k in requests ensures Passes(requests[k], f.(order := "desc")) <==> Passes(requests[k], f) {}
  }

  class Services {
    const store: Store
    const publicBaseURL: string
    const maxPayloadBytes: int
    const defaultRetentionDays: int

    constructor (store: Store, publicBaseURL: string, maxPayloadBytes: int, defaultRetentionDays: int)
      ensures this.store == store && this.publicBaseURL == WithoutSlash(publicBaseURL)
      ensures this.maxPayloadBytes == maxPayloadBytes && this.defaultRetentionDays == defaultRetentionDays
    {
      this.store, this.publicBaseURL := store, WithoutSlash(publicBaseURL);
      this.maxPayloadBytes, this.defaultRetentionDays := maxPayloadBytes, defaultRetentionDays;
    }

    // ---------------------------------------------------------------- inboxes and captures

    /** `id` and `token` are what the generators return, if they do not fail.  With a new ULID this is a step of
        the state machine. */
    method CreateInbox(input: CreateInboxInput, id: Option<string>, token: Option<string>)
      returns (r: Result<CreateInboxOutput, StoreError>)
      modifies store
      ensures !IsValidCreate(input) ==> r == Err(InvalidInput) && store.View() == old(store.View())
      ensures IsValidCreate(input) && (id.None? || token.None?) ==>
        r == Err(GeneratorFailed) && store.View() == old(store.View())
      ensures IsValidCreate(input) && id.Some? && token.Some? ==>
        var inbox := NewInbox(input, id.value, token.value);
        && store.View() == Created(old(store.View()), inbox).0
        && (r == if TokenTaken(old(store.View()), token.value) then Err(Conflict) else Ok(OutputFor(publicBaseURL, input, inbox)))
      ensures IsValidCreate(input) && id.Some? && token.Some? && id.value !in old(store.inboxes) && IsIdentifier(id.value) ==>
        Takes(old(store.View()), Create(NewInbox(input, id.value, token.value)), store.View())
      ensures r == Err(InvalidInput) <==>
        TrimSpace(input.name) == "" || (input.retentionDays.Some? && input.retentionDays.value <= 0)
      ensures r == Err(Conflict) <==> IsValidCreate(input) && id.Some? && token.Some? && exists k ::
        k in old(store.inboxes) && old(store.inboxes)[k].token == token.value && old(store.inboxes)[k].deletedAt.None?
      ensures r.Ok? ==>
        && id.Some? && token.Some? && IsNewFrom(r.value.inbox, input, id.value, token.value)
        && store.View() == old(store.View()).(inboxes := old(store.inboxes)[id.value := r.value.inbox])
    {
      hide TrimSpace, CaptureURL;
      if TrimSpace(input.name) == "" {
        return Err(InvalidInput);
      }
      if input.retentionDays.Some? && input.retentionDays.value <= 0 {
        return Err(InvalidInput);
      }
      if id.None? {
        return Err(GeneratorFailed);
      }
      if token.None? {
        return Err(GeneratorFailed);
      }
      var inbox := NewInbox(input, id.value, token.value);
      var created := store.CreateInbox(inbox);
      if created.Err? {
        return Err(created.error);
      }
      return Ok(CreateInboxOutput(inbox, CaptureURL(publicBaseURL, inbox.token, input.requestHost, input.requestProto)));
    }

    method GetInbox(id: string) returns (r: Result<Inbox, StoreError>)
      ensures r == if TrimSpace(id) == "" then Err(InvalidInput) else FoundByID(store.View(), id)
      ensures r.Ok? <==> TrimSpace(id) != "" && id in store.inboxes && store.inboxes[id].deletedAt.None?
      ensures r.Ok? ==> r.value == store.inboxes[id]
    {
      hide TrimSpace;
      if TrimSpace(id) == "" {
        return Err(InvalidInput);
      }
      r := store.GetInboxByID(id);
    }

    method UpdateInbox(id: string, patch: InboxPatch, now: int) returns (r: Result<Inbox, StoreError>)
      modifies store
      ensures !IsValidPatch(patch) ==> r == Err(InvalidInput) && store.View() == old(store.View())
      ensures IsValidPatch(patch) ==>
        var trimmed := if patch.name.Some? then patch.(name := Some(TrimSpace(patch.name.value))) else patch;
        && Takes(old(store.View()), Update(id, trimmed, now), store.View())
        && r == Updated(old(store.View()), id, trimmed, now).1
        && (r.Ok? <==> id in old(store.inboxes) && old(store.inboxes)[id].deletedAt.None?)
        && (r.Ok? ==>
              && IsPatched(old(store.inboxes)[id], r.value, trimmed, now)
              && store.View() == old(store.View()).(inboxes := old(store.inboxes)[id := r.value]))
        && (r.Err? ==> r.error == NotFound && store.View() == old(store.View()))
      ensures r == Err(InvalidInput) <==>
        || (patch.name.Some? && TrimSpace(patch.name.value) == "")
        || (patch.status.Some? && patch.status.value !in ["active", "disabled"])
        || (patch.retentionDays.Some? && patch.retentionDays.value <= 0)
    {
      hide TrimSpace, Patched, IsPatched;
      if patch.name.Some? && TrimSpace(patch.name.value) == "" {
        return Err(InvalidInput);
      }
      if patch.status.Some? && patch.status.value != ACTIVE && patch.status.value != DISABLED {
        return Err(InvalidInput);
      }
      if patch.retentionDays.Some? && patch.retentionDays.value <= 0 {
        return Err(InvalidInput);
      }
      var trimmed := patch;
      if patch.name.Some? {
        TrimAgain(patch.name.value);
        trimmed := trimmed.(name := Some(TrimSpace(patch.name.value)));
      }
      if id in store.inboxes { PatchIsExact(store.inboxes[id], trimmed, now); }
      r := store.UpdateInbox(id, trimmed, now);
    }

    method DeleteInbox(id: string, now: int) returns (r: Result<(), StoreError>)
      modifies store
      ensures Takes(old(store.View()), Delete(id, now), store.View())
      ensures r.Ok? <==> id in old(store.inboxes) && IsLive(old(store.inboxes)[id])
      ensures r.Err? ==> r.error == NotFound && store.View() == old(store.View())
      ensures r.Ok? ==>
        && old(store.inboxes)[id].deletedAt.None?
        && store.View() == old(store.View()).(inboxes :=
             old(store.inboxes)[id := old(store.inboxes)[id].(deletedAt := Some(now), updatedAt := now)])
    {
      r := store.SoftDeleteInbox(id, now);
    }

    /** A capture is refused for its size, for an unknown token, for a disabled inbox or for want of an ID, in
        this order; otherwise the request is kept under the inbox that the lookup found.  Within the state
        machine the call is one lookup step, followed by one store step when it succeeds. */
    method CaptureRequest(input: CaptureInput, id: Option<string>, requestHash: string)
      returns (r: Result<CapturedRequest, StoreError>)
      modifies store
      ensures r.Err? ==> store.View() == old(store.View())
      ensures r == Err(PayloadTooLarge) <==> |input.bodyRaw| > maxPayloadBytes
      ensures r == Err(NotFound) <==> |input.bodyRaw| <= maxPayloadBytes && !TokenTaken(old(store.View()), input.token)
      ensures r.Err? ==> r.error in {PayloadTooLarge, NotFound, InboxDisabled, GeneratorFailed}
      ensures r == Err(NotFound) ==> OnlyLooksUp(old(store.View()), input.token, Err(NotFound), store.View())
      ensures r == Err(InboxDisabled) ==>
        exists inbox :: FoundByToken(old(store.View()), input.token, Ok(inbox)) && inbox.status == DISABLED
          && OnlyLooksUp(old(store.View()), input.token, Ok(inbox), store.View())
      ensures r == Err(GeneratorFailed) ==> id.None?
      ensures r == Err(GeneratorFailed) ==>
        exists inbox :: FoundByToken(old(store.View()), input.token, Ok(inbox)) && inbox.status != DISABLED
          && Takes(old(store.View()), Lookup(0, input.token, Ok(inbox)), store.View())
      ensures r.Ok? ==>
        && id.Some?
        && store.View() == Captured(old(store.View()), r.value)
        && store.requests == old(store.requests)[id.value := r.value]
        && exists inbox :: FoundByToken(old(store.View()), input.token, Ok(inbox)) && inbox.status != DISABLED
             && r.value == CapturedFrom(input, id.value, inbox.id, requestHash)
             && IsCaptureOf(r.value, input, id.value, inbox.id, requestHash)
             && LooksUpAndStores(old(store.View()), input.token, inbox, r.value, store.View())
    {
      hide TrimSpace, ToUpper, IsCaptureOf;
      if |input.bodyRaw| > maxPayloadBytes {
        return Err(PayloadTooLarge);
      }
      var found := store.GetInboxByToken(input.token);
      if found.Err? {
        return Err(found.error);
      }
      var inbox := found.value;
      if inbox.status == DISABLED {
        return Err(InboxDisabled);
      }
      if id.None? {
        return Err(GeneratorFailed);
      }
      var request := CapturedFrom(input, id.value, inbox.id, requestHash);
      CaptureIsExact(input, id.value, inbox.id, requestHash);
      store.CreateCapturedRequest(request);
      return Ok(request);
    }

    method ValidateCaptureTarget(token: string) returns (r: Result<(), StoreError>)
      ensures r == Err(NotFound) <==> !TokenTaken(store.View(), token)
      ensures r.Err? ==> r.error in {NotFound, InboxDisabled}
      ensures r.Ok? ==> exists inbox :: FoundByToken(store.View(), token, Ok(inbox)) && inbox.status != DISABLED
      ensures r == Err(InboxDisabled) ==> exists inbox :: FoundByToken(store.View(), token, Ok(inbox)) && inbox.status == DISABLED
    {
      var found := store.GetInboxByToken(token);
      if found.Err? {
        return Err(found.error);
      }
      if found.value.status == DISABLED {
        return Err(InboxDisabled);
      }
      return Ok(());
    }

    method RunRetention(now: int) returns (deleted: int)
      modifies store
      ensures Takes(old(store.View()), Purge(now, defaultRetentionDays), store.View())
      ensures deleted == PurgedCount(old(store.View()), now, defaultRetentionDays)
      ensures deleted == |old(store.requests)| - |store.requests| && store.inboxes == old(store.inboxes)
      ensures forall k :: k in store.requests ==> k in old(store.requests) && store.requests[k] == old(store.requests)[k]
      ensures forall k :: k in old(store.requests) ==>
        (k in store.requests <==> IsKept(old(store.requests)[k], store.inboxes, now, defaultRetentionDays))
      ensures store.monitoringEvents == Select(old(store.monitoringEvents), LoggedSince(DaysAgo(now, defaultRetentionDays)))
    {
      PurgeKeeps(store.View(), now, defaultRetentionDays);
      hide KeptRequests, Retained, Select, IsKept, LoggedSince;
      deleted := store.DeleteExpiredCapturedRequests(now, defaultRetentionDays);
    }

    /** Unknown or deleted inboxes and unsound filters are refused; otherwise the page of the listing in the
        asked order, newest first by default.  `None` stands for the panic of an undefined slice. */
    method ListRequests(inboxID: string, given: ListFilter, page: Pagination)
      returns (r: Result<(Option<seq<Row>>, nat), StoreError>)
      requires forall k :: k in store.requests ==> store.requests[k].id == k
      ensures r == Err(NotFound) <==> FoundByID(store.View(), inboxID).Err?
      ensures r.Ok? <==> FoundByID(store.View(), inboxID).Ok? && IsValidFilter(given)
      ensures r.Err? ==> r.error in {NotFound, InvalidInput}
      ensures r.Ok? <==>
        && inboxID in store.inboxes && store.inboxes[inboxID].deletedAt.None?
        && (given.order == "" || EqualFold(given.order, "asc") || EqualFold(given.order, "desc"))
        && !(given.minBodySize.Some? && given.minBodySize.value < 0)
        && !(given.maxBodySize.Some? && given.maxBodySize.value < 0)
        && !(given.minBodySize.Some? && given.maxBodySize.Some? && given.minBodySize.value > given.maxBodySize.value)
      ensures r.Ok? ==>
        var matches := CapturedMatches(store.requests, inboxID, given);
        && r.value.1 == |matches|
        && (r.value.0.Some? ==> IsListing(r.value.0.value, matches, EqualFold(given.order, "asc"), page))
        && (|matches| <= INT64_MAX && page.pageSize <= INT64_MAX ==> (r.value.0.None? <==> Panics(|matches|, page)))
      ensures r.Ok? && r.value.0.Some? ==>
        var rows, matches, ascending := r.value.0.value, CapturedMatches(store.requests, inboxID, given), EqualFold(given.order, "asc");
        && InTimeOrder(rows, ascending)
        && (forall i :: 0 <= i < |rows| ==> ShowsMatch(rows[i], matches))
        && (page.page <= 1 && page.pageSize <= INT64_MAX ==> NoneBefore(rows, matches, ascending))
    {
      hide EqualFold, Panics, IsListing, InTimeOrder, ShowsMatch, NoneBefore;
      var found := store.GetInboxByID(inboxID);
      if found.Err? {
        return Err(found.error);
      }
      var filter := given;
      if filter.order != "" && !EqualFold(filter.order, "asc") && !EqualFold(filter.order, "desc") {
        return Err(InvalidInput);
      }
      if filter.minBodySize.Some? && filter.minBodySize.value < 0 {
        return Err(InvalidInput);
      }
      if filter.maxBodySize.Some? && filter.maxBodySize.value < 0 {
        return Err(InvalidInput);
      }
      if filter.minBodySize.Some? && filter.maxBodySize.Some? && filter.minBodySize.value > filter.maxBodySize.value {
        return Err(InvalidInput);
      }
      OrderDoesNotFilter(store.requests, inboxID, filter);
      if filter.order == "" {
        filter := filter.(order := "desc");
      }
      var rows, total := store.ListCapturedRequests(inboxID, filter, page);
      var matches := CapturedMatches(store.requests, inboxID, given);
      if rows.Some? { ListingIsOrdered(rows.value, matches, EqualFold(given.order, "asc"), page); }
      return Ok((rows, total));
    }

    // ---------------------------------------------------------------- monitoring

    /** Records the observation of one hook call and returns the event to publish. */
    method RecordHookObservation(input: HookObservationInput, now: nat) returns (event: LiveEvent)
      modifies store
      ensures store.View() ==
        old(store.View()).(counters := Recorded(old(store.View()).counters, ObservationFrom(input, now)))
      ensures input.inboxID == "" || input.inboxID in old(store.inboxes) ==>
        Takes(old(store.View()), Observe(input, now), store.View())
      ensures event == ToLive(ObservationFrom(input, now)) && IsEventOf(event, input, now)
      ensures store.monitoringEvents == old(store.monitoringEvents) + [ObservationFrom(input, now)]
    {
      EventIsExact(input, now);
      hide TrimSpace, ToUpper, TextBlob, StatusClassFromCode, Recorded, TruncateMinute, ObservationFrom;
      hide IsEventOf, ToLive, RollupKey, RollupAt, Grown, KeysOf, BumpedDims;
      var obs := NormalizedObservation(input, now);
      RecordedByField(store.View().counters, obs);
      store.RecordHookObservation(Some(obs));
      event := ToLive(obs);
    }

    /** The steps that turn the input into an observation, in order. */
    static method NormalizedObservation(given: HookObservationInput, now: nat) returns (obs: Observation)
      ensures obs == ObservationFrom(given, now)
    {
      hide TrimSpace, ToUpper, TextBlob, StatusClassFromCode, TruncateMinute;
      var input := given;
      var observedAt := input.observedAt;
      if observedAt == 0 {
        observedAt := now;
      }
      if input.latencyMs < 0 {
        input := input.(latencyMs := 0);
      }
      if input.bodySizeBytes < 0 {
        input := input.(bodySizeBytes := 0);
      }
      var httpMethod := ToUpper(TrimSpace(input.httpMethod));
      if httpMethod == "" {
        httpMethod := "UNKNOWN";
      }
      var statusCode := input.statusCode;
      if statusCode <= 0 {
        statusCode := 500;
      }
      var statusClass := StatusClassFromCode(statusCode);
      var country := ToUpper(TrimSpace(input.country));
      if country == "" {
        country := "UNKNOWN";
      }
      var textBlob := TextBlob(httpMethod, input.path, statusClass, input.remoteIP, country, input.userAgent, input.contentType);
      obs := Observation(observedAt, TruncateMinute(observedAt), TrimSpace(input.inboxID), httpMethod, input.path,
        statusCode, statusClass, input.latencyMs, input.bodySizeBytes, input.hasBody, input.remoteIP,
        input.userAgent, country, input.contentType, textBlob);
    }

    method GetMonitoringSummary(q: MonitoringQuery, now: int) returns (r: Result<Summary, StoreError>)
      ensures r == if IsAcceptable(q, now) then Ok(SummaryOf(store.monitoringEvents, NormalForm(q, now))) else Err(InvalidInput)
      ensures r.Ok? && (forall o :: o in store.monitoringEvents ==> WellFormed(o)) ==>
        var normal := NormalForm(q, now);
        Summarises(r.value, Select(store.monitoringEvents, Matching(normal)), normal.from, normal.to)
    {
      hide SummaryOf, NormalForm, IsAcceptable, WellFormed, Summarises, Select, Matching;
      if forall o :: o in store.monitoringEvents ==> WellFormed(o) {
        SummaryIsExact(store.monitoringEvents, NormalForm(q, now));
      }
      var normalized := NormalizeMonitoringQuery(q, now);
      if normalized.Err? {
        return Err(normalized.error);
      }
      var summary := store.GetMonitoringSummary(normalized.value);
      return Ok(summary);
    }

    /** The answer has one point for every minute of the window, and never more than 43201. */
    method GetMonitoringTimeseries(q: MonitoringQuery, now: int) returns (r: Result<seq<Point>, StoreError>)
      ensures r == if IsAcceptable(q, now) then Ok(PointsOf(store.monitoringEvents, NormalForm(q, now))) else Err(InvalidInput)
      ensures r.Ok? ==> 1 <= |r.value| <= 43201
      ensures r.Ok? && (forall o :: o in store.monitoringEvents ==> WellFormed(o)) ==>
        forall i :: 0 <= i < |r.value| ==>
          var point, normal := r.value[i], NormalForm(q, now);
          && point.ts == TruncateMinute(normal.from) + i * 60_000_000_000
          && Plots(point, Select(store.monitoringEvents, MatchingBetween(normal, point.ts, point.ts + 60_000_000_000)))
    {
      hide PointsOf, NormalForm, IsAcceptable, WellFormed, Plots, Select, MatchingBetween, TruncateMinute, PointCount;
      var normalized := NormalizeMonitoringQuery(q, now);
      if normalized.Err? {
        return Err(normalized.error);
      }
      NormalizeAgain(q, now, now);
      PointsCoverWindow(store.monitoringEvents, normalized.value);
      var points := store.GetMonitoringTimeseries(normalized.value);
      if forall o :: o in store.monitoringEvents ==> WellFormed(o) {
        forall i | 0 <= i < |points|
          ensures points[i].ts == TruncateMinute(normalized.value.from) + i * 60_000_000_000
          ensures Plots(points[i],
            Select(store.monitoringEvents, MatchingBetween(normalized.value, points[i].ts, points[i].ts + 60_000_000_000)))
        {
          PointAt(store.monitoringEvents, normalized.value, i);
          PointIsExact(store.monitoringEvents, normalized.value, i);
        }
      }
      return Ok(points);
    }

    method GetMonitoringBreakdown(q: MonitoringQuery, dimension: string, limit: int, now: int)
      returns (r: Result<seq<Item>, StoreError>)
      ensures r.Ok? <==> IsAcceptable(q, now) && ToLower(TrimSpace(dimension)) in DIMENSIONS
      ensures r.Err? ==> r.error == InvalidInput
      ensures r.Ok? ==>
        var selected, dim := Select(store.monitoringEvents, Matching(NormalForm(q, now))), ToLower(TrimSpace(dimension));
        && IsBreakdown(r.value, ValueCounts(selected, dim), dim, |selected|, Clamped(limit, 10, 100))
        && IsTopOf(r.value, selected, dim, Clamped(limit, 10, 100))
    {
      hide NormalForm, IsAcceptable, TrimSpace, ToLower, Select, ValueCounts, IsBreakdown, IsTopOf;
      var normalized := NormalizeMonitoringQuery(q, now);
      if normalized.Err? {
        return Err(normalized.error);
      }
      var dim := ToLower(TrimSpace(dimension));
      if dim !in DIMENSIONS {
        return Err(InvalidInput);
      }
      var l := limit;
      if l <= 0 {
        l := 10;
      }
      if l > 100 {
        l := 100;
      }
      var items := store.GetMonitoringBreakdown(normalized.value, dim, l);
      BreakdownIsExact(items, Select(store.monitoringEvents, Matching(normalized.value)), dim, l);
      return Ok(items);
    }

    /** The health of every listed inbox, in an order of creation. */
    method GetMonitoringInboxHealth(q: MonitoringQuery, now: int) returns (r: Result<seq<InboxHealth>, StoreError>)
      requires forall k :: k in store.inboxes ==> store.inboxes[k].id == k
      ensures r.Ok? <==> IsAcceptable(q, now)
      ensures r.Err? ==> r.error == InvalidInput
      ensures r.Ok? ==> IsHealthReport(r.value, store.inboxes, store.monitoringEvents, NormalForm(q, now))
      ensures r.Ok? ==> IsReport(r.value, store.inboxes, store.monitoringEvents, NormalForm(q, now))
    {
      hide NormalForm, IsAcceptable, IsStats, HealthOf, IsReport;
      var normalized := NormalizeMonitoringQuery(q, now);
      if normalized.Err? {
        return Err(normalized.error);
      }
      var stats := store.ListMonitoringInboxStats(normalized.value);
      var items: seq<InboxHealth> := [];
      for i := 0 to |stats|
        invariant |items| == i && forall j :: 0 <= j < i ==> items[j] == HealthOf(stats[j])
      {
        var health := AssessHealth(stats[i]);
        items := items + [health];
      }
      ReportIsExact(items, stats, store.inboxes, store.monitoringEvents, normalized.value);
      return Ok(items);
    }

    /** The body of the health loop. */
    static method AssessHealth(st: InboxStat) returns (health: InboxHealth)
      ensures health == HealthOf(st)
    {
      hide Percentile;
      var errorRate := 0.0;
      if st.requests > 0 {
        errorRate := st.errors as real / st.requests as real * 100.0;
      }
      var p95 := PercentileFromBuckets(st.buckets, st.requests, P95);
      var state := HEALTHY;
      if st.requests == 0 {
        state := NO_TRAFFIC;
      } else if errorRate >= ERROR_RATE_THRESHOLD || p95 >= P95_THRESHOLD_MS {
        state := UNSTABLE;
      }
      health := InboxHealth(st.inboxID, st.inboxName, state, st.requests, st.errors, errorRate, p95);
    }

    method GetMonitoringLiveSnapshot(q: MonitoringQuery, limit: int, now: int)
      returns (r: Result<seq<LiveEvent>, StoreError>)
      ensures r.Ok? <==> IsAcceptable(q, now)
      ensures r.Err? ==> r.error == InvalidInput
      ensures r.Ok? ==> exists listed ::
        IsSnapshot(listed, Select(store.monitoringEvents, Matching(NormalForm(q, now))), Clamped(limit, 50, 500))
        && |r.value| == |listed| && forall i :: 0 <= i < |listed| ==> r.value[i] == ToLive(listed[i])
    {
      hide NormalForm, IsAcceptable, IsSnapshot, Select;
      var normalized := NormalizeMonitoringQuery(q, now);
      if normalized.Err? {
        return Err(normalized.error);
      }
      var l := limit;
      if l <= 0 {
        l := 50;
      }
      if l > 500 {
        l := 500;
      }
      var events := store.ListMonitoringLiveEvents(normalized.value, l);
      return Ok(events);
    }
  }
}

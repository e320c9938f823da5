/** Inboxes, captured requests and retention: the effect of each store operation as a value, and what
    every interleaving of the service's steps keeps. */
module Lifecycle {
  import opened Wrappers
  import opened Text
  import opened Time
  import opened Domain
  import opened Folds
  import opened MonitoringInputs
  import opened Rollups
  import opened CounterRuns
  import opened Ulid

  datatype State = State(inboxes: map<string, Inbox>, requests: map<string, CapturedRequest>, counters: Counters)

  const EMPTY_STATE := State(map[], map[], NO_COUNTERS)

  predicate IsLive(inbox: Inbox) {
    inbox.deletedAt.None?
  }

  // ------------------------------------------------------------------ store operations

  predicate TokenTaken(s: State, token: string) {
    exists k :: k in s.inboxes && s.inboxes[k].token == token && IsLive(s.inboxes[k])
  }

  function Created(s: State, inbox: Inbox): (State, Result<(), StoreError>) {
    if TokenTaken(s, inbox.token) then (s, Err(Conflict))
    else (s.(inboxes := s.inboxes[inbox.id := inbox]), Ok(()))
  }

  function FoundByID(s: State, id: string): Result<Inbox, StoreError> {
    if id !in s.inboxes || !IsLive(s.inboxes[id]) then Err(NotFound) else Ok(s.inboxes[id])
  }

  /** The lookup walks the map in an arbitrary order, so it may answer with any live inbox of the token. */
  ghost predicate FoundByToken(s: State, token: string, r: Result<Inbox, StoreError>) {
    match r
    case Ok(inbox) => inbox in s.inboxes.Values && inbox.token == token && IsLive(inbox)
    case Err(e) => e == NotFound && !TokenTaken(s, token)
  }

  function Patched(inbox: Inbox, patch: InboxPatch, now: int): Inbox {
    var named := if patch.name.Some? then inbox.(name := patch.name.value) else inbox;
    var described := if patch.description.Some? then named.(description := patch.description) else named;
    var dated := if patch.retentionDays.Some? then described.(retentionDays := patch.retentionDays) else described;
    var marked :=
      if patch.status.Some? then
        dated.(status := patch.status.value, disabledAt := if patch.status.value == DISABLED then Some(now) else None)
      else dated;
    marked.(updatedAt := now)
  }

  /** What a patch changes, field by field. */
  predicate IsPatched(before: Inbox, after: Inbox, patch: InboxPatch, now: int) {
    && after.id == before.id && after.token == before.token && after.createdAt == before.createdAt
    && after.deletedAt == before.deletedAt && after.updatedAt == now
    && after.name == (if patch.name.Some? then patch.name.value else before.name)
    && after.description == (if patch.description.Some? then patch.description else before.description)
    && after.retentionDays == (if patch.retentionDays.Some? then patch.retentionDays else before.retentionDays)
    && after.status == (if patch.status.Some? then patch.status.value else before.status)
    && (patch.status.None? ==> after.disabledAt == before.disabledAt)
    && (patch.status == Some("disabled") ==> after.disabledAt == Some(now))
    && (patch.status.Some? && patch.status.value != "disabled" ==> after.disabledAt == None)
  }

  lemma PatchIsExact(before: Inbox, patch: InboxPatch, now: int)
    ensures IsPatched(before, Patched(before, patch, now), patch, now)
  {
  }

  function Updated(s: State, id: string, patch: InboxPatch, now: int): (State, Result<Inbox, StoreError>) {
    if id !in s.inboxes || !IsLive(s.inboxes[id]) then (s, Err(NotFound)) else
      var inbox := Patched(s.inboxes[id], patch, now);
      (s.(inboxes := s.inboxes[id := inbox]), Ok(inbox))
  }

  function SoftDeleted(s: State, id: string, now: int): (State, Result<(), StoreError>) {
    if id !in s.inboxes || !IsLive(s.inboxes[id]) then (s, Err(NotFound)) else
      (s.(inboxes := s.inboxes[id := s.inboxes[id].(deletedAt := Some(now), updatedAt := now)]), Ok(()))
  }

  function Captured(s: State, request: CapturedRequest): State {
    s.(requests := s.requests[request.id := request])
  }

  // ------------------------------------------------------------------ retention

  function Cutoff(now: int, days: int): int {
    now - days * DAY
  }

  /** How long an inbox keeps requests: its own positive setting, or the default. */
  function DaysOf(inbox: Inbox, defaultDays: int): int {
    if inbox.retentionDays.Some? && inbox.retentionDays.value > 0 then inbox.retentionDays.value else defaultDays
  }

  predicate IsExpired(inboxes: map<string, Inbox>, request: CapturedRequest, now: int, defaultDays: int) {
    request.inboxID in inboxes
    && request.receivedAt < Cutoff(now, DaysOf(inboxes[request.inboxID], defaultDays))
  }

  function KeptRequests(s: State, now: int, defaultDays: int): map<string, CapturedRequest> {
    map k | k in s.requests && !IsExpired(s.inboxes, s.requests[k], now, defaultDays) :: s.requests[k]
  }

  function Purged(s: State, now: int, defaultDays: int): State {
    State(s.inboxes, KeptRequests(s, now, defaultDays), Retained(s.counters, Cutoff(now, defaultDays)))
  }

  function PurgedCount(s: State, now: int, defaultDays: int): int {
    |s.requests| - |KeptRequests(s, now, defaultDays)|
  }

  lemma PartsAddUp<T>(a: set<T>, b: set<T>)
    requires a * b == {}
    ensures |a + b| == |a| + |b|
  {
  }

  /** Retention keeps exactly the requests that are not older than the cutoff of their own inbox, and
      what it reports is how many it dropped. */
  lemma PurgeIsExact(s: State, now: int, defaultDays: int)
    ensures var s' := Purged(s, now, defaultDays);
      && s'.inboxes == s.inboxes
      && (forall k :: k in s'.requests <==> k in s.requests && !IsExpired(s.inboxes, s.requests[k], now, defaultDays))
      && (forall k :: k in s'.requests ==> s'.requests[k] == s.requests[k])
      && PurgedCount(s, now, defaultDays)
        == |set k | k in s.requests && IsExpired(s.inboxes, s.requests[k], now, defaultDays)|
  {
    hide IsExpired, Retained;
    var dropped := set k | k in s.requests && IsExpired(s.inboxes, s.requests[k], now, defaultDays);
    var kept := KeptRequests(s, now, defaultDays).Keys;
    assert s.requests.Keys == kept + dropped && kept * dropped == {};
    PartsAddUp(kept, dropped);
  }

  /** The moment so many days before `now`. */
  function DaysAgo(now: int, days: int): int {
    now - days * 86_400_000_000_000
  }

  function LoggedSince(t: int): Observation -> bool {
    (o: Observation) => o.observedAt >= t
  }

  /** The request is no older than the positive setting of its inbox allows or, where there is none, the default;
      without its inbox it is of any age. */
  predicate IsKept(request: CapturedRequest, inboxes: map<string, Inbox>, now: int, defaultDays: int) {
    request.inboxID in inboxes ==>
      match inboxes[request.inboxID].retentionDays
      case Some(days) => request.receivedAt >= DaysAgo(now, if days > 0 then days else defaultDays)
      case None => request.receivedAt >= DaysAgo(now, defaultDays)
  }

  /** What retention keeps of the requests and of the log, in days. */
  lemma PurgeKeeps(s: State, now: int, defaultDays: int)
    ensures var s' := Purged(s, now, defaultDays);
      && (forall k :: k in s'.requests ==> k in s.requests && s'.requests[k] == s.requests[k])
      && (forall k :: k in s.requests ==> (k in s'.requests <==> IsKept(s.requests[k], s.inboxes, now, defaultDays)))
      && s'.counters.events == Select(s.counters.events, LoggedSince(DaysAgo(now, defaultDays)))
      && PurgedCount(s, now, defaultDays) == |s.requests| - |s'.requests|
  {
    hide Select, FreshOnly;
    SelectSame(s.counters.events, Since(Cutoff(now, defaultDays)), LoggedSince(DaysAgo(now, defaultDays)));
  }

  /** Of the counters before year 10000 retention keeps those whose minute begins within the default. */
  lemma PurgeKeepsCounters(s: State, now: int, defaultDays: int, m: nat, i: string, d: string, v: string)
    requires PrintableMinute(m)
    ensures var counters, counters' := s.counters, Purged(s, now, defaultDays).counters;
      && RollupAt(counters'.rollups, RollupKey(m, i))
        == (if m >= DaysAgo(now, defaultDays) then RollupAt(counters.rollups, RollupKey(m, i)) else EMPTY_ROLLUP)
      && CountAt(counters'.dims, DimensionKey(m, i, d, v))
        == (if m >= DaysAgo(now, defaultDays) then CountAt(counters.dims, DimensionKey(m, i, d, v)) else 0)
  {
    hide RollupKey, DimensionKey, Retained, RollupAt, CountAt, KeptRequests;
    RetainedRollup(s.counters, Cutoff(now, defaultDays), m, i);
    RetainedCount(s.counters, Cutoff(now, defaultDays), m, i, d, v);
  }

  /** With unchanged inboxes and default, retention at `t1` and then at a later `t2` leaves what retention
      at `t2` alone leaves, and the counts add up. */
  lemma PurgeTwice(s: State, t1: int, t2: int, defaultDays: int)
    requires t1 <= t2
    ensures Purged(Purged(s, t1, defaultDays), t2, defaultDays) == Purged(s, t2, defaultDays)
    ensures PurgedCount(s, t1, defaultDays) + PurgedCount(Purged(s, t1, defaultDays), t2, defaultDays)
      == PurgedCount(s, t2, defaultDays)
  {
    hide Retained;
    RetainTwice(s.counters, Cutoff(t1, defaultDays), Cutoff(t2, defaultDays));
    assert KeptRequests(Purged(s, t1, defaultDays), t2, defaultDays) == KeptRequests(s, t2, defaultDays);
  }

  // ------------------------------------------------------------------ service steps

  datatype World = World(store: State, pending: map<nat, Inbox>)

  /** One lock-granular step of the service.  A capture looks its inbox up in one critical section and
      stores the request in another. */
  datatype Step =
    | Create(inbox: Inbox)
    | Update(id: string, patch: InboxPatch, now: int)
    | Delete(id: string, now: int)
    | Lookup(call: nat, token: string, answer: Result<Inbox, StoreError>)
    | Store(call: nat, request: CapturedRequest)
    | Purge(now: int, defaultDays: int)
    | Observe(input: HookObservationInput, at: nat)

  /** The service creates active inboxes under new ULIDs. */
  ghost predicate IsNewInbox(s: State, inbox: Inbox) {
    && inbox.id !in s.inboxes && IsIdentifier(inbox.id)
    && inbox.status == ACTIVE && inbox.disabledAt.None? && inbox.deletedAt.None?
    && (inbox.retentionDays.Some? ==> inbox.retentionDays.value > 0)
  }

  /** What the service checks before it passes a patch on. */
  predicate IsValidPatch(patch: InboxPatch) {
    && (patch.name.Some? ==> TrimSpace(patch.name.value) != "")
    && (patch.status.Some? ==> patch.status.value == ACTIVE || patch.status.value == DISABLED)
    && (patch.retentionDays.Some? ==> patch.retentionDays.value > 0)
  }

  ghost predicate Enabled(w: World, step: Step) {
    match step
    case Create(inbox) => IsNewInbox(w.store, inbox)
    case Update(_, patch, _) => IsValidPatch(patch)
    case Delete(_, _) => true
    case Lookup(call, token, answer) => call !in w.pending && FoundByToken(w.store, token, answer)
    case Store(call, request) => call in w.pending && request.inboxID == w.pending[call].id
    case Purge(_, _) => true
    case Observe(input, _) => input.inboxID == "" || input.inboxID in w.store.inboxes
  }

  function Next(w: World, step: Step): World {
    match step
    case Create(inbox) => w.(store := Created(w.store, inbox).0)
    case Update(id, patch, now) => w.(store := Updated(w.store, id, patch, now).0)
    case Delete(id, now) => w.(store := SoftDeleted(w.store, id, now).0)
    case Lookup(call, _, answer) =>
      if answer.Ok? && answer.value.status != DISABLED then w.(pending := w.pending[call := answer.value]) else w
    case Store(call, request) => World(Captured(w.store, request), w.pending - {call})
    case Purge(now, defaultDays) => w.(store := Purged(w.store, now, defaultDays))
    case Observe(input, now) =>
      w.(store := w.store.(counters := Recorded(w.store.counters, ObservationFrom(input, now))))
  }

  // ------------------------------------------------------------------ invariants

  ghost predicate Invariant(w: World) {
    && (forall k :: k in w.store.inboxes ==> w.store.inboxes[k].id == k && '|' !in k)
    && LiveTokensUnique(w.store)
    && (forall k :: k in w.store.inboxes ==> StatusMatches(w.store.inboxes[k]))
    && (forall k :: k in w.store.requests ==>
        w.store.requests[k].id == k && w.store.requests[k].inboxID in w.store.inboxes)
    && (forall c :: c in w.pending ==> w.pending[c].id in w.store.inboxes)
  }

  predicate LiveTokensUnique(s: State) {
    forall k, k' | k in s.inboxes && k' in s.inboxes && k != k' ::
      IsLive(s.inboxes[k]) && IsLive(s.inboxes[k']) ==> s.inboxes[k].token != s.inboxes[k'].token
  }

  /** An inbox is disabled exactly when the time it was disabled is set, and has no third status. */
  predicate StatusMatches(inbox: Inbox) {
    && (inbox.status == ACTIVE || inbox.status == DISABLED)
    && (inbox.status == DISABLED <==> inbox.disabledAt.Some?)
    && (inbox.retentionDays.Some? ==> inbox.retentionDays.value > 0)
  }

  /** Deleted records stay as they were. */
  ghost predicate DeletedFrozen(before: State, after: State) {
    forall k :: k in before.inboxes && !IsLive(before.inboxes[k]) ==>
      k in after.inboxes && after.inboxes[k] == before.inboxes[k]
  }

  lemma CreateKeeps(w: World, inbox: Inbox)
    requires Invariant(w) && IsNewInbox(w.store, inbox)
    ensures Invariant(w.(store := Created(w.store, inbox).0))
    ensures DeletedFrozen(w.store, Created(w.store, inbox).0)
  {
    IdentifierHasNoBar(inbox.id);
    hide IsIdentifier;
  }

  lemma UpdateKeeps(w: World, id: string, patch: InboxPatch, now: int)
    requires Invariant(w) && IsValidPatch(patch)
    ensures Invariant(w.(store := Updated(w.store, id, patch, now).0))
    ensures DeletedFrozen(w.store, Updated(w.store, id, patch, now).0)
  {
    hide TrimSpace;
    if id in w.store.inboxes {
      PatchKeeps(w.store.inboxes[id], patch, now);
      hide Patched, IsValidPatch, StatusMatches;
    }
  }

  lemma PatchKeeps(inbox: Inbox, patch: InboxPatch, now: int)
    requires StatusMatches(inbox) && IsValidPatch(patch)
    ensures var inbox' := Patched(inbox, patch, now);
      StatusMatches(inbox') && inbox'.id == inbox.id && inbox'.token == inbox.token && inbox'.deletedAt == inbox.deletedAt
  {
    hide TrimSpace;
  }

  lemma DeleteKeeps(w: World, id: string, now: int)
    requires Invariant(w)
    ensures Invariant(w.(store := SoftDeleted(w.store, id, now).0))
    ensures DeletedFrozen(w.store, SoftDeleted(w.store, id, now).0)
  {
  }

  lemma OtherStepsKeep(w: World, step: Step)
    requires Invariant(w) && Enabled(w, step)
    requires step.Lookup? || step.Store? || step.Purge? || step.Observe?
    ensures Invariant(Next(w, step))
    ensures DeletedFrozen(w.store, Next(w, step).store)
  {
    hide Retained, Recorded, StatusMatches, LiveTokensUnique, ObservationFrom, IsExpired, TokenTaken;
    assert Next(w, step).store.inboxes == w.store.inboxes;
    SameInboxesSameTokens(w.store, Next(w, step).store);
    if step.Lookup? { AnswerIsHeld(w, step.token, step.answer); }
  }

  lemma SameInboxesSameTokens(s: State, s': State)
    requires s.inboxes == s'.inboxes && LiveTokensUnique(s)
    ensures LiveTokensUnique(s')
  {
  }

  lemma StepKeepsInvariant(w: World, step: Step)
    requires Invariant(w) && Enabled(w, step)
    ensures Invariant(Next(w, step))
    ensures DeletedFrozen(w.store, Next(w, step).store)
  {
    hide Invariant, DeletedFrozen, Created, Updated, SoftDeleted;
    match step
    case Create(inbox) => CreateKeeps(w, inbox);
    case Update(id, patch, now) => UpdateKeeps(w, id, patch, now);
    case Delete(id, now) => DeleteKeeps(w, id, now);
    case _ => OtherStepsKeep(w, step);
  }

  function After(run: seq<Step>): World {
    if run == [] then World(EMPTY_STATE, map[]) else Next(After(run[..|run| - 1]), run[|run| - 1])
  }

  /** Every step of the run is one that the service can take where it is taken. */
  ghost predicate IsRun(run: seq<Step>) {
    run != [] ==> IsRun(run[..|run| - 1]) && Enabled(After(run[..|run| - 1]), run[|run| - 1])
  }

  /** Over every interleaving: live tokens are unique, an inbox is disabled exactly when `disabledAt` is
      set, and every captured request belongs to an inbox that the map still holds. */
  lemma {:induction false} RunKeepsInvariant(run: seq<Step>)
    requires IsRun(run)
    ensures Invariant(After(run))
  {
    if run != [] {
      RunKeepsInvariant(run[..|run| - 1]);
      hide Enabled, Next, Invariant;
      StepKeepsInvariant(After(run[..|run| - 1]), run[|run| - 1]);
    }
  }

  /** Once deleted, a record never changes again, whatever the run does later. */
  lemma {:induction false} DeletedNeverChanges(run: seq<Step>, at: nat)
    requires IsRun(run) && at <= |run|
    ensures DeletedFrozen(After(run[..at]).store, After(run).store)
    decreases |run|
  {
    if at == |run| {
      assert run[..at] == run;
    } else {
      var front, last := run[..|run| - 1], run[|run| - 1];
      DeletedNeverChanges(front, at);
      assert front[..at] == run[..at];
      RunKeepsInvariant(front);
      hide Enabled, Next, Invariant;
      StepKeepsInvariant(After(front), last);
    }
  }

  lemma AnswerIsHeld(w: World, token: string, answer: Result<Inbox, StoreError>)
    requires Invariant(w) && FoundByToken(w.store, token, answer)
    ensures answer.Ok? ==>
      var inbox := answer.value;
      inbox.id in w.store.inboxes && w.store.inboxes[inbox.id] == inbox && inbox.token == token && IsLive(inbox)
    ensures answer.Ok? <==> TokenTaken(w.store, token)
    ensures answer.Err? ==> answer.error == NotFound
  {
  }

  /** In a reachable state the token lookup has one answer, although the map is walked in any order. */
  lemma TokenLookupDeterministic(run: seq<Step>, token: string, a: Result<Inbox, StoreError>,
        b: Result<Inbox, StoreError>)
    requires IsRun(run)
    requires FoundByToken(After(run).store, token, a) && FoundByToken(After(run).store, token, b)
    ensures a == b
  {
    RunKeepsInvariant(run);
    AnswerIsHeld(After(run), token, a);
    AnswerIsHeld(After(run), token, b);
    hide After, IsRun, FoundByToken;
  }

  /** In a reachable state retention never meets a request whose inbox is missing. */
  lemma NoOrphans(run: seq<Step>, k: string, now: int, defaultDays: int)
    requires IsRun(run) && k in After(run).store.requests
    ensures var s := After(run).store;
      var request := s.requests[k];
      && request.inboxID in s.inboxes
      && (IsExpired(s.inboxes, request, now, defaultDays) <==>
          request.receivedAt < Cutoff(now, DaysOf(s.inboxes[request.inboxID], defaultDays)))
  {
    RunKeepsInvariant(run);
  }

  // ------------------------------------------------------------------ captures between their two sections

  predicate TakesRequests(s: State, id: string) {
    id in s.inboxes && IsLive(s.inboxes[id]) && s.inboxes[id].status != DISABLED
  }

  predicate IsStepOf(step: Step, call: nat) {
    (step.Lookup? || step.Store?) && step.call == call
  }

  /** Step `i` of the run looked `inbox` up for the capture `call`, which has taken no step since; the inbox was
      held as answered, live and not disabled. */
  predicate LookedUpAt(run: seq<Step>, i: int, call: nat, inbox: Inbox) {
    && 0 <= i < |run| && IsStepOf(run[i], call) && run[i].Lookup?
    && inbox.token == run[i].token && run[i].answer == Ok(inbox)
    && TakesRequests(After(run[..i]).store, inbox.id) && After(run[..i]).store.inboxes[inbox.id] == inbox
    && (forall j :: i < j < |run| ==> !IsStepOf(run[j], call))
  }

  predicate DeletedIn(steps: seq<Step>, id: string) {
    exists k :: 0 <= k < |steps| && steps[k].Delete? && steps[k].id == id
  }

  predicate SetsStatus(step: Step, id: string) {
    step.Update? && step.id == id && step.patch.status.Some?
  }

  /** The last status that the steps set on the inbox, if they set one. */
  function LastStatus(steps: seq<Step>, id: string): Option<string> {
    if steps == [] then None
    else if SetsStatus(steps[|steps| - 1], id) then steps[|steps| - 1].patch.status
    else LastStatus(steps[..|steps| - 1], id)
  }

  predicate LeavesTaking(steps: seq<Step>, id: string) {
    !DeletedIn(steps, id) && LastStatus(steps, id) != Some(DISABLED)
  }

  // Every pending capture has its own lookup.

  lemma PendingAfterStep(w: World, step: Step, call: nat)
    requires Invariant(w) && Enabled(w, step) && call in Next(w, step).pending
    ensures var inbox := Next(w, step).pending[call];
      if IsStepOf(step, call) then
        && step.Lookup? && inbox.token == step.token && step.answer == Ok(inbox)
        && TakesRequests(w.store, inbox.id) && w.store.inboxes[inbox.id] == inbox
      else call in w.pending && w.pending[call] == inbox
  {
    if step.Lookup? { AnswerIsHeld(w, step.token, step.answer); }
    hide Invariant, Created, Updated, SoftDeleted, Captured, Purged, Recorded, ObservationFrom, FoundByToken;
  }

  lemma LookupStays(front: seq<Step>, last: Step, i: int, call: nat, inbox: Inbox)
    requires LookedUpAt(front, i, call, inbox) && !IsStepOf(last, call)
    ensures LookedUpAt(front + [last], i, call, inbox)
  {
    hide After, TakesRequests, IsStepOf;
    assert (front + [last])[..i] == front[..i];
  }

  lemma LookupJustNow(front: seq<Step>, last: Step, call: nat, inbox: Inbox)
    requires IsStepOf(last, call) && last.Lookup? && inbox.token == last.token && last.answer == Ok(inbox)
    requires TakesRequests(After(front).store, inbox.id) && After(front).store.inboxes[inbox.id] == inbox
    ensures LookedUpAt(front + [last], |front|, call, inbox)
  {
    hide After, IsStepOf;
    assert (front + [last])[..|front|] == front;
  }

  lemma {:induction false} PendingWasLookedUp(run: seq<Step>, call: nat)
    requires IsRun(run) && call in After(run).pending
    ensures exists i :: LookedUpAt(run, i, call, After(run).pending[call])
  {
    hide Enabled, Next, LookedUpAt, IsStepOf, Invariant, TakesRequests;
    if run != [] {
      var front, last := run[..|run| - 1], run[|run| - 1];
      var inbox := After(run).pending[call];
      assert run == front + [last];
      RunKeepsInvariant(front);
      PendingAfterStep(After(front), last, call);
      if IsStepOf(last, call) {
        LookupJustNow(front, last, call, inbox);
      } else {
        PendingWasLookedUp(front, call);
        var i :| LookedUpAt(front, i, call, inbox);
        LookupStays(front, last, i, call, inbox);
      }
    }
  }

  // What later steps do to an inbox that takes requests.

  predicate IsHeldAs(s: State, id: string, live: bool, disabled: bool) {
    id in s.inboxes && (IsLive(s.inboxes[id]) <==> live) && (live ==> (s.inboxes[id].status == DISABLED <==> disabled))
  }

  lemma HeldAfterStep(w: World, step: Step, id: string, live: bool, disabled: bool)
    requires Enabled(w, step) && IsHeldAs(w.store, id, live, disabled)
    ensures IsHeldAs(Next(w, step).store, id, live && !(step.Delete? && step.id == id),
      if SetsStatus(step, id) then step.patch.status == Some(DISABLED) else disabled)
  {
    hide IsValidPatch, IsIdentifier, TokenTaken, FoundByToken, KeptRequests, Recorded, Retained, ObservationFrom;
  }

  lemma DeletedInAfter(steps: seq<Step>, last: Step, id: string)
    ensures DeletedIn(steps + [last], id) <==> DeletedIn(steps, id) || (last.Delete? && last.id == id)
  {
    if last.Delete? && last.id == id { assert (steps + [last])[|steps|] == last; }
    if DeletedIn(steps, id) {
      var k :| 0 <= k < |steps| && steps[k].Delete? && steps[k].id == id;
      assert (steps + [last])[k] == steps[k];
    }
  }

  lemma LastStatusAfter(steps: seq<Step>, last: Step, id: string)
    ensures LastStatus(steps + [last], id) == if SetsStatus(last, id) then last.patch.status else LastStatus(steps, id)
  {
    assert (steps + [last])[..|steps|] == steps;
  }

  /** From a point where an inbox takes requests, it is live as long as it is not deleted, and disabled while the
      last status set on it is. */
  lemma {:induction false} HeldSince(run: seq<Step>, i: nat, id: string)
    requires IsRun(run) && i <= |run| && TakesRequests(After(run[..i]).store, id)
    ensures IsHeldAs(After(run).store, id, !DeletedIn(run[i..], id), LastStatus(run[i..], id) == Some(DISABLED))
    decreases |run|
  {
    hide Enabled, Next, DeletedIn, SetsStatus, IsLive;
    if i == |run| {
      assert run[..i] == run && run[i..] == [];
      NoneDeleted(id);
    } else {
      var front, last := run[..|run| - 1], run[|run| - 1];
      assert front[..i] == run[..i] && run[i..] == front[i..] + [last];
      HeldSince(front, i, id);
      hide IsHeldAs, LastStatus, TakesRequests;
      HeldAfterStep(After(front), last, id, !DeletedIn(front[i..], id), LastStatus(front[i..], id) == Some(DISABLED));
      DeletedInAfter(front[i..], last, id);
      LastStatusAfter(front[i..], last, id);
    }
  }

  lemma NoneDeleted(id: string)
    ensures !DeletedIn([], id)
  {
  }

  /** Every capture that stores a request has looked up the inbox of that request in an earlier step of its own,
      when the inbox took requests.  When the request is stored the inbox still takes requests exactly when,
      since the lookup, nobody deleted it and the last status set on it, if any, is not disabled. */
  lemma CaptureTakenIff(front: seq<Step>, call: nat, request: CapturedRequest)
    requires IsRun(front + [Step.Store(call, request)])
    ensures exists i, inbox ::
      && LookedUpAt(front, i, call, inbox) && inbox.id == request.inboxID
      && (TakesRequests(After(front).store, request.inboxID) <==> LeavesTaking(front[i..], request.inboxID))
  {
    var run := front + [Step.Store(call, request)];
    assert run[..|run| - 1] == front;
    assert call in After(front).pending && request.inboxID == After(front).pending[call].id;
    hide After, IsRun, Enabled;
    PendingWasLookedUp(front, call);
    var inbox := After(front).pending[call];
    var i :| LookedUpAt(front, i, call, inbox);
    HeldSince(front, i, inbox.id);
    hide DeletedIn, LastStatus, IsStepOf;
  }

  /** Every request in the store was put there by a capture. */
  lemma {:induction false} StoredByCapture(run: seq<Step>, k: string)
    requires IsRun(run) && k in After(run).store.requests
    ensures exists j :: 0 <= j < |run| && run[j].Store? && run[j].request == After(run).store.requests[k]
  {
    if run != [] {
      var front, last := run[..|run| - 1], run[|run| - 1];
      RequestAfterStep(After(front), last, k);
      hide Enabled, Next;
      if last.Store? && last.request == After(run).store.requests[k] {
        assert run[|run| - 1] == last;
      } else {
        StoredByCapture(front, k);
        var j :| 0 <= j < |front| && front[j].Store? && front[j].request == After(front).store.requests[k];
        assert run[j] == front[j];
      }
    }
  }

  lemma RequestAfterStep(w: World, step: Step, k: string)
    requires k in Next(w, step).store.requests
    ensures (step.Store? && step.request == Next(w, step).store.requests[k])
      || (k in w.store.requests && w.store.requests[k] == Next(w, step).store.requests[k])
  {
    hide Recorded, Retained, ObservationFrom, IsExpired, Patched, TokenTaken;
  }

  /** A run in which the inbox is deleted between the two sections of a capture: the request is stored all the
      same, in an inbox that no lookup finds any more. */
  lemma DeletedWhileCapturing(inbox: Inbox, request: CapturedRequest, now: int)
    requires IsNewInbox(EMPTY_STATE, inbox) && request.inboxID == inbox.id
    ensures var run := [Create(inbox), Lookup(0, inbox.token, Ok(inbox)), Delete(inbox.id, now), Store(0, request)];
      && IsRun(run)
      && request.id in After(run).store.requests && After(run).store.requests[request.id] == request
      && inbox.id in After(run).store.inboxes && !IsLive(After(run).store.inboxes[inbox.id])
      && FoundByID(After(run).store, inbox.id) == Err(NotFound)
  {
    var a, b, c, d := Create(inbox), Lookup(0, inbox.token, Ok(inbox)), Delete(inbox.id, now), Step.Store(0, request);
    hide Enabled, Next, IsNewInbox, SoftDeleted, After, IsRun;
    CreatesFirst(inbox);
    LooksUpThenLoses(inbox, request, now);
    RunOfSteps([], a);
    RunOfSteps([a], b);
    RunOfSteps([a, b], c);
    RunOfSteps([a, b, c], d);
    assert [] + [a] == [a] && [a] + [b] == [a, b] && [a, b] + [c] == [a, b, c] && [a, b, c] + [d] == [a, b, c, d];
  }

  lemma LooksUpThenLoses(inbox: Inbox, request: CapturedRequest, now: int)
    requires IsLive(inbox) && inbox.status != DISABLED && request.inboxID == inbox.id
    ensures var w1 := World(EMPTY_STATE.(inboxes := map[inbox.id := inbox]), map[]);
      && Enabled(w1, Lookup(0, inbox.token, Ok(inbox)))
      && var w2 := Next(w1, Lookup(0, inbox.token, Ok(inbox)));
      && Enabled(w2, Delete(inbox.id, now))
      && var w3 := Next(w2, Delete(inbox.id, now));
      && Enabled(w3, Step.Store(0, request))
      && var w4 := Next(w3, Step.Store(0, request));
      && request.id in w4.store.requests && w4.store.requests[request.id] == request
      && inbox.id in w4.store.inboxes && !IsLive(w4.store.inboxes[inbox.id])
      && FoundByID(w4.store, inbox.id) == Err(NotFound)
  {
    var inboxes := map[inbox.id := inbox];
    assert inboxes[inbox.id] == inbox;
    assert inbox in inboxes.Values;
  }

  lemma CreatesFirst(inbox: Inbox)
    requires IsNewInbox(EMPTY_STATE, inbox)
    ensures IsLive(inbox) && inbox.status != DISABLED
    ensures Enabled(World(EMPTY_STATE, map[]), Create(inbox))
    ensures Next(World(EMPTY_STATE, map[]), Create(inbox))
      == World(EMPTY_STATE.(inboxes := map[inbox.id := inbox]), map[])
  {
    hide IsIdentifier;
    assert map[][inbox.id := inbox] == map[inbox.id := inbox];
  }

  lemma RunOfSteps(run: seq<Step>, step: Step)
    ensures IsRun(run) && Enabled(After(run), step) ==> IsRun(run + [step])
    ensures After(run + [step]) == Next(After(run), step)
    ensures IsRun([]) && After([]) == World(EMPTY_STATE, map[])
  {
    hide Enabled, Next;
    assert (run + [step])[..|run|] == run;
  }

  // ------------------------------------------------------------------ the counters of the whole service

  /** What a run of the service does to the log and the counters. */
  function CounterSteps(run: seq<Step>): seq<CounterRuns.Step> {
    if run == [] then [] else
      CounterSteps(run[..|run| - 1]) +
      match run[|run| - 1]
      case Observe(input, now) => [Record(ObservationFrom(input, now))]
      case Purge(now, defaultDays) => [Retain(Cutoff(now, defaultDays))]
      case _ => []
  }

  /** Every call of the run happens before year 10000. */
  predicate InTime(run: seq<Step>) {
    forall k :: 0 <= k < |run| && run[k].Observe? ==> ObservationFrom(run[k].input, run[k].at).observedAt < YEAR_10000
  }

  lemma {:induction false} CountersFollow(run: seq<Step>)
    requires IsRun(run)
    ensures After(run).store.counters == CounterRuns.After(CounterSteps(run))
  {
    if run != [] {
      var front, last := run[..|run| - 1], run[|run| - 1];
      CountersFollow(front);
      CountersOfStep(After(front), last, CounterSteps(front));
      hide Next, Enabled, CounterRuns.After;
    }
  }

  lemma CountersOfStep(w: World, step: Step, run: seq<CounterRuns.Step>)
    requires w.store.counters == CounterRuns.After(run)
    ensures Next(w, step).store.counters == CounterRuns.After(run +
      match step
      case Observe(input, now) => [Record(ObservationFrom(input, now))]
      case Purge(now, defaultDays) => [Retain(Cutoff(now, defaultDays))]
      case _ => [])
  {
    hide ObservationFrom, Recorded, Retained, KeptRequests, Patched, TokenTaken;
    if step.Observe? {
      assert (run + [Record(ObservationFrom(step.input, step.at))])[..|run|] == run;
    } else if step.Purge? {
      assert (run + [Retain(Cutoff(step.now, step.defaultDays))])[..|run|] == run;
    } else {
      assert run + [] == run;
    }
  }

  lemma CallIsAllowed(w: World, input: HookObservationInput, at: nat)
    requires Invariant(w) && Enabled(w, Observe(input, at)) && ObservationFrom(input, at).observedAt < YEAR_10000
    ensures Recordable(ObservationFrom(input, at))
  {
    hide Recordable, ObservationFrom, StatusMatches, LiveTokensUnique;
    assert '|' !in input.inboxID;
    ObservationIsRecordable(input, at);
  }

  lemma {:induction false} CallsAreAllowed(run: seq<Step>)
    requires IsRun(run) && InTime(run)
    ensures forall i :: 0 <= i < |CounterSteps(run)| ==> Allowed(CounterSteps(run)[i])
  {
    if run != [] {
      hide After, Recordable, ObservationFrom, Next, Invariant, Enabled, Cutoff;
      var front, last := run[..|run| - 1], run[|run| - 1];
      CallsAreAllowed(front);
      RunKeepsInvariant(front);
      if last.Observe? {
        assert run[|run| - 1].Observe?;
        CallIsAllowed(After(front), last.input, last.at);
      }
      hide IsRun;
    }
  }

  /** In every run of the service its counters agree with its log from the watermark on and never exceed it
      below.  Everywhere they are the folds of the counted calls, and they agree with the log everywhere
      exactly when no call that is still in the log was straddled by a later cutoff. */
  lemma ServiceKeepsCounters(run: seq<Step>)
    requires IsRun(run) && InTime(run)
    ensures var s, steps := After(run).store.counters, CounterSteps(run);
      && Consistent(s, Watermark(steps))
      && Consistent(s.(events := CountedCalls(steps)), 0)
      && (Consistent(s, 0) <==> NoneStraddled(steps))
  {
    CountersFollow(run);
    CallsAreAllowed(run);
    hide Consistent, CounterRuns.After, After, IsRun, CounterSteps, NoneStraddled, CountedCalls, Watermark;
    CounterRuns.RunKeepsConsistent(CounterSteps(run));
    CountersAreCounted(CounterSteps(run));
    RunAgreesIff(CounterSteps(run));
  }
}

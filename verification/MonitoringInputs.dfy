/** What the service makes of its callers' input: the observation of a hook call, and the normal form
    of a monitoring query. */
module MonitoringInputs {
  import opened Text
  import opened Time
  import opened Wrappers
  import opened Domain
  import opened Rollups
  import opened Summaries

  // ------------------------------------------------------------------ observations

  /** `observedAt == 0` is Go's zero time. */
  datatype HookObservationInput = HookObservationInput(
    observedAt: nat, inboxID: string, httpMethod: string, path: string, statusCode: int, latencyMs: int,
    bodySizeBytes: int, hasBody: bool, remoteIP: string, userAgent: string, country: string, contentType: string)

  const UNKNOWN := "UNKNOWN"

  function UpperOrUnknown(s: string): string {
    var upper := ToUpper(TrimSpace(s));
    if upper == "" then UNKNOWN else upper
  }

  function StatusClassFromCode(code: int): string {
    if 200 <= code < 300 then "2xx"
    else if 400 <= code < 500 then "4xx"
    else "5xx"
  }

  function TextBlob(httpMethod: string, path: string, statusClass: string, remoteIP: string, country: string,
                    userAgent: string, contentType: string): string
  {
    ToLower(httpMethod + " " + path + " " + statusClass + " " + remoteIP + " " + country + " " + userAgent + " " + contentType)
  }

  function AtLeastZero(n: int): nat {
    if n < 0 then 0 else n
  }

  function ObservationFrom(input: HookObservationInput, now: nat): Observation {
    var observedAt := if input.observedAt == 0 then now else input.observedAt;
    var httpMethod, country := UpperOrUnknown(input.httpMethod), UpperOrUnknown(input.country);
    var statusCode := if input.statusCode <= 0 then 500 else input.statusCode;
    var statusClass := StatusClassFromCode(statusCode);
    Observation(observedAt, TruncateMinute(observedAt), TrimSpace(input.inboxID), httpMethod, input.path,
      statusCode, statusClass, AtLeastZero(input.latencyMs), AtLeastZero(input.bodySizeBytes), input.hasBody,
      input.remoteIP, input.userAgent, country, input.contentType,
      TextBlob(httpMethod, input.path, statusClass, input.remoteIP, country, input.userAgent, input.contentType))
  }

  /** Every recorded observation is well formed, and it is an error exactly when the status was not
      2xx: informational codes, redirects and codes out of range are all filed under 5xx. */
  lemma ObservationIsWellFormed(input: HookObservationInput, now: nat)
    ensures var o := ObservationFrom(input, now);
      && WellFormed(o)
      && (IsError(o) <==> !(200 <= input.statusCode < 300))
      && o.httpMethod != "" && o.country != "" && o.statusCode > 0
  {
    hide TrimSpace, ToUpper, ToLower;
  }

  /** What is recorded of a call, in terms of the call: 2xx and 4xx are filed under their own class and every other
      status under 5xx, a code that is not positive counts as 500, and negative measures count as zero. */
  lemma ObservationShowsCall(input: HookObservationInput, now: nat)
    ensures var o := ObservationFrom(input, now);
      && (o.statusClass == "2xx" <==> 200 <= input.statusCode < 300)
      && (o.statusClass == "4xx" <==> 400 <= input.statusCode < 500)
      && (o.statusClass == "5xx" <==> !(200 <= input.statusCode < 300) && !(400 <= input.statusCode < 500))
      && (input.statusCode > 0 ==> o.statusCode == input.statusCode) && (input.statusCode <= 0 ==> o.statusCode == 500)
      && (input.observedAt != 0 ==> o.observedAt == input.observedAt) && (input.observedAt == 0 ==> o.observedAt == now)
      && o.bucketMinute <= o.observedAt < o.bucketMinute + 60_000_000_000 && o.bucketMinute % 60_000_000_000 == 0
      && (input.latencyMs >= 0 ==> o.latencyMs == input.latencyMs) && (input.latencyMs < 0 ==> o.latencyMs == 0)
      && (input.bodySizeBytes >= 0 ==> o.bodySizeBytes == input.bodySizeBytes)
      && (input.bodySizeBytes < 0 ==> o.bodySizeBytes == 0)
      && o.inboxID == TrimSpace(input.inboxID) && o.path == input.path && o.hasBody == input.hasBody
      && o.remoteIP == input.remoteIP && o.userAgent == input.userAgent && o.contentType == input.contentType
    ensures IsFilledIn(ObservationFrom(input, now).httpMethod, input.httpMethod)
    ensures IsFilledIn(ObservationFrom(input, now).country, input.country)
  {
    hide TextBlob;
    TrimmedIsFilled(input.httpMethod);
    TrimmedIsFilled(input.country);
    hide TrimSpace, UpperOrUnknown, IsFilledIn;
  }

  /** The given text in upper case without the spaces around it, or UNKNOWN if nothing remains. */
  predicate IsFilledIn(recorded: string, given: string) {
    && (TrimSpace(given) == "" ==> recorded == "UNKNOWN")
    && (TrimSpace(given) != "" ==>
          EqualFold(recorded, TrimSpace(given)) && forall c :: c in recorded ==> !('a' <= c <= 'z'))
  }

  lemma TrimmedIsFilled(given: string)
    ensures IsFilledIn(UpperOrUnknown(given), given)
  {
    hide TrimSpace;
    CaseChanges(TrimSpace(given));
  }

  /** The parts of a recorded call that a text query looks at. */
  function PartsOf(o: Observation): seq<string> {
    [o.httpMethod, o.path, o.statusClass, o.remoteIP, o.country, o.userAgent, o.contentType]
  }

  /** A text query finds every call that has it, in any case of letters, in one of seven parts. */
  lemma TextQueryFindsParts(input: HookObservationInput, now: nat, k: nat, needle: string)
    requires k < 7 && Contains(ToLower(PartsOf(ObservationFrom(input, now))[k]), ToLower(needle))
    ensures Contains(ToLower(ObservationFrom(input, now).textBlob), ToLower(needle))
  {
    var o := ObservationFrom(input, now);
    hide Contains, ToLower, TrimSpace, UpperOrUnknown, Joined;
    SevenJoined(o.httpMethod, o.path, o.statusClass, o.remoteIP, o.country, o.userAgent, o.contentType);
    LowerJoined(PartsOf(o));
    JoinedHolds(Lowered(PartsOf(o)), k, ToLower(needle));
    LowerAgain(Joined(PartsOf(o)));
  }

  /** Texts with a space between each two. */
  function Joined(parts: seq<string>): string
    requires parts != []
  {
    if |parts| == 1 then parts[0] else Joined(parts[..|parts| - 1]) + " " + parts[|parts| - 1]
  }

  lemma JoinedNext(front: seq<string>, last: string)
    requires front != []
    ensures Joined(front + [last]) == Joined(front) + " " + last
  {
    assert (front + [last])[..|front|] == front;
  }

  lemma SevenJoined(a: string, b: string, c: string, d: string, e: string, f: string, g: string)
    ensures Joined([a, b, c, d, e, f, g]) == a + " " + b + " " + c + " " + d + " " + e + " " + f + " " + g
  {
    assert Joined([a]) == a;
    hide Joined;
    JoinedNext([a], b);
    JoinedNext([a, b], c);
    JoinedNext([a, b, c], d);
    JoinedNext([a, b, c, d], e);
    JoinedNext([a, b, c, d, e], f);
    JoinedNext([a, b, c, d, e, f], g);
    assert [a] + [b] == [a, b] && [a, b] + [c] == [a, b, c] && [a, b, c] + [d] == [a, b, c, d];
    assert [a, b, c, d] + [e] == [a, b, c, d, e] && [a, b, c, d, e] + [f] == [a, b, c, d, e, f];
    assert [a, b, c, d, e, f] + [g] == [a, b, c, d, e, f, g];
  }

  function Lowered(parts: seq<string>): (lowered: seq<string>)
    ensures |lowered| == |parts|
  {
    seq(|parts|, i requires 0 <= i < |parts| => ToLower(parts[i]))
  }

  lemma {:induction false} LowerJoined(parts: seq<string>)
    requires parts != []
    ensures ToLower(Joined(parts)) == Joined(Lowered(parts))
  {
    if |parts| > 1 {
      var front, last := parts[..|parts| - 1], parts[|parts| - 1];
      LowerJoined(front);
      assert Lowered(parts)[..|front|] == Lowered(front);
      assert ToLower(Joined(front) + " " + last) == ToLower(Joined(front)) + " " + ToLower(last);
    }
  }

  lemma LowerAgain(s: string)
    ensures ToLower(ToLower(s)) == ToLower(s)
  {
  }

  lemma {:induction false} JoinedHolds(parts: seq<string>, k: nat, needle: string)
    requires k < |parts| && Contains(parts[k], needle)
    ensures Contains(Joined(parts), needle)
  {
    hide Contains;
    if |parts| > 1 {
      var front, last := parts[..|parts| - 1], parts[|parts| - 1];
      if k == |front| {
        ContainsInPart(Joined(front) + " ", last, "", needle);
        assert Joined(front) + " " + last + "" == Joined(parts);
      } else {
        JoinedHolds(front, k, needle);
        ContainsInPart("", Joined(front), " " + last, needle);
        assert "" + Joined(front) + (" " + last) == Joined(parts);
      }
    }
  }

  /** An observation of an inbox whose ID does not hold the separator may be recorded up to year 9999. */
  lemma ObservationIsRecordable(input: HookObservationInput, now: nat)
    requires '|' !in input.inboxID && ObservationFrom(input, now).observedAt < YEAR_10000
    ensures Recordable(ObservationFrom(input, now))
  {
    ObservationIsWellFormed(input, now);
    TrimAddsNothing(input.inboxID, '|');
    hide TrimSpace, UpperOrUnknown, TextBlob, WellFormed, TruncateMinute;
  }

  /** A method asked for in any case of letters selects the calls recorded under its upper case. */
  lemma RecordedMethodIsFolded(input: HookObservationInput, now: nat, asked: string)
    ensures EqualFold(ObservationFrom(input, now).httpMethod, asked)
      <==> ObservationFrom(input, now).httpMethod == ToUpper(asked)
  {
    hide TrimSpace, TextBlob, TruncateMinute, StatusClassFromCode;
    var o := ObservationFrom(input, now);
    UpperIsUpper(input.httpMethod);
    FoldOfUpper(o.httpMethod, asked);
  }

  lemma UpperIsUpper(s: string)
    ensures ToUpper(UpperOrUnknown(s)) == UpperOrUnknown(s)
  {
  }

  lemma FoldOfUpper(a: string, b: string)
    requires ToUpper(a) == a
    ensures EqualFold(a, b) <==> a == ToUpper(b)
  {
    if EqualFold(a, b) {
      forall i | 0 <= i < |a| ensures a[i] == ToUpper(b)[i] {
        assert ToLower(a)[i] == ToLower(b)[i] && ToUpper(a)[i] == a[i];
      }
      assert |ToLower(a)| == |ToLower(b)|;
      assert a == ToUpper(b);
    }
    if a == ToUpper(b) {
      forall i | 0 <= i < |a| ensures ToLower(a)[i] == ToLower(b)[i] {
        assert a[i] == ToUpper(b)[i];
      }
      assert ToLower(a) == ToLower(b);
    }
  }

  // ------------------------------------------------------------------ queries

  const DEFAULT_WINDOW: int := 15 * MINUTE
  const MAX_WINDOW: int := 30 * DAY

  function From(q: MonitoringQuery, now: int): int {
    if q.to == 0 && q.from == 0 then now - DEFAULT_WINDOW
    else if q.from == 0 then q.to - DEFAULT_WINDOW
    else q.from
  }

  function To(q: MonitoringQuery, now: int): int {
    if q.to == 0 && q.from == 0 then now
    else if q.to == 0 then q.from + DEFAULT_WINDOW
    else q.to
  }

  predicate SizesAcceptable(minBodySize: Option<int>, maxBodySize: Option<int>) {
    && (minBodySize.Some? ==> 0 <= minBodySize.value)
    && (maxBodySize.Some? ==> 0 <= maxBodySize.value)
    && (minBodySize.Some? && maxBodySize.Some? ==> minBodySize.value <= maxBodySize.value)
  }

  predicate ClassAcceptable(statusClass: string) {
    statusClass in ["", "2xx", "4xx", "5xx"]
  }

  /** The queries that the service answers. */
  predicate IsAcceptable(q: MonitoringQuery, now: int) {
    && From(q, now) <= To(q, now) <= From(q, now) + MAX_WINDOW
    && SizesAcceptable(q.minBodySize, q.maxBodySize)
    && ClassAcceptable(ToLower(TrimSpace(q.statusClass)))
  }

  function NormalForm(q: MonitoringQuery, now: int): MonitoringQuery {
    MonitoringQuery(From(q, now), To(q, now), TrimSpace(q.inboxID), ToUpper(TrimSpace(q.httpMethod)),
      ToLower(TrimSpace(q.statusClass)), TrimSpace(q.pathContains), q.hasBody, q.minBodySize, q.maxBodySize,
      TrimSpace(q.remoteIP), ToUpper(TrimSpace(q.country)), TrimSpace(q.textQuery))
  }

  /** The window asked for, with what is missing filled in: the last quarter of an hour, or a quarter of an hour
      from or up to the end that is given. */
  function AskedWindow(q: MonitoringQuery, now: int): (int, int) {
    if q.from == 0 && q.to == 0 then (now - 900_000_000_000, now)
    else if q.from == 0 then (q.to - 900_000_000_000, q.to)
    else if q.to == 0 then (q.from, q.from + 900_000_000_000)
    else (q.from, q.to)
  }

  /** Which queries are answered: the window ends no earlier than it begins and no more than 30 days later, sizes
      are not negative and in order, and the class is one of three or none. */
  lemma AcceptableIff(q: MonitoringQuery, now: int)
    ensures var (from, to) := AskedWindow(q, now);
      var statusClass := ToLower(TrimSpace(q.statusClass));
      IsAcceptable(q, now) <==>
        && from <= to && to - from <= 2_592_000_000_000_000
        && !(q.minBodySize.Some? && q.minBodySize.value < 0) && !(q.maxBodySize.Some? && q.maxBodySize.value < 0)
        && !(q.minBodySize.Some? && q.maxBodySize.Some? && q.minBodySize.value > q.maxBodySize.value)
        && (statusClass == "" || statusClass == "2xx" || statusClass == "4xx" || statusClass == "5xx")
  {
    hide TrimSpace, ToLower;
  }

  /** Which calls an accepted query selects, in terms of what was asked: those in the window, its ends included,
      that pass every filter that is not blank. */
  lemma SelectedIff(o: Observation, q: MonitoringQuery, now: int)
    ensures var (from, to) := AskedWindow(q, now);
      Matches(o, NormalForm(q, now)) <==>
        && from <= o.observedAt <= to
        && (TrimSpace(q.inboxID) == "" || o.inboxID == TrimSpace(q.inboxID))
        && (TrimSpace(q.httpMethod) == "" || EqualFold(o.httpMethod, TrimSpace(q.httpMethod)))
        && (TrimSpace(q.statusClass) == "" || EqualFold(o.statusClass, TrimSpace(q.statusClass)))
        && (TrimSpace(q.pathContains) == "" || Contains(ToLower(o.path), ToLower(TrimSpace(q.pathContains))))
        && (q.hasBody.Some? ==> o.hasBody == q.hasBody.value)
        && (q.minBodySize.Some? ==> o.bodySizeBytes >= q.minBodySize.value)
        && (q.maxBodySize.Some? ==> o.bodySizeBytes <= q.maxBodySize.value)
        && (TrimSpace(q.remoteIP) == "" || o.remoteIP == TrimSpace(q.remoteIP))
        && (TrimSpace(q.country) == "" || EqualFold(o.country, TrimSpace(q.country)))
        && (TrimSpace(q.textQuery) == "" || Contains(ToLower(o.textBlob), ToLower(TrimSpace(q.textQuery))))
  {
    NormalFormSelectsTheSame(o, q, now);
    TrimAgain(q.textQuery);
    hide TrimSpace, ToLower, ToUpper, Contains, EqualFold;
  }

  /** The steps of normalisation, in order. */
  method NormalizeMonitoringQuery(query: MonitoringQuery, now: int) returns (r: Result<MonitoringQuery, StoreError>)
    ensures r == if IsAcceptable(query, now) then Ok(NormalForm(query, now)) else Err(InvalidInput)
  {
    hide TrimSpace, ToLower, ToUpper;
    var q := query;
    if q.to == 0 && q.from == 0 {
      q := q.(to := now);
      q := q.(from := now - DEFAULT_WINDOW);
    } else if q.to == 0 {
      q := q.(to := q.from + DEFAULT_WINDOW);
    } else if q.from == 0 {
      q := q.(from := q.to - DEFAULT_WINDOW);
    }
    if q.from > q.to {
      return Err(InvalidInput);
    }
    if q.to - q.from > MAX_WINDOW {
      return Err(InvalidInput);
    }
    if q.minBodySize.Some? && q.minBodySize.value < 0 {
      return Err(InvalidInput);
    }
    if q.maxBodySize.Some? && q.maxBodySize.value < 0 {
      return Err(InvalidInput);
    }
    if q.minBodySize.Some? && q.maxBodySize.Some? && q.minBodySize.value > q.maxBodySize.value {
      return Err(InvalidInput);
    }
    q := q.(httpMethod := ToUpper(TrimSpace(q.httpMethod)));
    q := q.(statusClass := ToLower(TrimSpace(q.statusClass)));
    if q.statusClass != "" && q.statusClass != "2xx" && q.statusClass != "4xx" && q.statusClass != "5xx" {
      return Err(InvalidInput);
    }
    q := q.(country := ToUpper(TrimSpace(q.country)));
    q := q.(pathContains := TrimSpace(q.pathContains));
    q := q.(remoteIP := TrimSpace(q.remoteIP));
    q := q.(textQuery := TrimSpace(q.textQuery));
    q := q.(inboxID := TrimSpace(q.inboxID));
    return Ok(q);
  }

  /** Normalising an accepted query again, at any later or earlier time, accepts it and changes nothing:
      the defaults, once filled in, do not move with the clock. */
  lemma NormalizeAgain(q: MonitoringQuery, now: int, again: int)
    requires IsAcceptable(q, now)
    ensures IsAcceptable(NormalForm(q, now), again)
    ensures NormalForm(NormalForm(q, now), again) == NormalForm(q, now)
    ensures NormalWindow(NormalForm(q, now))
  {
    TrimAgain(q.inboxID);
    TrimAgain(q.httpMethod);
    TrimAgain(q.statusClass);
    TrimAgain(q.pathContains);
    TrimAgain(q.remoteIP);
    TrimAgain(q.country);
    TrimAgain(q.textQuery);
    hide TrimSpace, ToLower, ToUpper;
  }

  /** The query with the spaces around its texts removed and nothing else changed. */
  function Trimmed(q: MonitoringQuery): MonitoringQuery {
    q.(inboxID := TrimSpace(q.inboxID), httpMethod := TrimSpace(q.httpMethod), statusClass := TrimSpace(q.statusClass),
       pathContains := TrimSpace(q.pathContains), remoteIP := TrimSpace(q.remoteIP), country := TrimSpace(q.country),
       textQuery := TrimSpace(q.textQuery))
  }

  /** Changing case does not change what a query selects. */
  lemma NormalFormSelectsTheSame(o: Observation, q: MonitoringQuery, now: int)
    ensures MatchesFilters(o, NormalForm(q, now)) <==> MatchesFilters(o, Trimmed(q))
  {
    CaseIsFolded(TrimSpace(q.httpMethod));
    CaseIsFolded(TrimSpace(q.statusClass));
    CaseIsFolded(TrimSpace(q.country));
    hide TrimSpace, ToLower, ToUpper, Contains;
  }

  lemma CaseIsFolded(s: string)
    ensures ToLower(ToUpper(s)) == ToLower(s) && ToLower(ToLower(s)) == ToLower(s)
    ensures ToUpper(s) == "" <==> s == ""
    ensures ToLower(s) == "" <==> s == ""
  {
    assert |ToUpper(s)| == |s| == |ToLower(s)|;
  }
}

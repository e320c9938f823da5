/** The entities that the store keeps and the queries it answers. */
module Domain {
  import opened Wrappers
  import opened Text
  import opened Time

  // ------------------------------------------------------------------ inboxes and captures

  const ACTIVE := "active"
  const DISABLED := "disabled"

  datatype Inbox = Inbox(
    id: string, name: string, token: string, status: string, description: Option<string>,
    retentionDays: Option<int>, createdAt: int, updatedAt: int, disabledAt: Option<int>, deletedAt: Option<int>)

  datatype InboxPatch = InboxPatch(
    name: Option<string>, description: Option<string>, status: Option<string>, retentionDays: Option<int>)

  datatype CapturedRequest = CapturedRequest(
    id: string, inboxID: string, httpMethod: string, path: string, queryParams: map<string, string>,
    headers: map<string, string>, bodyRaw: string, bodySizeBytes: nat, contentType: string, remoteIP: string,
    userAgent: string, receivedAt: int, requestHash: string)

  datatype Pagination = Pagination(page: int, pageSize: int)

  datatype StoreError = NotFound | Conflict | InvalidInput | InboxDisabled | PayloadTooLarge | GeneratorFailed

  // ------------------------------------------------------------------ observations

  /** One recorded call of a hook.  Times start at year 1; latency and size are never negative, since
      the service clamps them. */
  datatype Observation = Observation(
    observedAt: nat, bucketMinute: nat, inboxID: string, httpMethod: string, path: string, statusCode: int,
    statusClass: string, latencyMs: nat, bodySizeBytes: nat, hasBody: bool, remoteIP: string,
    userAgent: string, country: string, contentType: string, textBlob: string)

  /** What the service guarantees of every observation it records. */
  predicate WellFormed(o: Observation) {
    && o.bucketMinute == TruncateMinute(o.observedAt)
    && o.statusClass in ["2xx", "4xx", "5xx"]
  }

  predicate IsError(o: Observation) {
    o.statusClass == "4xx" || o.statusClass == "5xx"
  }

  // ------------------------------------------------------------------ queries

  datatype MonitoringQuery = MonitoringQuery(
    from: int, to: int, inboxID: string, httpMethod: string, statusClass: string, pathContains: string,
    hasBody: Option<bool>, minBodySize: Option<int>, maxBodySize: Option<int>, remoteIP: string,
    country: string, textQuery: string)

  /** The tests on everything but time. */
  predicate MatchesFilters(o: Observation, q: MonitoringQuery) {
    && (q.inboxID != "" ==> o.inboxID == q.inboxID)
    && (q.httpMethod != "" ==> EqualFold(o.httpMethod, q.httpMethod))
    && (q.statusClass != "" ==> EqualFold(o.statusClass, q.statusClass))
    && (q.pathContains != "" ==> Contains(ToLower(o.path), ToLower(q.pathContains)))
    && (q.hasBody.Some? ==> q.hasBody.value == o.hasBody)
    && (q.minBodySize.Some? ==> q.minBodySize.value <= o.bodySizeBytes)
    && (q.maxBodySize.Some? ==> o.bodySizeBytes <= q.maxBodySize.value)
    && (q.remoteIP != "" ==> o.remoteIP == q.remoteIP)
    && (q.country != "" ==> EqualFold(o.country, q.country))
    && (q.textQuery != "" ==> Contains(ToLower(o.textBlob), ToLower(TrimSpace(q.textQuery))))
  }

  predicate Matches(o: Observation, q: MonitoringQuery) {
    q.from <= o.observedAt <= q.to && MatchesFilters(o, q)
  }

  const DIMENSIONS: seq<string> := ["method", "status", "path", "ip", "country", "user_agent"]

  /** The value of an observation in one of the six dimensions; other names have no value. */
  function DimensionValue(o: Observation, dimension: string): string {
    match ToLower(TrimSpace(dimension))
    case "method" => o.httpMethod
    case "status" => o.statusClass
    case "path" => o.path
    case "ip" => o.remoteIP
    case "country" => o.country
    case "user_agent" => o.userAgent
    case _ => ""
  }

  /** The six dimensions by their names, and which part of a call each of them counts. */
  lemma FieldsOfDimensions(o: Observation)
    ensures forall d :: d in DIMENSIONS <==> d in ["method", "status", "path", "ip", "country", "user_agent"]
    ensures DimensionValue(o, "method") == o.httpMethod && DimensionValue(o, "status") == o.statusClass
    ensures DimensionValue(o, "path") == o.path && DimensionValue(o, "ip") == o.remoteIP
    ensures DimensionValue(o, "country") == o.country && DimensionValue(o, "user_agent") == o.userAgent
  {
    NamesAreNormal();
    hide ToLower, TrimSpace;
  }

  lemma NamesAreNormal()
    ensures forall d :: d in DIMENSIONS ==> ToLower(TrimSpace(d)) == d
  {
  }
}

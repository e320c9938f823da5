/** The filter of the request listing: which captured requests pass it. */
module RequestFilters {
  import opened Wrappers
  import opened Text
  import opened Domain

  datatype ListFilter = ListFilter(
    httpMethod: string, contentType: string, hasBody: Option<bool>, from: Option<int>, to: Option<int>, order: string,
    pathContains: string, remoteIP: string, userAgentContains: string, requestHash: string,
    minBodySize: Option<int>, maxBodySize: Option<int>, textQuery: string)

  predicate FoundIn(text: string, needle: string) {
    Contains(ToLower(text), needle)
  }

  predicate FoundInPairs(pairs: map<string, string>, needle: string) {
    exists k :: k in pairs && (FoundIn(k, needle) || FoundIn(pairs[k], needle))
  }

  /** The query occurs, in any case of letters, somewhere in what was captured. */
  predicate TextMatches(r: CapturedRequest, query: string) {
    var needle := ToLower(TrimSpace(query));
    needle == ""
    || FoundIn(r.path, needle) || FoundIn(r.contentType, needle) || FoundIn(r.userAgent, needle)
    || FoundInPairs(r.headers, needle) || FoundInPairs(r.queryParams, needle) || FoundIn(r.bodyRaw, needle)
  }

  predicate Passes(r: CapturedRequest, f: ListFilter) {
    PassesTexts(r, f) && PassesBounds(r, f) && TextMatches(r, f.textQuery)
  }

  predicate PassesTexts(r: CapturedRequest, f: ListFilter) {
    && (f.httpMethod != "" ==> EqualFold(r.httpMethod, f.httpMethod))
    && (f.contentType != "" ==> r.contentType == f.contentType)
    && (f.pathContains != "" ==> Contains(ToLower(r.path), ToLower(f.pathContains)))
    && (f.remoteIP != "" ==> r.remoteIP == f.remoteIP)
    && (f.userAgentContains != "" ==> Contains(ToLower(r.userAgent), ToLower(f.userAgentContains)))
    && (f.requestHash != "" ==> r.requestHash == f.requestHash)
  }

  predicate PassesBounds(r: CapturedRequest, f: ListFilter) {
    && (f.hasBody.Some? ==> (f.hasBody.value <==> r.bodySizeBytes > 0))
    && (f.minBodySize.Some? ==> f.minBodySize.value <= r.bodySizeBytes)
    && (f.maxBodySize.Some? ==> r.bodySizeBytes <= f.maxBodySize.value)
    && (f.from.Some? ==> f.from.value <= r.receivedAt)
    && (f.to.Some? ==> r.receivedAt <= f.to.value)
  }

  /** Everything that was captured as text. */
  function Texts(r: CapturedRequest): set<string> {
    {r.path, r.contentType, r.userAgent, r.bodyRaw} + r.headers.Keys + r.headers.Values + r.queryParams.Keys + r.queryParams.Values
  }

  /** Which requests pass: each part of the filter that is set, in words. */
  lemma PassesIff(r: CapturedRequest, f: ListFilter)
    ensures Passes(r, f) <==>
      && (f.httpMethod == "" || EqualFold(r.httpMethod, f.httpMethod))
      && (f.contentType == "" || r.contentType == f.contentType)
      && (f.pathContains == "" || Contains(ToLower(r.path), ToLower(f.pathContains)))
      && (f.remoteIP == "" || r.remoteIP == f.remoteIP)
      && (f.userAgentContains == "" || Contains(ToLower(r.userAgent), ToLower(f.userAgentContains)))
      && (f.requestHash == "" || r.requestHash == f.requestHash)
      && (f.hasBody == Some(true) ==> r.bodySizeBytes > 0)
      && (f.hasBody == Some(false) ==> r.bodySizeBytes == 0)
      && (f.minBodySize.Some? ==> r.bodySizeBytes >= f.minBodySize.value)
      && (f.maxBodySize.Some? ==> r.bodySizeBytes <= f.maxBodySize.value)
      && (f.from.Some? ==> r.receivedAt >= f.from.value)
      && (f.to.Some? ==> r.receivedAt <= f.to.value)
      && (TrimSpace(f.textQuery) == ""
          || exists text :: text in Texts(r) && Contains(ToLower(text), ToLower(TrimSpace(f.textQuery))))
  {
    TextMatchesIff(r, f.textQuery);
    hide EqualFold, Contains, ToLower, TrimSpace, TextMatches, Texts;
  }

  lemma TextMatchesIff(r: CapturedRequest, query: string)
    ensures TextMatches(r, query) <==>
      TrimSpace(query) == ""
      || exists text :: text in Texts(r) && Contains(ToLower(text), ToLower(TrimSpace(query)))
  {
    var needle := ToLower(TrimSpace(query));
    assert |needle| == |TrimSpace(query)|;
    hide Contains, ToLower, TrimSpace;
    PairsIff(r.headers, needle);
    PairsIff(r.queryParams, needle);
    hide FoundInPairs;
  }

  lemma PairsIff(pairs: map<string, string>, needle: string)
    ensures FoundInPairs(pairs, needle) <==>
      exists text :: text in pairs.Keys + pairs.Values && Contains(ToLower(text), needle)
  {
    hide Contains, ToLower;
    if FoundInPairs(pairs, needle) {
      var k :| k in pairs && (FoundIn(k, needle) || FoundIn(pairs[k], needle));
      assert k in pairs.Keys + pairs.Values && pairs[k] in pairs.Keys + pairs.Values;
    }
  }

  /** The loop over headers or query parameters, in whatever order the map yields them. */
  method FindInPairs(pairs: map<string, string>, needle: string) returns (found: bool)
    ensures found <==> FoundInPairs(pairs, needle)
  {
    hide FoundIn;
    var left := pairs.Keys;
    while left != {}
      invariant left <= pairs.Keys
      invariant forall k :: k in pairs && k !in left ==> !FoundIn(k, needle) && !FoundIn(pairs[k], needle)
      decreases |left|
    {
      var k :| k in left;
      if FoundIn(k, needle) || FoundIn(pairs[k], needle) {
        return true;
      }
      left := left - {k};
    }
    return false;
  }

  method MatchesTextQuery(r: CapturedRequest, query: string) returns (ok: bool)
    ensures ok <==> TextMatches(r, query)
  {
    hide FoundIn, FoundInPairs, ToLower, TrimSpace;
    var needle := ToLower(TrimSpace(query));
    if needle == "" {
      return true;
    }
    if FoundIn(r.path, needle) {
      return true;
    }
    if FoundIn(r.contentType, needle) {
      return true;
    }
    if FoundIn(r.userAgent, needle) {
      return true;
    }
    var inHeaders := FindInPairs(r.headers, needle);
    if inHeaders {
      return true;
    }
    var inParams := FindInPairs(r.queryParams, needle);
    if inParams {
      return true;
    }
    return FoundIn(r.bodyRaw, needle);
  }

  /** A blank query finds everything, so skipping the test for an empty one changes nothing. */
  lemma EmptyQueryMatches(r: CapturedRequest)
    ensures TextMatches(r, "")
  {
  }

  /** The tests of the listing's loop, in order; each one that fails skips the request. */
  method PassesTests(r: CapturedRequest, f: ListFilter) returns (ok: bool)
    ensures ok <==> Passes(r, f)
  {
    EmptyQueryMatches(r);
    hide EqualFold, Contains, ToLower, TextMatches, PassesTexts, PassesBounds;
    var texts := PassesTextTests(r, f);
    if !texts {
      return false;
    }
    var bounds := PassesBoundTests(r, f);
    if !bounds {
      return false;
    }
    if f.textQuery != "" {
      var matches := MatchesTextQuery(r, f.textQuery);
      if !matches {
        return false;
      }
    }
    return true;
  }

  /** The first six tests. */
  method PassesTextTests(r: CapturedRequest, f: ListFilter) returns (ok: bool)
    ensures ok <==> PassesTexts(r, f)
  {
    hide EqualFold, Contains, ToLower;
    if f.httpMethod != "" && !EqualFold(r.httpMethod, f.httpMethod) {
      return false;
    }
    if f.contentType != "" && r.contentType != f.contentType {
      return false;
    }
    if f.pathContains != "" && !Contains(ToLower(r.path), ToLower(f.pathContains)) {
      return false;
    }
    if f.remoteIP != "" && r.remoteIP != f.remoteIP {
      return false;
    }
    if f.userAgentContains != "" && !Contains(ToLower(r.userAgent), ToLower(f.userAgentContains)) {
      return false;
    }
    if f.requestHash != "" && r.requestHash != f.requestHash {
      return false;
    }
    return true;
  }

  /** The tests of sizes and times. */
  method PassesBoundTests(r: CapturedRequest, f: ListFilter) returns (ok: bool)
    ensures ok <==> PassesBounds(r, f)
  {
    if f.hasBody.Some? {
      var hasBody := r.bodySizeBytes > 0;
      if f.hasBody.value != hasBody {
        return false;
      }
    }
    if f.minBodySize.Some? && r.bodySizeBytes < f.minBodySize.value {
      return false;
    }
    if f.maxBodySize.Some? && r.bodySizeBytes > f.maxBodySize.value {
      return false;
    }
    if f.from.Some? && r.receivedAt < f.from.value {
      return false;
    }
    if f.to.Some? && r.receivedAt > f.to.value {
      return false;
    }
    return true;
  }

  /** What the service checks before it lists. */
  predicate IsValidFilter(f: ListFilter) {
    && (f.order == "" || EqualFold(f.order, "asc") || EqualFold(f.order, "desc"))
    && (f.minBodySize.Some? ==> 0 <= f.minBodySize.value)
    && (f.maxBodySize.Some? ==> 0 <= f.maxBodySize.value)
    && (f.minBodySize.Some? && f.maxBodySize.Some? ==> f.minBodySize.value <= f.maxBodySize.value)
  }
}

/** Requests to the local Agent, its answers, and the gate every answer passes
    before the middleware may act on it (agent.go). */
module Agent {
  import opened Text

  datatype EvaluationRequest = EvaluationRequest(
    requestID: string,
    clientIP: string,
    clientIPSource: string,
    method_: string,
    scheme: string,
    host: string,
    path: string,
    query: string,
    headers: map<string, string>,
    cookies: map<string, string>,
    headerMode: string,
    cookieMode: string,
    allowlistedHeaders: seq<string>,
    allowlistedCookies: seq<string>,
    headersTruncated: bool,
    cookiesTruncated: bool,
    protocolType: string,
    httpVersion: string,
    body: string,
    bodyTruncated: bool,
    resourceHint: string)

  /** The decision strings of the wire format; anything else is Unknown. */
  datatype Decision = Allow | Observe | Block | Challenge | RateLimit | Error | Unknown(text: string)

  datatype EvaluationResponse = EvaluationResponse(
    decision: Decision,
    status: int,
    requestID: string,
    publicReason: string,
    cacheTTLMS: int,
    resourceID: string,
    siteID: string,
    challengeURL: string,
    challengeToken: string,
    challengeAutoStart: bool,
    cacheable: bool,
    cacheKey: string,
    cacheKeyScope: string,
    decisionScope: string,
    policyRevision: nat,
    retryAfterSeconds: int)

  datatype AgentErrorKind = AgentUnavailable | AgentMalformed

  /** What agentClient.evaluate hands back: an error, or a decoded response that
      the gate below has accepted. */
  datatype Answer = Failed(kind: AgentErrorKind) | Response(response: EvaluationResponse)

  const MAXIMUM_RETRY_AFTER := 86400
  const MAXIMUM_CACHE_TTL_MS := 5000

  function ExpectedStatus(d: Decision): int {
    match d
    case Allow => 200
    case Observe => 200
    case Block => 403
    case Challenge => 403
    case RateLimit => 429
    case _ => 0
  }

  predicate ContainsAny(s: string, chars: string) {
    exists i :: 0 <= i < |s| && s[i] in chars
  }

  predicate LowerHex(s: string) {
    forall i :: 0 <= i < |s| ==> '0' <= s[i] <= '9' || 'a' <= s[i] <= 'f'
  }

  predicate ValidPublicReason(s: string) {
    && 1 <= |s| <= 64
    && forall i :: 0 <= i < |s| ==> 'a' <= s[i] <= 'z' || '0' <= s[i] <= '9' || s[i] == '_'
  }

  predicate ValidStatus(r: EvaluationResponse) {
    match r.decision
    case Unknown(_) => false
    case Error => 400 <= r.status <= 599
    case d => r.status == ExpectedStatus(d)
  }

  predicate ValidChallengeURL(url: string) {
    || url == ""
    || (url[0] == '/' && !("//" <= url) && |url| <= 2048 && !ContainsAny(url, "\r\n"))
  }

  predicate ValidCacheGrant(r: EvaluationResponse) {
    if r.cacheable then
      && (r.decision == Block || r.decision == RateLimit)
      && r.cacheTTLMS > 0 && |r.cacheKey| == 64 && r.cacheKeyScope == "request"
      && 1 <= |r.decisionScope| <= 256 && r.policyRevision != 0
      && LowerHex(r.cacheKey) && !ContainsAny(r.decisionScope, "\r\n\0")
    else
      r.cacheKey == "" && r.cacheKeyScope == "" && r.decisionScope == "" && r.policyRevision == 0
  }

  /** validateEvaluationResponse. */
  predicate ValidResponse(requestID: string, r: EvaluationResponse) {
    && r.requestID == requestID
    && ValidStatus(r)
    && ValidPublicReason(r.publicReason) && |r.resourceID| <= 128 && |r.siteID| <= 128
    && 0 <= r.retryAfterSeconds <= MAXIMUM_RETRY_AFTER
    && (r.retryAfterSeconds > 0 ==> r.decision == RateLimit || r.decision == Block)
    && 0 <= r.cacheTTLMS <= MAXIMUM_CACHE_TTL_MS
    && ValidChallengeURL(r.challengeURL)
    && |r.challengeToken| <= 4096 && !ContainsAny(r.challengeToken, "\r\n")
    && (r.decision == Challenge ==>
          r.challengeURL != "" && r.challengeToken != "" && r.resourceID != "" && r.siteID != "")
    && ValidCacheGrant(r)
  }

  ghost predicate ValidAnswer(requestID: string, a: Answer) {
    a.Response? ==> ValidResponse(requestID, a.response)
  }
}

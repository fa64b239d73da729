/** ServeHTTP up to the cache (middleware.go, lines 15-87): how the client address, the
    body and the forwarded metadata make the request the Agent judges, or turn it away;
    and both halves of ServeHTTP together. */
module FrontDoor {
  import opened Text
  import opened Agent
  import opened Addresses
  import opened CacheKey
  import opened CacheRuns
  import opened CookieForwarding
  import opened Pipeline
  import Bodies
  import ClientIp
  import Forwarding
  import Middlewares
  import PipelineResults
  import ProviderRanges
  import Selection

  /** What the configuration fixes for every request of one middleware. */
  datatype Door = Door(
    strategy: ClientIp.Strategy,
    trusted: seq<Network>,
    challengePrefix: string,
    capture: Bodies.CaptureConfig,
    rejectOversize: bool,
    policy: Forwarding.ForwardingPolicy,
    resourceHint: string,
    addressText: Bits -> string)

  datatype Protocol = WebSocket | Grpc | ServerEvents | WebDav | PlainHttp

  /** A request as it arrives, but for its body. */
  datatype Arrival = Arrival(
    requestID: string,
    client: ClientIp.Request,
    overTls: bool,
    forwardedProto: string,
    host: string,
    path: string,
    pathIsUtf8: bool,
    query: string,
    protocol: Protocol,
    httpVersion: string,
    fields: Forwarding.Request)

  function ProtocolText(p: Protocol): string {
    match p
    case WebSocket => "websocket"
    case Grpc => "grpc"
    case ServerEvents => "sse"
    case WebDav => "webdav"
    case PlainHttp => "http"
  }

  function SourceText(s: ClientIp.IpSource): string {
    match s
    case DirectSource => "direct"
    case ForwardedSource => "forwarded"
    case CloudflareSource => "cloudflare"
    case BunnySource => "bunny"
    case CdnUnresolved => "cdn_unresolved"
    case FallbackError => "fallback_error"
  }

  /** strings.ToUpper on a method. */
  function Upper(s: string): (r: string)
    ensures |r| == |s| && forall i :: 0 <= i < |s| ==> r[i] == UpperChar(s[i])
    ensures NulFree(s) ==> NulFree(r)
  {
    seq(|s|, i requires 0 <= i < |s| => UpperChar(s[i]))
  }

  /** Bytes as the text that carries them. */
  function TextOf(bytes: Bodies.Bytes): (r: string)
    ensures |r| == |bytes| && forall i :: 0 <= i < |r| ==> r[i] as int == bytes[i] as int
  {
    seq(|bytes|, i requires 0 <= i < |bytes| => bytes[i] as char)
  }

  function SplitAt(s: string, separator: char): (r: seq<string>)
    ensures |r| > 0
  {
    if s == "" then [""]
    else
      var rest := SplitAt(s[1..], separator);
      if s[0] == separator then [""] + rest else [[s[0]] + rest[0]] + rest[1..]
  }

  // ---------------------------------------------------------------------
  // The tests
  // ---------------------------------------------------------------------

  /** handleChallengeEndpoint: its two endpoints and its "not found" all lie under the
      configured prefix. */
  predicate IsChallengeRoute(door: Door, path: string) {
    door.challengePrefix + "/" <= path
  }

  /** validInboundMetadata. */
  predicate ValidInboundMetadata(a: Arrival) {
    && 1 <= |a.fields.method_| <= 32 && 1 <= |a.host| <= 253 && |a.path| <= 8192 && |a.query| <= 8192
    && '\r' !in a.host && '\n' !in a.host && NUL !in a.host
    && a.pathIsUtf8 && "/" <= a.path && NUL !in a.path && '?' !in a.path && '#' !in a.path
    && "." !in SplitAt(a.path, '/') && ".." !in SplitAt(a.path, '/')
  }

  predicate Admissible(door: Door, a: Arrival) {
    a.client.peer.Readable? && !IsChallengeRoute(door, a.path) && ValidInboundMetadata(a)
  }

  /** requestScheme. */
  function RequestScheme(door: Door, a: Arrival): string {
    var forwarded := Bodies.TrimSpace(Lower(a.forwardedProto));
    if a.overTls then "https"
    else if a.client.peer.Readable? && ClientIp.IpIsTrusted(Normalize(a.client.peer.ip), door.trusted)
            && (forwarded == "https" || forwarded == "http")
    then forwarded
    else "http"
  }

  /** X-Forwarded-Proto counts from a trusted peer alone, and only without TLS: a scheme is
      "https" for TLS or when such a peer says so, in any case and padding, else "http". */
  lemma SchemeMeaning(door: Door, a: Arrival, other: string)
    ensures RequestScheme(door, a) == "https" || RequestScheme(door, a) == "http"
    ensures RequestScheme(door, a) == "https" <==>
            a.overTls
            || (a.client.peer.Readable? && ClientIp.IpIsTrusted(a.client.peer.ip, door.trusted)
                && exists left, right :: Bodies.Padded(Lower(a.forwardedProto), left, "https", right))
    ensures a.overTls || a.client.peer.Unreadable? || !ClientIp.IpIsTrusted(a.client.peer.ip, door.trusted) ==>
              RequestScheme(door, a.(forwardedProto := other)) == RequestScheme(door, a)
  {
    if a.client.peer.Readable? {
      ClientIp.NormalizeTwice(a.client.peer.ip);
    }
    var left, right := Bodies.TrimSpacePads(Lower(a.forwardedProto));
    forall l, r | Bodies.Padded(Lower(a.forwardedProto), l, "https", r)
      ensures Bodies.TrimSpace(Lower(a.forwardedProto)) == "https"
    {
      Bodies.TrimSpaceMeaning(Lower(a.forwardedProto), l, "https", r);
    }
  }

  /** The challenge routes: everything under the prefix, the two endpoints among it. */
  lemma ChallengeRoutes(door: Door, path: string)
    ensures IsChallengeRoute(door, path) <==> exists rest :: path == door.challengePrefix + "/" + rest
    ensures IsChallengeRoute(door, door.challengePrefix + "/challenge")
    ensures IsChallengeRoute(door, door.challengePrefix + "/challenge" + "/verify")
  {
    var under := door.challengePrefix + "/";
    if under <= path {
      assert path == under + path[|under|..];
    }
    assert door.challengePrefix + "/challenge" == under + "challenge";
    assert door.challengePrefix + "/challenge" + "/verify" == under + "challenge/verify";
  }

  /** The first of the parts ends at the first separator, and the others are those of what
      follows. */
  lemma {:induction false} FirstPart(s: string, separator: char) returns (k: nat)
    ensures k <= |s| && SplitAt(s, separator)[0] == s[..k] && separator !in s[..k]
    ensures if k == |s| then |SplitAt(s, separator)| == 1
            else s[k] == separator && SplitAt(s, separator)[1..] == SplitAt(s[k + 1..], separator)
  {
    if s == "" || s[0] == separator {
      k := 0;
    } else {
      var j := FirstPart(s[1..], separator);
      k := j + 1;
      assert s[..k] == [s[0]] + s[1..][..j];
      if k < |s| {
        assert s[k + 1..] == s[1..][j + 1..];
      }
    }
  }

  ghost predicate StandsBetween(s: string, separator: char, part: string, i: nat) {
    && i + |part| <= |s| && s[i..i + |part|] == part
    && (i == 0 || s[i - 1] == separator) && (i + |part| == |s| || s[i + |part|] == separator)
  }

  /** A part is what stands between two separators or the ends. */
  lemma {:induction false} PartsMeaning(s: string, separator: char, part: string)
    requires separator !in part
    ensures part in SplitAt(s, separator) <==> exists i: nat :: StandsBetween(s, separator, part, i)
    decreases |s|
  {
    var k := FirstPart(s, separator);
    var parts := SplitAt(s, separator);
    assert parts == [parts[0]] + parts[1..];
    if part == parts[0] {
      assert StandsBetween(s, separator, part, 0);
    }
    if k < |s| {
      var rest := s[k + 1..];
      PartsMeaning(rest, separator, part);
      if j: nat :| StandsBetween(rest, separator, part, j) {
        LaterPart(s, separator, part, k, j);
      }
    }
    if i: nat :| StandsBetween(s, separator, part, i) {
      if i <= k {
        FirstPartStands(s, separator, part, k, i);
      } else {
        LaterPart(s, separator, part, k, i - k - 1);
      }
    }
  }

  lemma FirstPartStands(s: string, separator: char, part: string, k: nat, i: nat)
    requires k <= |s| && separator !in s[..k] && (k == |s| || s[k] == separator) && separator !in part
    requires StandsBetween(s, separator, part, i) && i <= k
    ensures part == s[..k]
  {
    assert forall j :: 0 <= j < k ==> s[..k][j] == s[j];
    assert forall j :: 0 <= j < |part| ==> part[j] == s[i + j];
    assert i == 0 && |part| == k;
  }

  lemma LaterPart(s: string, separator: char, part: string, k: nat, j: nat)
    requires k < |s| && s[k] == separator
    ensures StandsBetween(s[k + 1..], separator, part, j) <==> StandsBetween(s, separator, part, k + 1 + j)
  {
    if k + 1 + j + |part| <= |s| {
      assert s[k + 1..][j..j + |part|] == s[k + 1 + j..k + 1 + j + |part|];
    }
  }

  /** The metadata let in, exactly: bounded lengths, a host on one line, and a rooted path
      of valid text without a query, fragment or NUL in it that neither climbs nor stays in
      place, which would take a single or a double dot between two slashes or a slash and
      the end. */
  lemma MetadataMeaning(a: Arrival)
    ensures ValidInboundMetadata(a) <==>
            && 0 < |a.fields.method_| < 33 && 0 < |a.host| < 254 && |a.path| < 8193 && |a.query| < 8193
            && (forall i :: 0 <= i < |a.host| ==> a.host[i] as int !in {0, 10, 13})
            && a.pathIsUtf8 && a.path != "" && a.path[0] == '/'
            && (forall i :: 0 <= i < |a.path| ==> a.path[i] != '?' && a.path[i] != '#' && a.path[i] as int != 0)
            && forall i: nat :: !StandsBetween(a.path, '/', ".", i) && !StandsBetween(a.path, '/', "..", i)
  {
    PartsMeaning(a.path, '/', ".");
    PartsMeaning(a.path, '/', "..");
    assert "/" <= a.path <==> a.path != "" && a.path[0] == '/';
    forall i | 0 <= i < |a.host|
      ensures a.host[i] as int in {0, 10, 13} <==> a.host[i] == NUL || a.host[i] == '\n' || a.host[i] == '\r'
    {}
  }

  /** The five words, each for its own protocol; so no body is read but in plain HTTP. */
  lemma ProtocolWords(door: Door, a: Arrival, mediaType: Option<string>)
    ensures ProtocolText(a.protocol) == match a.protocol
                                        case PlainHttp => "http"
                                        case WebDav => "webdav"
                                        case ServerEvents => "sse"
                                        case Grpc => "grpc"
                                        case WebSocket => "websocket"
    ensures Bodies.Eligible(door.capture, a.path, mediaType, ProtocolText(a.protocol)) ==> a.protocol.PlainHttp?
  {
    assert "grpc"[0] != "http"[0];
  }

  // ---------------------------------------------------------------------
  // What the Agent is told
  // ---------------------------------------------------------------------

  /** What capturing the body of an admissible request comes to. */
  ghost function Capturing(door: Door, a: Arrival, request: Bodies.Request): Bodies.Captured
    requires request.body != null ==> request.body.Valid()
    reads request, if request.body != null then request.body.repr else {}
  {
    if request.body == null || !Bodies.Eligible(door.capture, a.path, request.mediaType, ProtocolText(a.protocol))
    then Bodies.Skipped
    else Bodies.Outcome(request.body.View(), door.capture.maximumBytes)
  }

  /** The headers are those the forwarding policy chooses. */
  ghost predicate HeadersFor(policy: Forwarding.ForwardingPolicy, fields: Forwarding.Request, q: EvaluationRequest) {
    exists rest :: Forwarding.IsRemainder(policy, fields.header, rest)
      && q.headers == Forwarding.Framed(fields, Forwarding.ChosenHeaders(policy, fields.header, rest).result)
      && q.headersTruncated == Forwarding.ChosenHeaders(policy, fields.header, rest).truncated
  }

  /** The address is the one the cascade finds, with the word for how it was found. */
  ghost predicate AddressFor(door: Door, client: ClientIp.Request, providers: ProviderRanges.Snapshot, now: Time,
                             q: EvaluationRequest) {
    var o := ClientIp.ExtractClientIPWithSource(client, door.strategy, door.trusted, providers, now);
    o.client.Some? && q.clientIP == door.addressText(o.client.value) && q.clientIPSource == SourceText(o.source)
  }

  /** The six words, each for its own source. */
  lemma SourceWords(door: Door, client: ClientIp.Request, providers: ProviderRanges.Snapshot, now: Time,
                    q: EvaluationRequest)
    requires AddressFor(door, client, providers, now, q)
    ensures var o := ClientIp.ExtractClientIPWithSource(client, door.strategy, door.trusted, providers, now);
            && (q.clientIPSource == "direct" <==> o.source == ClientIp.DirectSource)
            && (q.clientIPSource == "forwarded" <==> o.source == ClientIp.ForwardedSource)
            && (q.clientIPSource == "cloudflare" <==> o.source == ClientIp.CloudflareSource)
            && (q.clientIPSource == "bunny" <==> o.source == ClientIp.BunnySource)
            && (q.clientIPSource == "cdn_unresolved" <==> o.source == ClientIp.CdnUnresolved)
            && (q.clientIPSource == "fallback_error" <==> o.source == ClientIp.FallbackError)
  {
    assert "cdn_unresolved"[0] != "fallback_error"[0];
  }

  /** The body is whole or left out, and flagged exactly when it was too large. */
  ghost predicate BodyFor(captured: Bodies.Captured, q: EvaluationRequest) {
    && (q.bodyTruncated <==> captured == Bodies.Oversized)
    && q.body == if captured.Whole? then TextOf(captured.bytes) else ""
  }

  /** What only the configuration decides. */
  ghost predicate ConfiguredBy(door: Door, q: EvaluationRequest) {
    && q.headerMode == (if door.policy.allHeaders then "all" else "")
    && q.cookieMode == (if door.policy.allCookies then "all" else "")
    && q.allowlistedHeaders == door.policy.allowlistedHeaders && q.allowlistedCookies == door.policy.allowlistedCookies
    && q.resourceHint == door.resourceHint
  }

  /** What is taken over from the request line and the connection. */
  ghost predicate LineFor(door: Door, a: Arrival, q: EvaluationRequest) {
    && q.requestID == a.requestID && q.method_ == Upper(a.fields.method_) && q.scheme == RequestScheme(door, a)
    && q.host == a.host && q.path == a.path && q.query == a.query
    && q.protocolType == ProtocolText(a.protocol) && q.httpVersion == a.httpVersion
  }

  /** The Agent is told this of the arrival. */
  ghost predicate Describes(door: Door, a: Arrival, providers: ProviderRanges.Snapshot, now: Time,
                            captured: Bodies.Captured, q: EvaluationRequest) {
    && Admissible(door, a) && LineFor(door, a, q) && ConfiguredBy(door, q)
    && AddressFor(door, a.client, providers, now, q) && BodyFor(captured, q) && HeadersFor(door.policy, a.fields, q)
    && q.cookies == ChosenCookies(door.policy, a.fields.cookies).result
    && q.cookiesTruncated == ChosenCookies(door.policy, a.fields.cookies).truncated
  }

  /** From the stream to the Agent: of a body without faults it is told every byte, in
      order, or that the body was too large and nothing of it. */
  lemma BodyIsTold(q: EvaluationRequest, supply: Bodies.Supply, limit: nat)
    requires Bodies.Faultless(supply) && BodyFor(Bodies.Outcome(supply, limit), q)
    ensures var bytes := Bodies.Flatten(supply.pieces);
            if |bytes| > limit then q.bodyTruncated && q.body == ""
            else && !q.bodyTruncated && |q.body| == |bytes|
                 && forall i :: 0 <= i < |bytes| ==> q.body[i] as int == bytes[i] as int
  {
    Bodies.ChunkingIsInvisible(supply, supply, limit);
  }

  ghost predicate ValidDoor(door: Door) {
    && Distinct(door.policy.cookies) && door.policy.cookieSet == Elements(door.policy.cookies)
    && NulFree(door.resourceHint) && forall ip :: NulFree(door.addressText(ip))
  }

  /** What the consumer behind the middleware reads before its first fault. */
  ghost function Behind(door: Door, a: Arrival, request: Bodies.Request): Bodies.Bytes
    requires request.body != null && request.body.Valid()
    reads request, if request.body != null then request.body.repr else {}
  {
    if Admissible(door, a) && !Capturing(door, a, request).Skipped?
    then Bodies.Downstream(request.body.View(), door.capture.maximumBytes)
    else Bodies.BeforeFault(request.body.View().pieces)
  }

  /** ServeHTTP up to the cache. Each way out is taken exactly under its own condition,
      tested in this order; only an admissible request has its body touched, and the body
      keeps all its bytes for the service behind. */
  method TakeIn(door: Door, a: Arrival, providers: ProviderRanges.Snapshot, now: Time, request: Bodies.Request)
    returns (intake: Intake)
    requires ValidDoor(door) && request.path == a.path
    requires request.body != null ==> request.body.Valid()
    modifies request, if request.body != null then request.body.repr else {}
    ensures Tested(door, a, intake)
    ensures !Admissible(door, a) ==>
              unchanged(request) && (old(request.body) != null ==> unchanged(old(request.body.repr)))
    ensures Admissible(door, a) ==> ComesTo(door, a, providers, now, old(Capturing(door, a, request)), intake)
    ensures old(request.body) != null ==>
              && request.body != null && request.body.Valid()
              && request.body.Remaining() == old(request.body.Remaining())
              && Bodies.BeforeFault(request.body.View().pieces) == old(Behind(door, a, request))
  {
    var o := ClientIp.ExtractClientIPWithSource(a.client, door.strategy, door.trusted, providers, now);
    if o.client.None? {
      return NoClientAddress;
    }
    if IsChallengeRoute(door, a.path) {
      return ChallengeRoute;
    }
    if !ValidInboundMetadata(a) {
      return InvalidMetadata;
    }
    var captured := Bodies.CaptureRequestBody(request, door.capture, ProtocolText(a.protocol));
    intake := Admit(door, a, providers, now, captured, o);
  }

  /** The three tests before the body. */
  ghost predicate Tested(door: Door, a: Arrival, intake: Intake) {
    && (intake.NoClientAddress? <==> a.client.peer.Unreadable?)
    && (intake.ChallengeRoute? <==> a.client.peer.Readable? && IsChallengeRoute(door, a.path))
    && (intake.InvalidMetadata? <==>
          a.client.peer.Readable? && !IsChallengeRoute(door, a.path) && !ValidInboundMetadata(a))
  }

  /** What an admissible request comes to, its body captured. */
  ghost predicate ComesTo(door: Door, a: Arrival, providers: ProviderRanges.Snapshot, now: Time,
                          captured: Bodies.Captured, intake: Intake) {
    && (intake.BodyUnreadable? <==> captured == Bodies.Failed)
    && (intake.BodyRejected? <==> captured == Bodies.Oversized && door.rejectOversize)
    && (intake.Evaluate? <==> !intake.BodyUnreadable? && !intake.BodyRejected?)
    && (intake.Evaluate? ==> Describes(door, a, providers, now, captured, intake.input))
  }

  method Admit(door: Door, a: Arrival, providers: ProviderRanges.Snapshot, now: Time, captured: Bodies.Captured,
               o: ClientIp.Outcome) returns (intake: Intake)
    requires ValidDoor(door) && Admissible(door, a) && o.client.Some?
    requires o == ClientIp.ExtractClientIPWithSource(a.client, door.strategy, door.trusted, providers, now)
    ensures ComesTo(door, a, providers, now, captured, intake)
  {
    if captured.Failed? {
      return BodyUnreadable;
    }
    if captured.Oversized? && door.rejectOversize {
      return BodyRejected;
    }
    var input := Describe(door, a, providers, now, captured, o);
    return Evaluate(input);
  }

  /** The evaluationRequest literal and what completes it. */
  method Describe(door: Door, a: Arrival, providers: ProviderRanges.Snapshot, now: Time, captured: Bodies.Captured,
                  o: ClientIp.Outcome) returns (input: EvaluationRequest)
    requires ValidDoor(door) && Admissible(door, a) && o.client.Some?
    requires o == ClientIp.ExtractClientIPWithSource(a.client, door.strategy, door.trusted, providers, now)
    ensures Describes(door, a, providers, now, captured, input)
  {
    var headers, headersTruncated := Forwarding.ForwardedHeaders(door.policy, a.fields);
    var cookies, cookiesTruncated := ForwardedCookies(door.policy, a.fields.cookies);
    input := EvaluationRequest(
      a.requestID, door.addressText(o.client.value), SourceText(o.source), Upper(a.fields.method_),
      RequestScheme(door, a), a.host, a.path, a.query, headers, cookies, "", "",
      door.policy.allowlistedHeaders, door.policy.allowlistedCookies, headersTruncated, cookiesTruncated,
      ProtocolText(a.protocol), a.httpVersion, if captured.Whole? then TextOf(captured.bytes) else "",
      captured.Oversized?, door.resourceHint);
    if door.policy.allHeaders {
      input := input.(headerMode := "all");
    }
    if door.policy.allCookies {
      input := input.(cookieMode := "all");
    }
    if input.path == "" {
      input := input.(path := "/");
    }
  }

  // ---------------------------------------------------------------------
  // What the cache key binds behind one door
  // ---------------------------------------------------------------------

  /** What the HTTP library has already refused: NUL in the request line or in a transfer
      coding. */
  ghost predicate OnWire(a: Arrival) {
    && NulFree(a.fields.method_) && NulFree(a.query) && NulFree(a.httpVersion)
    && forall e :: e in a.fields.transferEncoding ==> NulFree(e)
  }

  /** So every request let in meets the conditions under which keys bind, and all its
      header names are folded. */
  lemma DescribedIsNulFree(door: Door, a: Arrival, providers: ProviderRanges.Snapshot, now: Time,
                           captured: Bodies.Captured, q: EvaluationRequest)
    requires ValidDoor(door) && OnWire(a) && Describes(door, a, providers, now, captured, q)
    ensures NulFreeRequest(q) && LowerCaseKeys(q.headers)
  {
    HeadersSuitTheKey(door.policy, a.fields, q);
    CookiesAreNulFree(door.policy, a.fields.cookies);
    LineIsNulFree(door, a, q);
  }

  lemma LineIsNulFree(door: Door, a: Arrival, q: EvaluationRequest)
    requires ValidDoor(door) && OnWire(a) && Admissible(door, a) && LineFor(door, a, q)
    requires NulFree(q.clientIP) && q.resourceHint == door.resourceHint
    ensures AllNulFree(FixedParts(q))
  {
    assert NulFree(RequestScheme(door, a)) && NulFree(ProtocolText(a.protocol));
    assert NulFree(a.host) && NulFree(a.path);
  }

  lemma HeadersSuitTheKey(policy: Forwarding.ForwardingPolicy, fields: Forwarding.Request, q: EvaluationRequest)
    requires HeadersFor(policy, fields, q) && forall e :: e in fields.transferEncoding ==> NulFree(e)
    ensures NulFreeMap(q.headers) && LowerCaseKeys(q.headers)
  {
    var rest :| Forwarding.IsRemainder(policy, fields.header, rest)
                && q.headers == Forwarding.Framed(fields, Forwarding.ChosenHeaders(policy, fields.header, rest).result);
    Forwarding.ChosenHeadersSuitTheKey(policy, fields.header, rest);
    Forwarding.FramingSuitsTheKey(fields, Forwarding.ChosenHeaders(policy, fields.header, rest).result);
  }

  lemma CookiesAreNulFree(policy: Forwarding.ForwardingPolicy, parsed: seq<Forwarding.Cookie>)
    ensures NulFreeMap(ChosenCookies(policy, parsed).result)
  {
    Selection.ChoiceIsNulFree(CookieOffers(policy, parsed), Repeats(parsed));
  }

  /** The request came in through this door. */
  ghost predicate CameThrough(door: Door, q: EvaluationRequest) {
    exists a, providers, now, captured :: OnWire(a) && Describes(door, a, providers, now, captured, q)
  }

  lemma CameThroughIsNulFree(door: Door, q: EvaluationRequest)
    requires ValidDoor(door) && CameThrough(door, q)
    ensures NulFreeRequest(q) && LowerCaseKeys(q.headers) && ConfiguredBy(door, q)
  {
    var a, providers, now, captured :| OnWire(a) && Describes(door, a, providers, now, captured, q);
    DescribedIsNulFree(door, a, providers, now, captured, q);
  }

  /** Behind one door the key leaves out one thing only: how the address was found. Two
      requests with one key are the same request if and only if they carry the same flags,
      the same names and the same word for that. */
  lemma KeyBindsAllButSource(door: Door, p: EvaluationRequest, q: EvaluationRequest, digest: string -> string)
    requires ValidDoor(door) && IdealDigest(digest) && CameThrough(door, p) && CameThrough(door, q)
    ensures SameRequest(p, q) <==>
            Fingerprint(p, digest) == Fingerprint(q, digest) && SameFlagsAndNames(p, q)
            && p.clientIPSource == q.clientIPSource
  {
    CameThroughIsNulFree(door, p);
    CameThroughIsNulFree(door, q);
    FingerprintBindsWholeRequest(p, q, digest);
  }

  /** A visitor behind a trusted proxy is found in the chain, and the same visitor
      connecting directly at the peer. */
  lemma SameVisitorTwoSources(proxied: ClientIp.Request, direct: ClientIp.Request, trusted: seq<Network>,
                              providers: ProviderRanges.Snapshot, now: Time, visitor: Bits)
    requires proxied.peer.Readable? && ClientIp.Unlisted(providers, Normalize(proxied.peer.ip), now)
    requires ClientIp.IpIsTrusted(Normalize(proxied.peer.ip), trusted)
    requires proxied.chain == [ClientIp.Address(visitor)] && direct.peer == ClientIp.Readable(visitor)
    requires ClientIp.Unlisted(providers, Normalize(visitor), now)
    requires !ClientIp.IpIsTrusted(Normalize(visitor), trusted)
    ensures ClientIp.ExtractClientIPWithSource(proxied, ClientIp.ForwardedStrategy, trusted, providers, now)
            == ClientIp.Outcome(Some(Normalize(visitor)), ClientIp.ForwardedSource, false)
    ensures ClientIp.ExtractClientIPWithSource(direct, ClientIp.ForwardedStrategy, trusted, providers, now)
            == ClientIp.Outcome(Some(Normalize(visitor)), ClientIp.DirectSource, false)
  {
    var proxy, found := Normalize(proxied.peer.ip), Normalize(visitor);
    ClientIp.HeadersOfStrangersAreIgnored(direct, ClientIp.ForwardedStrategy, trusted, providers, now);
    OneHopWalk(proxied.chain, visitor, proxy, trusted);
    assert ClientIp.Decides(proxied, ClientIp.ForwardedStrategy, trusted, providers, now, found);
    ClientIp.OutcomeFollowsDecidingPeer(proxied, ClientIp.ForwardedStrategy, trusted, providers, now);
  }

  lemma OneHopWalk(chain: seq<ClientIp.Hop>, visitor: Bits, proxy: Bits, trusted: seq<Network>)
    requires chain == [ClientIp.Address(visitor)]
    requires ClientIp.IpIsTrusted(proxy, trusted) && !ClientIp.IpIsTrusted(Normalize(visitor), trusted)
    ensures ClientIp.ForwardedIP(chain, proxy, trusted) == ClientIp.Walk(Normalize(visitor), false)
  {
    var found := Normalize(visitor);
    ClientIp.HopAt(chain, 0);
    assert ClientIp.Hops(chain) == [found];
    assert ClientIp.Route(chain, proxy) == [found, proxy];
    assert [found, proxy][..1] == [found];
    assert ClientIp.Origin([found, proxy], trusted) == ClientIp.Origin([found], trusted) == found;
    assert ClientIp.AllAddresses(chain);
  }

  /** The same request with the visitor at the other end of the connection. */
  function FromVisitor(a: Arrival, visitor: Bits): Arrival {
    a.(client := a.client.(peer := ClientIp.Readable(visitor)))
  }

  /** And the word really differs. Whatever the Agent is told of a visitor behind a trusted
      proxy, it is told the same of that visitor connecting directly with the same bytes,
      under the same key, but for "direct" in place of "forwarded". */
  lemma ProxiedAndDirectShareAKey(
    door: Door, a: Arrival, providers: ProviderRanges.Snapshot, now: Time, captured: Bodies.Captured,
    visitor: Bits, p: EvaluationRequest, digest: string -> string)
    requires door.strategy == ClientIp.ForwardedStrategy && Describes(door, a, providers, now, captured, p)
    requires ClientIp.Unlisted(providers, Normalize(a.client.peer.ip), now)
    requires ClientIp.IpIsTrusted(Normalize(a.client.peer.ip), door.trusted)
    requires a.client.chain == [ClientIp.Address(visitor)]
    requires ClientIp.Unlisted(providers, Normalize(visitor), now)
    requires !ClientIp.IpIsTrusted(Normalize(visitor), door.trusted)
    requires RequestScheme(door, a) == RequestScheme(door, FromVisitor(a, visitor))
    ensures var q := p.(clientIPSource := "direct");
            && p.clientIPSource == "forwarded"
            && Describes(door, FromVisitor(a, visitor), providers, now, captured, q)
            && Fingerprint(p, digest) == Fingerprint(q, digest) && SameFlagsAndNames(p, q) && !SameRequest(p, q)
  {
    SameVisitorTwoSources(a.client, FromVisitor(a, visitor).client, door.trusted, providers, now, visitor);
    KeyOfRenamed(p, p.(clientIPSource := "direct"), digest);
    OtherPeerSameRest(door, a, FromVisitor(a, visitor), providers, now, captured, p, "direct");
  }

  lemma OtherPeerSameRest(door: Door, a: Arrival, b: Arrival, providers: ProviderRanges.Snapshot, now: Time,
                          captured: Bodies.Captured, p: EvaluationRequest, source: string)
    requires Describes(door, a, providers, now, captured, p)
    requires b == a.(client := b.client) && b.client.peer.Readable? && RequestScheme(door, a) == RequestScheme(door, b)
    requires AddressFor(door, b.client, providers, now, p.(clientIPSource := source))
    ensures Describes(door, b, providers, now, captured, p.(clientIPSource := source))
  {
    var q := p.(clientIPSource := source);
    assert LineFor(door, b, q) && ConfiguredBy(door, q) && BodyFor(captured, q);
    assert HeadersFor(door.policy, a.fields, q);
  }

  lemma KeyOfRenamed(p: EvaluationRequest, q: EvaluationRequest, digest: string -> string)
    requires p.(requestID := q.requestID, clientIPSource := q.clientIPSource) == q
    ensures Fingerprint(p, digest) == Fingerprint(q, digest) && SameFlagsAndNames(p, q)
    ensures SameRequest(p, q) <==> p.clientIPSource == q.clientIPSource
  {
    SamePartsSameFingerprint(p, q, digest);
  }

  // ---------------------------------------------------------------------
  // Cached decisions behind one door
  // ---------------------------------------------------------------------

  /** Everything the pipeline evaluates came in through this door. */
  ghost predicate AllCameThrough(door: Door, flights: map<nat, Flight>) {
    forall id :: id in flights && flights[id].intake.Evaluate? ==> CameThrough(door, flights[id].intake.input)
  }

  /** A cached decision is the Agent's answer to a request with the same nine fields, and
      to the very same request if and only if flags, names and address source agree. */
  lemma CachedDecisionBehindDoor(door: Door, cfg: Config, s: System, id: nat, r: EvaluationResponse)
    requires ValidDoor(door) && ValidConfig(cfg) && Reachable(cfg, s) && AllCameThrough(door, s.flights)
    requires id in s.flights && Hit(cfg, s.ops, s.flights[id], r)
    ensures exists source ::
              && PipelineResults.AnsweredFor(cfg, s, Key(cfg, s.flights[id]), source, r)
              && OneRequest(s.flights[source].intake.input, s.flights[id].intake.input)
  {
    PipelineResults.CachedDecisionAnswersSameRequest(cfg, s, id, r);
    var source :| PipelineResults.AnsweredFor(cfg, s, Key(cfg, s.flights[id]), source, r)
                  && PipelineResults.SharesKey(s.flights[source].intake.input, s.flights[id].intake.input);
    SharersAreOne(door, s.flights[source].intake.input, s.flights[id].intake.input);
  }

  ghost predicate OneRequest(p: EvaluationRequest, q: EvaluationRequest) {
    && FixedParts(p) == FixedParts(q)
    && (SameRequest(p, q) <==> SameFlagsAndNames(p, q) && p.clientIPSource == q.clientIPSource)
  }

  lemma SharersAreOne(door: Door, p: EvaluationRequest, q: EvaluationRequest)
    requires ValidDoor(door) && CameThrough(door, p) && CameThrough(door, q) && PipelineResults.SharesKey(p, q)
    ensures OneRequest(p, q)
  {
    CameThroughIsNulFree(door, p);
    CameThroughIsNulFree(door, q);
  }

  // ---------------------------------------------------------------------
  // The whole of ServeHTTP
  // ---------------------------------------------------------------------

  /** The second half keeps it that way: what was evaluated came in through the door. */
  method Serve(m: Middlewares.Middleware, door: Door, intake: Intake, now: Time, answer: Answer)
    requires m.Valid() && AllCameThrough(door, m.system.flights)
    requires intake.Evaluate? ==> CameThrough(door, intake.input) && ValidAnswer(intake.input.requestID, answer)
    modifies m`performed, m`system, m`arrived, m.cache, m.breaker
    ensures m.Valid() && AllCameThrough(door, m.system.flights)
    ensures Served(m.cfg, intake, now, answer, old(m.arrived), old(m.system), m.system)
  {
    ghost var s, id := m.system, m.arrived;
    m.ServeHTTP(intake, now, answer);
    OneMoreCameThrough(door, s.flights, id, m.system.flights[id]);
  }

  lemma OneMoreCameThrough(door: Door, flights: map<nat, Flight>, id: nat, fl: Flight)
    requires AllCameThrough(door, flights) && (fl.intake.Evaluate? ==> CameThrough(door, fl.intake.input))
    ensures AllCameThrough(door, flights[id := fl])
  {}

  /** The run of the step machine goes on, by one request more, which has its record. */
  ghost predicate Served(cfg: Config, intake: Intake, now: Time, answer: Answer, id: nat, s: System, s': System) {
    && Leads(cfg, s, s') && id !in s.flights && id in s'.flights
    && Middlewares.ServedAs(intake, now, answer, s'.flights[id])
  }

  /** Both halves: the request is taken in and served. All the middleware ever evaluates
      has then come in through its door, so that what is said of cached decisions above
      holds of every state it gets into. */
  method ServeHTTP(m: Middlewares.Middleware, door: Door, a: Arrival, providers: ProviderRanges.Snapshot, at: Time,
                   request: Bodies.Request, now: Time, answer: Answer) returns (intake: Intake)
    requires m.Valid() && ValidDoor(door) && AllCameThrough(door, m.system.flights)
    requires OnWire(a) && request.path == a.path && ValidAnswer(a.requestID, answer)
    requires request.body != null ==> request.body.Valid()
    modifies m`performed, m`system, m`arrived, m.cache, m.breaker
    modifies request, if request.body != null then request.body.repr else {}
    ensures m.Valid() && AllCameThrough(door, m.system.flights)
    ensures Tested(door, a, intake)
    ensures Admissible(door, a) ==> ComesTo(door, a, providers, at, old(Capturing(door, a, request)), intake)
    ensures Served(m.cfg, intake, now, answer, old(m.arrived), old(m.system), m.system)
  {
    intake := TakeInFor(m, door, a, providers, at, request);
    Serve(m, door, intake, now, answer);
  }

  /** The first half leaves the middleware alone. */
  method TakeInFor(m: Middlewares.Middleware, door: Door, a: Arrival, providers: ProviderRanges.Snapshot, at: Time,
                   request: Bodies.Request) returns (intake: Intake)
    requires m.Valid() && ValidDoor(door) && OnWire(a) && request.path == a.path
    requires request.body != null ==> request.body.Valid()
    modifies request, if request.body != null then request.body.repr else {}
    ensures m.Valid() && m.system == old(m.system) && m.arrived == old(m.arrived)
    ensures Tested(door, a, intake)
    ensures Admissible(door, a) ==> ComesTo(door, a, providers, at, old(Capturing(door, a, request)), intake)
    ensures intake.Evaluate? ==> CameThrough(door, intake.input) && intake.input.requestID == a.requestID
  {
    intake := TakeIn(door, a, providers, at, request);
    ComesThrough(door, a, providers, at, old(Capturing(door, a, request)), intake);
  }

  lemma ComesThrough(door: Door, a: Arrival, providers: ProviderRanges.Snapshot, at: Time,
                     captured: Bodies.Captured, intake: Intake)
    requires OnWire(a) && Tested(door, a, intake)
    requires Admissible(door, a) ==> ComesTo(door, a, providers, at, captured, intake)
    ensures intake.Evaluate? ==> CameThrough(door, intake.input) && intake.input.requestID == a.requestID
  {
    if intake.Evaluate? {
      assert Describes(door, a, providers, at, captured, intake.input);
    }
  }
}

/** Which address a request is judged by (client_ip.go). */
module ClientIp {
  import opened Addresses
  import opened CacheRuns
  import opened ProviderRanges

  const MAXIMUM_HOPS := 32

  // ---------------------------------------------------------------------
  // What the parsers leave of a request
  // ---------------------------------------------------------------------

  /** The peer address; one that does not parse has no address. */
  datatype Peer = Unreadable | Readable(ip: Bits)

  /** One comma-separated part of X-Forwarded-For. */
  datatype Hop = Blank | Garbled | Address(ip: Bits)

  /** A provider's client header: blank, several values, unparsable, or one address. */
  datatype ClientHeader = NoValue | SeveralValues | NoAddress | Names(ip: Bits)

  /** An empty X-Forwarded-For is the empty chain; any other value splits into one or more
      hops. The client headers are those under the two configured header names. */
  datatype Request = Request(peer: Peer, chain: seq<Hop>, cloudflareHeader: ClientHeader, bunnyHeader: ClientHeader)

  datatype Strategy = DirectStrategy | ForwardedStrategy | CloudflareStrategy | BunnyStrategy

  // ---------------------------------------------------------------------
  // The forwarded chain
  // ---------------------------------------------------------------------

  predicate IpIsTrusted(ip: Bits, trusted: seq<Network>) {
    exists n :: n in trusted && Contains(n, Normalize(ip))
  }

  method SearchTrusted(ip: Bits, trusted: seq<Network>) returns (found: bool)
    ensures found <==> IpIsTrusted(ip, trusted)
  {
    found := Search(trusted, Normalize(ip));
  }

  predicate AllAddresses(chain: seq<Hop>) {
    forall k :: 0 <= k < |chain| ==> chain[k].Address?
  }

  predicate WellFormed(chain: seq<Hop>) {
    |chain| <= MAXIMUM_HOPS && AllAddresses(chain)
  }

  function Hops(chain: seq<Hop>): (r: seq<Bits>)
    requires AllAddresses(chain)
    ensures |r| == |chain|
  {
    if chain == [] then [] else [Normalize(chain[0].ip)] + Hops(chain[1..])
  }

  /** The normalized hops followed by the direct peer. */
  function Route(chain: seq<Hop>, direct: Bits): (r: seq<Bits>)
    requires AllAddresses(chain)
  {
    Hops(chain) + [direct]
  }

  /** From the right, through trusted addresses only. */
  function Origin(route: seq<Bits>, trusted: seq<Network>): Bits
    requires route != []
  {
    if |route| == 1 || !IpIsTrusted(route[|route| - 1], trusted) then route[|route| - 1]
    else Origin(route[..|route| - 1], trusted)
  }

  datatype Walk = Walk(ip: Bits, failed: bool)

  function ForwardedIP(chain: seq<Hop>, direct: Bits, trusted: seq<Network>): Walk {
    if chain == [] || !IpIsTrusted(direct, trusted) then Walk(direct, false)
    else if !WellFormed(chain) then Walk(direct, true)
    else Walk(Origin(Route(chain, direct), trusted), false)
  }

  lemma HopAt(chain: seq<Hop>, k: nat)
    requires AllAddresses(chain) && k < |chain|
    ensures Hops(chain)[k] == Normalize(chain[k].ip)
  {
    if k > 0 {
      HopAt(chain[1..], k - 1);
    }
  }

  lemma Associative<T>(a: seq<T>, b: seq<T>, c: seq<T>)
    ensures a + (b + c) == (a + b) + c
  {}

  lemma {:induction false} HopsOfLongerChain(left: seq<Hop>, chain: seq<Hop>)
    requires AllAddresses(left) && AllAddresses(chain)
    ensures AllAddresses(left + chain) && Hops(left + chain) == Hops(left) + Hops(chain)
  {
    if left == [] {
      assert left + chain == chain;
    } else {
      var all, rest := left + chain, left[1..];
      HopsOfLongerChain(rest, chain);
      assert all[0] == left[0] && all[1..] == rest + chain;
      Associative([Normalize(left[0].ip)], Hops(rest), Hops(chain));
    }
  }

  /** The first loop: every part must hold an address. */
  method ParseHops(chain: seq<Hop>) returns (ok: bool, hops: seq<Bits>)
    ensures ok <==> AllAddresses(chain)
    ensures ok ==> hops == Hops(chain)
  {
    hops := [];
    for i := 0 to |chain|
      invariant AllAddresses(chain[..i]) && hops == Hops(chain[..i])
    {
      if chain[i].Blank? {
        return false, hops;
      }
      if chain[i].Garbled? {
        return false, hops;
      }
      assert Hops([chain[i]]) == [Normalize(chain[i].ip)];
      HopsOfLongerChain(chain[..i], [chain[i]]);
      assert chain[..i + 1] == chain[..i] + [chain[i]];
      hops := hops + [Normalize(chain[i].ip)];
    }
    assert chain[..|chain|] == chain;
    return true, hops;
  }

  /** The second loop, from the right. */
  method WalkBack(hops: seq<Bits>, direct: Bits, trusted: seq<Network>) returns (current: Bits)
    ensures current == Origin(hops + [direct], trusted)
  {
    ghost var route := hops + [direct];
    current := direct;
    var index := |hops|;
    assert route[..|hops| + 1] == route;
    while index > 0
      invariant 0 <= index <= |hops| && current == route[index]
      invariant Origin(route[..index + 1], trusted) == Origin(route, trusted)
    {
      var passes := SearchTrusted(current, trusted);
      if !passes {
        return;
      }
      assert route[..index + 1][..index] == route[..index];
      index := index - 1;
      current := hops[index];
    }
  }

  method ExtractForwardedIP(chain: seq<Hop>, direct: Bits, trusted: seq<Network>) returns (r: Walk)
    ensures r == ForwardedIP(chain, direct, trusted)
  {
    var known := SearchTrusted(direct, trusted);
    if |chain| == 0 || !known {
      return Walk(direct, false);
    }
    if |chain| > MAXIMUM_HOPS {
      return Walk(direct, true);
    }
    var ok, hops := ParseHops(chain);
    if !ok {
      return Walk(direct, true);
    }
    var origin := WalkBack(hops, direct, trusted);
    return Walk(origin, false);
  }

  /** The rightmost untrusted address, or the leftmost when all are trusted. */
  ghost predicate IsRightmostUntrusted(route: seq<Bits>, trusted: seq<Network>, k: nat) {
    && k < |route|
    && (forall j :: k < j < |route| ==> IpIsTrusted(route[j], trusted))
    && (k == 0 || !IpIsTrusted(route[k], trusted))
  }

  lemma {:induction false} OriginIsRightmostUntrusted(route: seq<Bits>, trusted: seq<Network>, k: nat)
    requires IsRightmostUntrusted(route, trusted, k)
    ensures Origin(route, trusted) == route[k]
  {
    if k < |route| - 1 {
      OriginIsRightmostUntrusted(route[..|route| - 1], trusted, k);
    }
  }

  lemma {:induction false} SomeAddressIsRightmostUntrusted(route: seq<Bits>, trusted: seq<Network>) returns (k: nat)
    requires route != []
    ensures IsRightmostUntrusted(route, trusted, k)
  {
    var last := |route| - 1;
    if last == 0 || !IpIsTrusted(route[last], trusted) {
      k := last;
    } else {
      k := SomeAddressIsRightmostUntrusted(route[..last], trusted);
    }
  }

  /** Whatever a client writes to the left of an untrusted address has no effect. */
  lemma {:induction false} LeftOfAnUntrustedHopIsIgnored(left: seq<Bits>, route: seq<Bits>, trusted: seq<Network>,
                                                         k: nat)
    requires k < |route| && !IpIsTrusted(route[k], trusted)
    ensures Origin(left + route, trusted) == Origin(route, trusted)
    decreases |route|
  {
    var init, last := route[..|route| - 1], route[|route| - 1];
    assert route == init + [last];
    assert left + route == (left + init) + [last];
    OriginFromTheRight(init, last, trusted);
    OriginFromTheRight(left + init, last, trusted);
    if IpIsTrusted(last, trusted) {
      assert k < |init|;
      LeftOfAnUntrustedHopIsIgnored(left, init, trusted, k);
    }
  }

  lemma OriginFromTheRight(init: seq<Bits>, last: Bits, trusted: seq<Network>)
    ensures Origin(init + [last], trusted) ==
            if init == [] || !IpIsTrusted(last, trusted) then last else Origin(init, trusted)
  {
    assert (init + [last])[..|init|] == init;
  }

  /** The same for whole requests: prepended hops that parse and fit the limit change
      nothing once the chain or the peer holds an untrusted address. */
  lemma PrependedHopsAreIgnored(left: seq<Hop>, chain: seq<Hop>, direct: Bits, trusted: seq<Network>)
    requires WellFormed(left) && WellFormed(chain) && chain != [] && |left| + |chain| <= 32
    requires !IpIsTrusted(direct, trusted)
             || exists k :: 0 <= k < |chain| && !IpIsTrusted(chain[k].ip, trusted)
    ensures ForwardedIP(left + chain, direct, trusted) == ForwardedIP(chain, direct, trusted)
  {
    if IpIsTrusted(direct, trusted) {
      var k :| 0 <= k < |chain| && !IpIsTrusted(chain[k].ip, trusted);
      NormalizeTwice(chain[k].ip);
      HopAt(chain, k);
      HopsOfLongerChain(left, chain);
      Associative(Hops(left), Hops(chain), [direct]);
      LeftOfAnUntrustedHopIsIgnored(Hops(left), Route(chain, direct), trusted, k);
    }
  }

  lemma NormalizeTwice(ip: Bits)
    ensures Normalize(Normalize(ip)) == Normalize(ip)
  {}

  /** What the walk answers, for every request: the peer itself when it is not trusted or
      no chain came with it, the peer with an error when a trusted peer sent a chain that
      is too long or holds a bad hop, and otherwise the rightmost untrusted address. */
  lemma WalkMeaning(chain: seq<Hop>, direct: Bits, trusted: seq<Network>)
    ensures var r := ForwardedIP(chain, direct, trusted);
            && (r.failed <==>
                IpIsTrusted(direct, trusted)
                && (|chain| > 32 || exists k :: 0 <= k < |chain| && !chain[k].Address?))
            && (r.failed || !IpIsTrusted(direct, trusted) || chain == [] ==> r.ip == direct)
            && (WellFormed(chain) && chain != [] ==>
                  exists k: nat :: IsRightmostUntrusted(Route(chain, direct), trusted, k)
                              && r.ip == Route(chain, direct)[k])
  {
    if WellFormed(chain) && chain != [] {
      var k := SomeAddressIsRightmostUntrusted(Route(chain, direct), trusted);
      OriginIsRightmostUntrusted(Route(chain, direct), trusted, k);
    }
  }

  // ---------------------------------------------------------------------
  // The cascade
  // ---------------------------------------------------------------------

  datatype IpSource = DirectSource | ForwardedSource | CloudflareSource | BunnySource | CdnUnresolved | FallbackError

  datatype ClientError = UnresolvedClient | OtherError

  datatype Recognition = Recognition(client: Bits, recognized: bool, error: Option<ClientError>)

  function HeaderOf(request: Request, p: Provider): ClientHeader {
    if p == Cloudflare then request.cloudflareHeader else request.bunnyHeader
  }

  function ExtractProviderIP(header: ClientHeader, direct: Bits): (Bits, Option<ClientError>) {
    match header
    case NoValue => (direct, None)
    case SeveralValues => (direct, Some(OtherError))
    case NoAddress => (direct, Some(OtherError))
    case Names(ip) => (Normalize(ip), None)
  }

  function ExtractRecognizedProviderIP(request: Request, peer: Bits, providers: Snapshot, now: Time): Recognition {
    var verdict := Classify(providers, peer, now);
    if verdict.ambiguous then Recognition(peer, true, Some(OtherError))
    else if verdict.provider == ProviderNone then Recognition(peer, false, None)
    else
      var header := HeaderOf(request, verdict.provider);
      if header.NoValue? then Recognition(peer, true, Some(UnresolvedClient))
      else
        var named := ExtractProviderIP(header, peer);
        if named.1.Some? then Recognition(named.0, true, named.1)
        else if Classify(providers, named.0, now).provider != ProviderNone
        then Recognition(peer, true, Some(UnresolvedClient))
        else Recognition(named.0, true, None)
  }

  function RecognizedProviderSource(peer: Bits, providers: Snapshot, now: Time, error: Option<ClientError>): IpSource {
    if error == Some(UnresolvedClient) then CdnUnresolved
    else if error.Some? then FallbackError
    else
      var verdict := Classify(providers, peer, now);
      if verdict.ambiguous then FallbackError
      else if verdict.provider == Cloudflare then CloudflareSource
      else if verdict.provider == Bunny then BunnySource
      else FallbackError
  }

  datatype Outcome = Outcome(client: Option<Bits>, source: IpSource, failed: bool)

  function FromProvider(r: Recognition, peer: Bits, providers: Snapshot, now: Time): Outcome {
    Outcome(Some(r.client), RecognizedProviderSource(peer, providers, now, r.error), r.error.Some?)
  }

  function ExtractClientIPWithSource(
    request: Request, strategy: Strategy, trusted: seq<Network>, providers: Snapshot, now: Time): Outcome
  {
    if request.peer.Unreadable? then Outcome(None, FallbackError, true)
    else
      var direct := Normalize(request.peer.ip);
      var r := ExtractRecognizedProviderIP(request, direct, providers, now);
      if r.recognized then FromProvider(r, direct, providers, now)
      else if strategy == ForwardedStrategy then
        var walk := ForwardedIP(request.chain, direct, trusted);
        if walk.failed then Outcome(Some(walk.ip), FallbackError, true)
        else
          var s := ExtractRecognizedProviderIP(request, walk.ip, providers, now);
          if s.recognized then FromProvider(s, walk.ip, providers, now)
          else if walk.ip == direct then Outcome(Some(walk.ip), DirectSource, false)
          else Outcome(Some(walk.ip), ForwardedSource, false)
      else Outcome(Some(direct), DirectSource, false)
  }

  // ---------------------------------------------------------------------
  // What each source means
  // ---------------------------------------------------------------------

  /** In a fresh list of p and in none of the other provider's. */
  ghost predicate Verified(providers: Snapshot, p: Provider, ip: Bits, now: Time) {
    && (p == Cloudflare || p == Bunny)
    && ListedBy(providers, p, ip, now)
    && !ListedBy(providers, if p == Cloudflare then Bunny else Cloudflare, ip, now)
  }

  ghost predicate Unlisted(providers: Snapshot, ip: Bits, now: Time) {
    !ListedBy(providers, Cloudflare, ip, now) && !ListedBy(providers, Bunny, ip, now)
  }

  /** The peer whose word counts: the connection's own unless that is no provider node
      and the forwarded strategy looks behind it. A failed walk leaves none. */
  ghost predicate Decides(
    request: Request, strategy: Strategy, trusted: seq<Network>, providers: Snapshot, now: Time, peer: Bits)
  {
    && request.peer.Readable?
    && var direct := Normalize(request.peer.ip);
       if strategy != ForwardedStrategy || !Unlisted(providers, direct, now) then peer == direct
       else ForwardedIP(request.chain, direct, trusted) == Walk(peer, false)
  }

  /** A verified peer's header names one address that is no node of a single provider.
      An address in both providers' lists passes, as client_ip.go:122 has it. */
  ghost predicate Resolves(header: ClientHeader, providers: Snapshot, p: Provider, peer: Bits, now: Time,
                           client: Bits) {
    && Verified(providers, p, peer, now)
    && header.Names? && client == Normalize(header.ip)
    && (ListedBy(providers, Cloudflare, client, now) <==> ListedBy(providers, Bunny, client, now))
  }

  /** A verified peer's header is blank, or names a node of exactly one provider. */
  ghost predicate Unresolved(header: ClientHeader, providers: Snapshot, p: Provider, peer: Bits, now: Time) {
    && Verified(providers, p, peer, now)
    && (header.NoValue? || (header.Names? && exists q :: Verified(providers, q, Normalize(header.ip), now)))
  }

  /** No verdict on the deciding peer: it is in both providers' lists, or a verified
      peer's header holds several values or no address. */
  ghost predicate Unusable(request: Request, providers: Snapshot, peer: Bits, now: Time) {
    || (ListedBy(providers, Cloudflare, peer, now) && ListedBy(providers, Bunny, peer, now))
    || (Verified(providers, Cloudflare, peer, now)
        && (request.cloudflareHeader.SeveralValues? || request.cloudflareHeader.NoAddress?))
    || (Verified(providers, Bunny, peer, now)
        && (request.bunnyHeader.SeveralValues? || request.bunnyHeader.NoAddress?))
  }

  lemma ClassifyMeansVerified(providers: Snapshot, ip: Bits, now: Time)
    ensures var v := Classify(providers, ip, now);
            && (v == Verdict(Cloudflare, false) <==> Verified(providers, Cloudflare, ip, now))
            && (v == Verdict(Bunny, false) <==> Verified(providers, Bunny, ip, now))
            && (v == Verdict(ProviderNone, false) <==> Unlisted(providers, ip, now))
            && (v.provider == ProviderNone <==> (ListedBy(providers, Cloudflare, ip, now)
                                                 <==> ListedBy(providers, Bunny, ip, now)))
  {}

  /** A verified peer whose own header tells no visitor. */
  ghost predicate Blank(request: Request, providers: Snapshot, peer: Bits, now: Time) {
    || Unresolved(request.cloudflareHeader, providers, Cloudflare, peer, now)
    || Unresolved(request.bunnyHeader, providers, Bunny, peer, now)
  }

  predicate FromHeader(source: IpSource) {
    source == CloudflareSource || source == BunnySource
  }

  predicate Undecided(source: IpSource) {
    source == CdnUnresolved || source == FallbackError
  }

  /** What a listed peer's word comes to. */
  ghost predicate Judged(request: Request, providers: Snapshot, peer: Bits, now: Time, o: Outcome) {
    && (forall c :: Resolves(request.cloudflareHeader, providers, Cloudflare, peer, now, c)
                    <==> o == Outcome(Some(c), CloudflareSource, false))
    && (forall c :: Resolves(request.bunnyHeader, providers, Bunny, peer, now, c)
                    <==> o == Outcome(Some(c), BunnySource, false))
    && (o.source == CdnUnresolved <==> Blank(request, providers, peer, now))
    && (o.source == FallbackError <==> Unusable(request, providers, peer, now))
    && (FromHeader(o.source) ==> o.client.Some? && !o.failed)
    && (Undecided(o.source) ==> o.client == Some(peer) && o.failed)
    && (FromHeader(o.source) || Undecided(o.source))
  }

  lemma OnlyOneVerifies(providers: Snapshot, p: Provider, ip: Bits, now: Time)
    requires Verified(providers, p, ip, now)
    ensures Classify(providers, ip, now) == Verdict(p, false)
    ensures forall q :: Verified(providers, q, ip, now) ==> q == p
  {}

  function Word(request: Request, peer: Bits, providers: Snapshot, now: Time): Outcome {
    FromProvider(ExtractRecognizedProviderIP(request, peer, providers, now), peer, providers, now)
  }

  lemma WordOfVerified(request: Request, providers: Snapshot, p: Provider, peer: Bits, now: Time)
    requires Verified(providers, p, peer, now)
    ensures var o := Word(request, peer, providers, now);
            var source := if p == Cloudflare then CloudflareSource else BunnySource;
            match if p == Cloudflare then request.cloudflareHeader else request.bunnyHeader
            case NoValue => o == Outcome(Some(peer), CdnUnresolved, true)
            case SeveralValues => o == Outcome(Some(peer), FallbackError, true)
            case NoAddress => o == Outcome(Some(peer), FallbackError, true)
            case Names(ip) =>
              if Classify(providers, Normalize(ip), now).provider == ProviderNone
              then o == Outcome(Some(Normalize(ip)), source, false)
              else o == Outcome(Some(peer), CdnUnresolved, true)
  {
    OnlyOneVerifies(providers, p, peer, now);
  }

  lemma NamedClientIsJudged(request: Request, providers: Snapshot, p: Provider, peer: Bits, now: Time, ip: Bits)
    requires Verified(providers, p, peer, now) && HeaderOf(request, p) == Names(ip)
    requires Classify(providers, Normalize(ip), now).provider == ProviderNone
    ensures Judged(request, providers, peer, now, Word(request, peer, providers, now))
  {
    OnlyOneVerifies(providers, p, peer, now);
    WordOfVerified(request, providers, p, peer, now);
    ClassifyMeansVerified(providers, Normalize(ip), now);
    assert Resolves(HeaderOf(request, p), providers, p, peer, now, Normalize(ip));
  }

  lemma NamedNodeIsJudged(request: Request, providers: Snapshot, p: Provider, peer: Bits, now: Time, ip: Bits)
    requires Verified(providers, p, peer, now) && HeaderOf(request, p) == Names(ip)
    requires Classify(providers, Normalize(ip), now).provider != ProviderNone
    ensures Judged(request, providers, peer, now, Word(request, peer, providers, now))
  {
    OnlyOneVerifies(providers, p, peer, now);
    WordOfVerified(request, providers, p, peer, now);
    ClassifyMeansVerified(providers, Normalize(ip), now);
    assert Verified(providers, Classify(providers, Normalize(ip), now).provider, Normalize(ip), now);
    assert Unresolved(HeaderOf(request, p), providers, p, peer, now);
  }

  lemma VerifiedIsJudged(request: Request, providers: Snapshot, p: Provider, peer: Bits, now: Time)
    requires Verified(providers, p, peer, now)
    ensures Judged(request, providers, peer, now, Word(request, peer, providers, now))
  {
    OnlyOneVerifies(providers, p, peer, now);
    WordOfVerified(request, providers, p, peer, now);
    match HeaderOf(request, p)
    case NoValue =>
      assert Unresolved(HeaderOf(request, p), providers, p, peer, now);
    case SeveralValues =>
      assert Unusable(request, providers, peer, now);
    case NoAddress =>
      assert Unusable(request, providers, peer, now);
    case Names(ip) =>
      if Classify(providers, Normalize(ip), now).provider == ProviderNone {
        NamedClientIsJudged(request, providers, p, peer, now, ip);
      } else {
        NamedNodeIsJudged(request, providers, p, peer, now, ip);
      }
  }

  lemma ListedIsJudged(request: Request, providers: Snapshot, peer: Bits, now: Time)
    requires !Unlisted(providers, peer, now)
    ensures ExtractRecognizedProviderIP(request, peer, providers, now).recognized
    ensures Judged(request, providers, peer, now, Word(request, peer, providers, now))
  {
    ClassifyMeansVerified(providers, peer, now);
    var p := Classify(providers, peer, now).provider;
    if p != ProviderNone {
      VerifiedIsJudged(request, providers, p, peer, now);
    } else {
      assert forall q :: !Verified(providers, q, peer, now);
    }
  }

  /** The outcome for the whole request: the deciding peer's word if it is listed, the
      deciding peer itself if not, and the connection's peer when no peer decides. */
  lemma OutcomeFollowsDecidingPeer(
    request: Request, strategy: Strategy, trusted: seq<Network>, providers: Snapshot, now: Time)
    ensures var o := ExtractClientIPWithSource(request, strategy, trusted, providers, now);
            && (forall peer :: Decides(request, strategy, trusted, providers, now, peer) ==>
                  if Unlisted(providers, peer, now)
                  then o == Outcome(Some(peer),
                                    if peer == Normalize(request.peer.ip) then DirectSource else ForwardedSource, false)
                  else Judged(request, providers, peer, now, o))
            && ((forall peer :: !Decides(request, strategy, trusted, providers, now, peer)) ==>
                  o == Outcome(if request.peer.Unreadable? then None else Some(Normalize(request.peer.ip)),
                               FallbackError, true))
  {
    if request.peer.Readable? {
      var direct := Normalize(request.peer.ip);
      ClassifyMeansVerified(providers, direct, now);
      if !Unlisted(providers, direct, now) {
        ListedIsJudged(request, providers, direct, now);
        assert Decides(request, strategy, trusted, providers, now, direct);
      } else if strategy == ForwardedStrategy {
        var walk := ForwardedIP(request.chain, direct, trusted);
        if !walk.failed {
          assert Decides(request, strategy, trusted, providers, now, walk.ip);
          ClassifyMeansVerified(providers, walk.ip, now);
          if !Unlisted(providers, walk.ip, now) {
            ListedIsJudged(request, providers, walk.ip, now);
          }
        }
      } else {
        assert Decides(request, strategy, trusted, providers, now, direct);
      }
    }
  }

  /** Every source, both ways: "cloudflare" and "bunny" exactly when the deciding peer is
      verified and its header names an acceptable client, which is then the answer;
      "cdn_unresolved" exactly when a verified peer's header does not, and the peer is the
      answer; "direct" and "forwarded" exactly when the deciding peer is in no list;
      "fallback_error" exactly when no peer decides or its word is unusable. */
  lemma SourceMeaning(
    request: Request, strategy: Strategy, trusted: seq<Network>, providers: Snapshot, now: Time, c: Bits)
    ensures var o := ExtractClientIPWithSource(request, strategy, trusted, providers, now);
            && (o == Outcome(Some(c), CloudflareSource, false) <==>
                exists peer :: Decides(request, strategy, trusted, providers, now, peer)
                               && Resolves(request.cloudflareHeader, providers, Cloudflare, peer, now, c))
            && (o == Outcome(Some(c), BunnySource, false) <==>
                exists peer :: Decides(request, strategy, trusted, providers, now, peer)
                               && Resolves(request.bunnyHeader, providers, Bunny, peer, now, c))
            && (o == Outcome(Some(c), CdnUnresolved, true) <==>
                Decides(request, strategy, trusted, providers, now, c)
                && (Unresolved(request.cloudflareHeader, providers, Cloudflare, c, now)
                    || Unresolved(request.bunnyHeader, providers, Bunny, c, now)))
            && (o == Outcome(Some(c), DirectSource, false) || o == Outcome(Some(c), ForwardedSource, false) <==>
                Decides(request, strategy, trusted, providers, now, c) && Unlisted(providers, c, now))
            && (o.source == FallbackError <==>
                forall peer :: Decides(request, strategy, trusted, providers, now, peer)
                               ==> Unusable(request, providers, peer, now))
            && (Undecided(o.source) <==> o.failed)
  {
    OutcomeFollowsDecidingPeer(request, strategy, trusted, providers, now);
    if peer :| Decides(request, strategy, trusted, providers, now, peer) {
      forall other | Decides(request, strategy, trusted, providers, now, other) ensures other == peer {}
      if Unlisted(providers, peer, now) {
        assert forall p :: !Verified(providers, p, peer, now);
      }
    }
  }

  /** A deciding peer that is Cloudflare's alone is judged by the Cloudflare header, case
      by case, and the Bunny header does not matter. */
  lemma CloudflareNodeSpeaksByItsHeader(request: Request, strategy: Strategy, trusted: seq<Network>,
                                        providers: Snapshot, now: Time, peer: Bits, other: ClientHeader)
    requires Decides(request, strategy, trusted, providers, now, peer)
    requires ListedBy(providers, Cloudflare, peer, now) && !ListedBy(providers, Bunny, peer, now)
    ensures ExtractClientIPWithSource(request, strategy, trusted, providers, now) ==
            match request.cloudflareHeader
            case NoValue => Outcome(Some(peer), CdnUnresolved, true)
            case SeveralValues => Outcome(Some(peer), FallbackError, true)
            case NoAddress => Outcome(Some(peer), FallbackError, true)
            case Names(ip) =>
              if ListedBy(providers, Cloudflare, Normalize(ip), now) == ListedBy(providers, Bunny, Normalize(ip), now)
              then Outcome(Some(Normalize(ip)), CloudflareSource, false)
              else Outcome(Some(peer), CdnUnresolved, true)
    ensures ExtractClientIPWithSource(request.(bunnyHeader := other), strategy, trusted, providers, now)
            == ExtractClientIPWithSource(request, strategy, trusted, providers, now)
  {
    DecidingNodeSpeaks(request, strategy, trusted, providers, now, peer);
    DecidingNodeSpeaks(request.(bunnyHeader := other), strategy, trusted, providers, now, peer);
    WordOfVerified(request, providers, Cloudflare, peer, now);
    WordOfVerified(request.(bunnyHeader := other), providers, Cloudflare, peer, now);
  }

  /** And one that is Bunny's alone by the Bunny header. */
  lemma BunnyNodeSpeaksByItsHeader(request: Request, strategy: Strategy, trusted: seq<Network>,
                                   providers: Snapshot, now: Time, peer: Bits, other: ClientHeader)
    requires Decides(request, strategy, trusted, providers, now, peer)
    requires ListedBy(providers, Bunny, peer, now) && !ListedBy(providers, Cloudflare, peer, now)
    ensures ExtractClientIPWithSource(request, strategy, trusted, providers, now) ==
            match request.bunnyHeader
            case NoValue => Outcome(Some(peer), CdnUnresolved, true)
            case SeveralValues => Outcome(Some(peer), FallbackError, true)
            case NoAddress => Outcome(Some(peer), FallbackError, true)
            case Names(ip) =>
              if ListedBy(providers, Cloudflare, Normalize(ip), now) == ListedBy(providers, Bunny, Normalize(ip), now)
              then Outcome(Some(Normalize(ip)), BunnySource, false)
              else Outcome(Some(peer), CdnUnresolved, true)
    ensures ExtractClientIPWithSource(request.(cloudflareHeader := other), strategy, trusted, providers, now)
            == ExtractClientIPWithSource(request, strategy, trusted, providers, now)
  {
    DecidingNodeSpeaks(request, strategy, trusted, providers, now, peer);
    DecidingNodeSpeaks(request.(cloudflareHeader := other), strategy, trusted, providers, now, peer);
    WordOfVerified(request, providers, Bunny, peer, now);
    WordOfVerified(request.(cloudflareHeader := other), providers, Bunny, peer, now);
  }

  lemma DecidingNodeSpeaks(request: Request, strategy: Strategy, trusted: seq<Network>,
                           providers: Snapshot, now: Time, peer: Bits)
    requires Decides(request, strategy, trusted, providers, now, peer) && !Unlisted(providers, peer, now)
    ensures ExtractClientIPWithSource(request, strategy, trusted, providers, now)
            == Word(request, peer, providers, now)
  {
    ClassifyMeansVerified(providers, Normalize(request.peer.ip), now);
    ListedIsJudged(request, providers, peer, now);
  }

  /** A node that both providers list is not recognized as one: named in a verified peer's
      header, it is taken for the visitor. */
  lemma NodeOfBothProvidersIsTakenForVisitor(
    request: Request, strategy: Strategy, trusted: seq<Network>, providers: Snapshot, now: Time, p: Provider, ip: Bits)
    requires request.peer.Readable? && Verified(providers, p, Normalize(request.peer.ip), now)
    requires (if p == Cloudflare then request.cloudflareHeader else request.bunnyHeader) == Names(ip)
    requires ListedBy(providers, Cloudflare, Normalize(ip), now) && ListedBy(providers, Bunny, Normalize(ip), now)
    ensures ExtractClientIPWithSource(request, strategy, trusted, providers, now)
            == Outcome(Some(Normalize(ip)), if p == Cloudflare then CloudflareSource else BunnySource, false)
  {
    var direct := Normalize(request.peer.ip);
    assert Decides(request, strategy, trusted, providers, now, direct);
    assert Resolves(HeaderOf(request, p), providers, p, direct, now, Normalize(ip));
    OutcomeFollowsDecidingPeer(request, strategy, trusted, providers, now);
  }

  /** No header of a request counts unless its peer is listed or, under the forwarded
      strategy, trusted. */
  lemma HeadersOfStrangersAreIgnored(
    request: Request, strategy: Strategy, trusted: seq<Network>, providers: Snapshot, now: Time)
    requires request.peer.Readable? && Unlisted(providers, Normalize(request.peer.ip), now)
    requires strategy != ForwardedStrategy || !IpIsTrusted(Normalize(request.peer.ip), trusted)
    ensures ExtractClientIPWithSource(request, strategy, trusted, providers, now)
            == Outcome(Some(Normalize(request.peer.ip)), DirectSource, false)
  {
    var direct := Normalize(request.peer.ip);
    assert strategy == ForwardedStrategy ==> ForwardedIP(request.chain, direct, trusted) == Walk(direct, false);
    assert Decides(request, strategy, trusted, providers, now, direct);
    OutcomeFollowsDecidingPeer(request, strategy, trusted, providers, now);
  }

  /** The peer stands in a chain that a trusted proxy sent. */
  ghost predicate Reached(request: Request, strategy: Strategy, trusted: seq<Network>, peer: Bits)
    requires request.peer.Readable?
  {
    && strategy == ForwardedStrategy && IpIsTrusted(Normalize(request.peer.ip), trusted)
    && WellFormed(request.chain) && peer in Route(request.chain, Normalize(request.peer.ip))
  }

  lemma WalkStaysOnRoute(chain: seq<Hop>, direct: Bits, trusted: seq<Network>, peer: Bits)
    requires ForwardedIP(chain, direct, trusted) == Walk(peer, false) && peer != direct
    ensures IpIsTrusted(direct, trusted) && WellFormed(chain) && peer in Route(chain, direct)
  {
    var k := SomeAddressIsRightmostUntrusted(Route(chain, direct), trusted);
    OriginIsRightmostUntrusted(Route(chain, direct), trusted, k);
  }

  /** Any answer other than the connection's own peer has a voucher: a verified provider
      node named it, or a trusted proxy's chain led to it or to the node that named it. */
  lemma OtherAddressesAreVouchedFor(
    request: Request, strategy: Strategy, trusted: seq<Network>, providers: Snapshot, now: Time, c: Bits)
    requires ExtractClientIPWithSource(request, strategy, trusted, providers, now).client == Some(c)
    requires request.peer.Readable? && c != Normalize(request.peer.ip)
    ensures exists peer ::
              && Decides(request, strategy, trusted, providers, now, peer)
              && (peer == c
                  || Resolves(request.cloudflareHeader, providers, Cloudflare, peer, now, c)
                  || Resolves(request.bunnyHeader, providers, Bunny, peer, now, c))
              && (peer == Normalize(request.peer.ip) || Reached(request, strategy, trusted, peer))
  {
    var direct := Normalize(request.peer.ip);
    var o := ExtractClientIPWithSource(request, strategy, trusted, providers, now);
    OutcomeFollowsDecidingPeer(request, strategy, trusted, providers, now);
    var peer :| Decides(request, strategy, trusted, providers, now, peer);
    if peer != direct {
      WalkStaysOnRoute(request.chain, direct, trusted, peer);
    }
  }
}

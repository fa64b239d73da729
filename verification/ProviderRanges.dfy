/** Provider range lists: parsing, the store of last-known-good snapshots and what a
    store answers after any run of refreshes (provider_ranges.go). */
module ProviderRanges {
  import opened Addresses
  import opened CacheRuns

  const MAXIMUM_RANGES := 8192

  // ---------------------------------------------------------------------
  // Parsing one list
  // ---------------------------------------------------------------------

  datatype ParseResult =
    | Parsed(networks: seq<Network>)
    | EmptyList
    | TooManyEntries
    | InvalidAddress(index: nat)
    | NonPublicAddress(index: nat)

  predicate Acceptable(v: ListedValue) {
    !v.Malformed? && Public(NetworkOf(v).ip)
  }

  predicate AcceptableList(values: seq<ListedValue>) {
    0 < |values| <= MAXIMUM_RANGES && forall i :: 0 <= i < |values| ==> Acceptable(values[i])
  }

  /** net.IPNet.String: equal texts mean an equal number and an equal mask. */
  function Key(n: Network): (Bits, Bits) {
    NumberAndMask(n)
  }

  function Keys(networks: seq<Network>): set<(Bits, Bits)> {
    set n | n in networks :: Key(n)
  }

  /** The first network of every key, in listing order. */
  function UniqueNetworks(values: seq<ListedValue>): seq<Network> {
    if values == [] then []
    else
      var before := UniqueNetworks(values[..|values| - 1]);
      var n := NetworkOf(values[|values| - 1]);
      if Key(n) in Keys(before) then before else before + [n]
  }

  lemma UniqueNetworksGrow(values: seq<ListedValue>, i: nat)
    requires i < |values|
    ensures var before, n := UniqueNetworks(values[..i]), NetworkOf(values[i]);
            UniqueNetworks(values[..i + 1]) == if Key(n) in Keys(before) then before else before + [n]
  {
    assert values[..i + 1][..i] == values[..i];
  }

  method ParseProviderNetworks(values: seq<ListedValue>) returns (r: ParseResult)
    ensures r.Parsed? <==> 0 < |values| <= 8192 && forall i :: 0 <= i < |values| ==> Acceptable(values[i])
    ensures r.Parsed? ==> r.networks == UniqueNetworks(values) && r.networks != []
    ensures r.EmptyList? <==> values == []
    ensures r.TooManyEntries? <==> |values| > 8192
    ensures r.InvalidAddress? ==> r.index < |values| && values[r.index].Malformed?
    ensures r.NonPublicAddress? ==> r.index < |values| && !values[r.index].Malformed?
    ensures r.InvalidAddress? || r.NonPublicAddress?
            ==> !Acceptable(values[r.index]) && forall i :: 0 <= i < r.index ==> Acceptable(values[i])
  {
    if |values| == 0 {
      return EmptyList;
    }
    if |values| > MAXIMUM_RANGES {
      return TooManyEntries;
    }
    r := ParseValues(values);
  }

  ghost predicate AcceptableUpTo(values: seq<ListedValue>, n: nat) {
    n <= |values| && forall j :: 0 <= j < n ==> Acceptable(values[j])
  }

  lemma OneMoreAcceptable(values: seq<ListedValue>, n: nat)
    requires n < |values| && AcceptableUpTo(values, n) && Acceptable(values[n])
    ensures AcceptableUpTo(values, n + 1)
  {}

  /** The loop of parseProviderNetworks. */
  method ParseValues(values: seq<ListedValue>) returns (r: ParseResult)
    requires values != []
    ensures r.Parsed? || r.InvalidAddress? || r.NonPublicAddress?
    ensures r.Parsed? ==> AcceptableUpTo(values, |values|) && r.networks == UniqueNetworks(values) && r.networks != []
    ensures r.InvalidAddress? ==> AcceptableUpTo(values, r.index) && r.index < |values| && values[r.index].Malformed?
    ensures r.NonPublicAddress? ==>
              AcceptableUpTo(values, r.index) && r.index < |values| && !values[r.index].Malformed?
              && !Acceptable(values[r.index])
  {
    var networks: seq<Network> := [];
    var seen: set<(Bits, Bits)> := {};
    for i := 0 to |values|
      invariant networks == UniqueNetworks(values[..i]) && seen == Keys(networks)
      invariant i > 0 ==> networks != []
      invariant AcceptableUpTo(values, i)
    {
      UniqueNetworksGrow(values, i);
      if values[i].Malformed? {
        return InvalidAddress(i);
      }
      var network := NetworkOf(values[i]);
      if !Public(network.ip) {
        return NonPublicAddress(i);
      }
      OneMoreAcceptable(values, i);
      var key := Key(network);
      if key !in seen {
        KeysGrow(networks, network);
        seen := seen + {key};
        networks := networks + [network];
      }
    }
    assert values[..|values|] == values;
    return Parsed(networks);
  }

  lemma KeysGrow(networks: seq<Network>, n: Network)
    ensures Keys(networks + [n]) == Keys(networks) + {Key(n)}
  {
    assert forall m :: m in networks + [n] <==> m in networks || m == n;
  }

  ghost predicate Listed(values: seq<ListedValue>) {
    forall v :: v in values ==> IsListed(v)
  }

  ghost predicate AnyContains(networks: seq<Network>, ip: Bits) {
    exists n :: n in networks && Contains(n, ip)
  }

  ghost predicate AnyCovers(values: seq<ListedValue>, ip: Bits)
    requires Listed(values)
  {
    exists v :: v in values && Covers(v, ip)
  }

  /** No network is kept twice. */
  lemma {:induction false} NoNetworkTwice(values: seq<ListedValue>, i: nat, j: nat)
    requires i < j < |UniqueNetworks(values)|
    ensures Key(UniqueNetworks(values)[i]) != Key(UniqueNetworks(values)[j])
    decreases |values|
  {
    var before := UniqueNetworks(values[..|values| - 1]);
    if j < |before| {
      NoNetworkTwice(values[..|values| - 1], i, j);
    } else {
      assert before[i] in before;
    }
  }

  /** Dropping repeated networks keeps the union of the listed ranges. */
  lemma {:induction false} ParsingKeepsTheUnion(values: seq<ListedValue>, ip: Bits)
    requires Listed(values) && IsAddress(ip)
    requires forall v :: v in values ==> !v.Malformed?
    ensures AnyContains(UniqueNetworks(values), ip) <==> AnyCovers(values, ip)
  {
    if values != [] {
      var init, last := values[..|values| - 1], values[|values| - 1];
      assert values == init + [last];
      ParsingKeepsTheUnion(init, ip);
      NetworkMeansListing(last, ip);
      LastNetwork(UniqueNetworks(init), NetworkOf(last), ip);
      assert AnyCovers(values, ip) <==> AnyCovers(init, ip) || Covers(last, ip) by {
        assert forall v :: v in values <==> v in init || v == last;
      }
    }
  }

  lemma LastNetwork(before: seq<Network>, n: Network, ip: Bits)
    ensures var after := if Key(n) in Keys(before) then before else before + [n];
            AnyContains(after, ip) <==> AnyContains(before, ip) || Contains(n, ip)
  {
    if Key(n) in Keys(before) {
      var m :| m in before && Key(m) == Key(n);
      assert Contains(m, ip) <==> Contains(n, ip);
    } else {
      assert forall m :: m in before + [n] <==> m in before || m == n;
    }
  }

  // ---------------------------------------------------------------------
  // Snapshots and their classification of an address
  // ---------------------------------------------------------------------

  datatype Provider = ProviderNone | Cloudflare | Bunny

  datatype SourceState = SourceState(provider: Provider, networks: seq<Network>, updatedAt: Time)

  /** The store's contents as a value. */
  datatype Snapshot = Snapshot(sources: map<string, SourceState>, maximumStaleAge: int)

  predicate Fresh(s: Snapshot, name: string, now: Time)
    requires name in s.sources
  {
    now - s.sources[name].updatedAt <= s.maximumStaleAge
  }

  predicate Holds(networks: seq<Network>, ip: Bits) {
    exists n :: n in networks && Contains(n, Normalize(ip))
  }

  /** Some source of p that is fresh lists the address. */
  predicate ListedBy(s: Snapshot, p: Provider, ip: Bits, now: Time) {
    exists name ::
      name in s.sources && Fresh(s, name, now) && s.sources[name].provider == p && Holds(s.sources[name].networks, ip)
  }

  datatype Verdict = Verdict(provider: Provider, ambiguous: bool)

  function Decide(cloudflare: bool, bunny: bool): Verdict {
    if cloudflare && bunny then Verdict(ProviderNone, true)
    else if cloudflare then Verdict(Cloudflare, false)
    else if bunny then Verdict(Bunny, false)
    else Verdict(ProviderNone, false)
  }

  function Classify(s: Snapshot, ip: Bits, now: Time): Verdict {
    Decide(ListedBy(s, Cloudflare, ip, now), ListedBy(s, Bunny, ip, now))
  }

  // ---------------------------------------------------------------------
  // Runs of refreshes
  // ---------------------------------------------------------------------

  datatype Source = Source(name: string, provider: Provider)

  /** What one fetch came to: an error, or the list of values it read. */
  datatype Reply = Unavailable | Received(values: seq<ListedValue>)

  datatype Attempt = Attempt(source: Source, reply: Reply, at: Time)

  predicate Succeeded(a: Attempt) {
    a.reply.Received? && AcceptableList(a.reply.values)
  }

  function After(sources: map<string, SourceState>, a: Attempt): map<string, SourceState> {
    if Succeeded(a)
    then sources[a.source.name := SourceState(a.source.provider, UniqueNetworks(a.reply.values), a.at)]
    else sources
  }

  function SourcesAfter(attempts: seq<Attempt>): map<string, SourceState> {
    if attempts == [] then map[]
    else After(SourcesAfter(attempts[..|attempts| - 1]), attempts[|attempts| - 1])
  }

  /** The attempts of one refresh over all sources. */
  function Attempts(sources: seq<Source>, replies: seq<Reply>, now: Time): (r: seq<Attempt>)
    requires |sources| == |replies|
    ensures |r| == |sources| && forall i :: 0 <= i < |r| ==> r[i] == Attempt(sources[i], replies[i], now)
  {
    seq(|sources|, i requires 0 <= i < |sources| => Attempt(sources[i], replies[i], now))
  }

  lemma OneMoreAttempt(attempts: seq<Attempt>, a: Attempt)
    ensures SourcesAfter(attempts + [a]) == After(SourcesAfter(attempts), a)
  {
    assert (attempts + [a])[..|attempts|] == attempts;
  }

  class ProviderRangeStore {
    var sources: map<string, SourceState>
    const maximumStaleAge: int
    ghost var attempts: seq<Attempt>

    ghost predicate Valid()
      reads this
    {
      sources == SourcesAfter(attempts)
    }

    function Current(): Snapshot
      reads this
    {
      Snapshot(sources, maximumStaleAge)
    }

    constructor (maximumStaleAge: int)
      ensures Valid() && attempts == [] && this.maximumStaleAge == maximumStaleAge
    {
      this.maximumStaleAge := maximumStaleAge;
      sources := map[];
      attempts := [];
    }

    method Replace(name: string, provider: Provider, networks: seq<Network>, updatedAt: Time)
      modifies `sources
      ensures sources == old(sources)[name := SourceState(provider, networks, updatedAt)]
    {
      sources := sources[name := SourceState(provider, networks, updatedAt)];
    }

    /** The effect of one refresh; the replies stand for the fetches. */
    method Refresh(from: seq<Source>, replies: seq<Reply>, now: Time)
      requires Valid() && |from| == |replies|
      modifies this
      ensures Valid() && attempts == old(attempts) + Attempts(from, replies, now)
    {
      for i := 0 to |from|
        invariant Valid() && attempts == old(attempts) + Attempts(from, replies, now)[..i]
      {
        ghost var attempt := Attempts(from, replies, now)[i];
        OneMoreAttempt(attempts, attempt);
        attempts := attempts + [attempt];
        if replies[i].Received? {
          var parsed := ParseProviderNetworks(replies[i].values);
          if parsed.Parsed? {
            Replace(from[i].name, from[i].provider, parsed.networks, now);
          }
        }
      }
    }

    /** The map is ranged over in any order; the answer does not depend on it. */
    method ProviderFor(ip: Bits, now: Time) returns (provider: Provider, ambiguous: bool)
      ensures Verdict(provider, ambiguous) == Classify(Current(), ip, now)
    {
      var cloudflare, bunny := false, false;
      var rest := sources.Keys;
      while rest != {}
        invariant rest <= sources.Keys
        invariant cloudflare == ListedAmong(Current(), sources.Keys - rest, Cloudflare, ip, now)
        invariant bunny == ListedAmong(Current(), sources.Keys - rest, Bunny, ip, now)
        decreases rest
      {
        var name :| name in rest;
        OneMoreSource(Current(), sources.Keys - rest, name, Cloudflare, ip, now);
        OneMoreSource(Current(), sources.Keys - rest, name, Bunny, ip, now);
        assert sources.Keys - (rest - {name}) == (sources.Keys - rest) + {name};
        rest := rest - {name};
        var source := sources[name];
        if now - source.updatedAt > maximumStaleAge {
          continue;
        }
        var found := Search(source.networks, Normalize(ip));
        if found && source.provider == Cloudflare {
          cloudflare := true;
        }
        if found && source.provider == Bunny {
          bunny := true;
        }
      }
      assert sources.Keys - rest == sources.Keys;
      AllSources(Current(), Cloudflare, ip, now);
      AllSources(Current(), Bunny, ip, now);
      var decided := Decide(cloudflare, bunny);
      return decided.provider, decided.ambiguous;
    }
  }

  /** The inner loop of providerFor stops at the first network that contains the address. */
  method Search(networks: seq<Network>, ip: Bits) returns (found: bool)
    ensures found <==> exists n :: n in networks && Contains(n, ip)
  {
    for i := 0 to |networks|
      invariant forall j :: 0 <= j < i ==> !Contains(networks[j], ip)
    {
      if Contains(networks[i], ip) {
        return true;
      }
    }
    return false;
  }

  ghost predicate ListedAmong(s: Snapshot, names: set<string>, p: Provider, ip: Bits, now: Time)
    requires names <= s.sources.Keys
  {
    exists name ::
      name in names && Fresh(s, name, now) && s.sources[name].provider == p && Holds(s.sources[name].networks, ip)
  }

  lemma OneMoreSource(s: Snapshot, names: set<string>, name: string, p: Provider, ip: Bits, now: Time)
    requires names <= s.sources.Keys && name in s.sources
    ensures ListedAmong(s, names + {name}, p, ip, now) <==>
            ListedAmong(s, names, p, ip, now)
            || (Fresh(s, name, now) && s.sources[name].provider == p && Holds(s.sources[name].networks, ip))
  {}

  lemma AllSources(s: Snapshot, p: Provider, ip: Bits, now: Time)
    ensures ListedAmong(s, s.sources.Keys, p, ip, now) <==> ListedBy(s, p, ip, now)
  {}

  // ---------------------------------------------------------------------
  // What holds of every run of refreshes
  // ---------------------------------------------------------------------

  /** Attempt i is the last successful one of its source. */
  ghost predicate IsLastSuccess(attempts: seq<Attempt>, i: nat) {
    && i < |attempts| && Succeeded(attempts[i])
    && forall j :: i < j < |attempts| && attempts[j].source.name == attempts[i].source.name ==> !Succeeded(attempts[j])
  }

  function StateOf(a: Attempt): SourceState
    requires Succeeded(a)
  {
    SourceState(a.source.provider, UniqueNetworks(a.reply.values), a.at)
  }

  /** Every source holds its last successful snapshot, whatever failed since. */
  lemma {:induction false} SourcesHoldLastSuccess(attempts: seq<Attempt>, i: nat)
    requires IsLastSuccess(attempts, i)
    ensures attempts[i].source.name in SourcesAfter(attempts)
    ensures SourcesAfter(attempts)[attempts[i].source.name] == StateOf(attempts[i])
    decreases |attempts|
  {
    var init := attempts[..|attempts| - 1];
    if i < |init| {
      assert init[i] == attempts[i];
      assert forall j :: 0 <= j < |init| ==> init[j] == attempts[j];
      SourcesHoldLastSuccess(init, i);
    }
  }

  /** And nothing else: a source with no success is not in the store. */
  lemma {:induction false} SourcesComeFromSuccesses(attempts: seq<Attempt>, name: string) returns (i: nat)
    requires name in SourcesAfter(attempts)
    ensures IsLastSuccess(attempts, i) && attempts[i].source.name == name
    decreases |attempts|
  {
    var init, last := attempts[..|attempts| - 1], attempts[|attempts| - 1];
    if Succeeded(last) && last.source.name == name {
      i := |attempts| - 1;
    } else {
      i := SourcesComeFromSuccesses(init, name);
      assert forall j :: 0 <= j < |init| ==> init[j] == attempts[j];
    }
  }

  ghost predicate AttemptsListed(attempts: seq<Attempt>) {
    forall a :: a in attempts && a.reply.Received? ==> Listed(a.reply.values)
  }

  /** The latest good list of some source of p, no older than the limit, covers the address. */
  ghost predicate LatestListCovers(attempts: seq<Attempt>, staleAge: int, p: Provider, ip: Bits, now: Time, i: nat)
    requires AttemptsListed(attempts)
  {
    && IsLastSuccess(attempts, i)
    && attempts[i].source.provider == p
    && now - attempts[i].at <= staleAge
    && AnyCovers(attempts[i].reply.values, ip)
  }

  lemma HoldsMeansCovers(a: Attempt, ip: Bits)
    requires Succeeded(a) && Listed(a.reply.values) && IsAddress(ip)
    ensures Holds(UniqueNetworks(a.reply.values), ip) <==> AnyCovers(a.reply.values, ip)
  {
    var values := a.reply.values;
    forall v | v in values ensures !v.Malformed? {
      var k :| 0 <= k < |values| && values[k] == v;
      assert Acceptable(values[k]);
    }
    ParsingKeepsTheUnion(values, ip);
    var networks := UniqueNetworks(values);
    assert forall n :: Contains(n, Normalize(ip)) <==> Contains(n, ip);
  }

  /** The whole way from the fetched lists to the answer: an address counts as p's exactly
      when the latest good list of some source of p is fresh and covers it. */
  lemma ListedByMeansLatestLists(attempts: seq<Attempt>, staleAge: int, p: Provider, ip: Bits, now: Time)
    requires AttemptsListed(attempts) && IsAddress(ip)
    ensures ListedBy(Snapshot(SourcesAfter(attempts), staleAge), p, ip, now) <==>
            exists i: nat :: LatestListCovers(attempts, staleAge, p, ip, now, i)
  {
    var s := Snapshot(SourcesAfter(attempts), staleAge);
    if ListedBy(s, p, ip, now) {
      var name :| name in s.sources && Fresh(s, name, now) && s.sources[name].provider == p
                  && Holds(s.sources[name].networks, ip);
      var i := SourcesComeFromSuccesses(attempts, name);
      SourcesHoldLastSuccess(attempts, i);
      assert attempts[i] in attempts;
      HoldsMeansCovers(attempts[i], ip);
      assert LatestListCovers(attempts, staleAge, p, ip, now, i);
    }
    if i: nat :| LatestListCovers(attempts, staleAge, p, ip, now, i) {
      SourcesHoldLastSuccess(attempts, i);
      assert attempts[i] in attempts;
      HoldsMeansCovers(attempts[i], ip);
      assert Fresh(s, attempts[i].source.name, now);
    }
  }

  lemma ListedByNeedsSuccess(attempts: seq<Attempt>, staleAge: int, p: Provider, ip: Bits, now: Time)
    requires ListedBy(Snapshot(SourcesAfter(attempts), staleAge), p, ip, now)
    ensures exists a :: a in attempts && Succeeded(a) && a.source.provider == p && now - a.at <= staleAge
  {
    var s := Snapshot(SourcesAfter(attempts), staleAge);
    var name :| name in s.sources && Fresh(s, name, now) && s.sources[name].provider == p
                && Holds(s.sources[name].networks, ip);
    var i := SourcesComeFromSuccesses(attempts, name);
    SourcesHoldLastSuccess(attempts, i);
    assert attempts[i] in attempts;
  }

  /** Fail closed: with no success of a source of p within the stale age, no address
      counts as p's, neither alone nor as half of an ambiguity. */
  lemma StaleListsGrantNothing(attempts: seq<Attempt>, staleAge: int, p: Provider, ip: Bits, now: Time)
    requires p != ProviderNone
    requires forall a :: a in attempts && Succeeded(a) && a.source.provider == p ==> now - a.at > staleAge
    ensures var s := Snapshot(SourcesAfter(attempts), staleAge);
            Classify(s, ip, now).provider != p && !Classify(s, ip, now).ambiguous
  {
    if ListedBy(Snapshot(SourcesAfter(attempts), staleAge), p, ip, now) {
      ListedByNeedsSuccess(attempts, staleAge, p, ip, now);
    }
  }

  /** A failed attempt, of whatever kind, changes no later answer. */
  lemma {:induction false} FailuresLeaveNoTrace(before: seq<Attempt>, failed: Attempt, later: seq<Attempt>)
    requires !Succeeded(failed)
    ensures SourcesAfter(before + [failed] + later) == SourcesAfter(before + later)
    decreases |later|
  {
    OneMoreAttempt(before, failed);
    if later == [] {
      assert before + [failed] + later == before + [failed] && before + later == before;
    } else {
      var init, last := later[..|later| - 1], later[|later| - 1];
      FailuresLeaveNoTrace(before, failed, init);
      assert later == init + [last];
      assert before + [failed] + later == (before + [failed] + init) + [last];
      assert before + later == (before + init) + [last];
      OneMoreAttempt(before + [failed] + init, last);
      OneMoreAttempt(before + init, last);
    }
  }
}

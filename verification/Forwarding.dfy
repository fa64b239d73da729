/** Which headers and cookies are described to the Agent (forwarding.go). */
module Forwarding {
  import opened Text
  import opened Selection

  type Header = map<string, seq<string>>

  datatype Cookie = Cookie(name: string, value: string)

  datatype Request = Request(
    method_: string,
    header: Header,
    cookies: seq<Cookie>,
    contentLength: int,
    transferEncoding: seq<string>)

  datatype RequestConfig = RequestConfig(
    allHeaders: bool, headers: seq<string>, allCookies: bool, cookies: seq<string>)

  /** What validateConfig demands of the configured names. */
  ghost predicate ValidRequestConfig(config: RequestConfig) {
    && (forall h :: h in config.headers ==> ValidHeaderName(h) && |h| <= MAXIMUM_NAME_BYTES)
    && (forall c :: c in config.cookies ==> ValidCookieName(c))
  }

  datatype ForwardingPolicy = ForwardingPolicy(
    allHeaders: bool,
    allCookies: bool,
    headers: seq<string>,
    cookies: seq<string>,
    headerSet: set<string>,
    cookieSet: set<string>,
    allowlistedHeaders: seq<string>,
    allowlistedCookies: seq<string>)

  // ---------------------------------------------------------------------
  // The policy
  // ---------------------------------------------------------------------

  /** The sequence without repetitions, each element where it first stood. */
  ghost function FirstOccurrences(s: seq<string>): (r: seq<string>)
    ensures Distinct(r) && Elements(r) == Elements(s)
  {
    if s == [] then []
    else
      var front, last := s[..|s| - 1], s[|s| - 1];
      var r := FirstOccurrences(front);
      assert s == front + [last];
      assert last in r <==> last in Elements(r);
      assert last in front <==> last in Elements(front);
      assert Elements(s) == Elements(front) + {last};
      assert Elements(r + [last]) == Elements(r) + {last};
      if last in front then r else r + [last]
  }

  lemma FirstOccurrencesGrows(s: seq<string>, x: string)
    ensures FirstOccurrences(s + [x]) ==
            if x in FirstOccurrences(s) then FirstOccurrences(s) else FirstOccurrences(s) + [x]
  {
    assert (s + [x])[..|s|] == s;
    assert x in s <==> x in Elements(s);
    assert x in FirstOccurrences(s) <==> x in Elements(FirstOccurrences(s));
  }

  function CanonicalAll(names: seq<string>): (r: seq<string>)
    ensures |r| == |names| && forall i :: 0 <= i < |names| ==> r[i] == Canonical(names[i])
  {
    seq(|names|, i requires 0 <= i < |names| => Canonical(names[i]))
  }

  function LowerAll(names: seq<string>): (r: seq<string>)
    ensures |r| == |names| && forall i :: 0 <= i < |names| ==> r[i] == Lower(names[i])
  {
    seq(|names|, i requires 0 <= i < |names| => Lower(names[i]))
  }

  /** newForwardingPolicy: configured names once each, in configuration order, and the
      advertised lists only in "all" mode. */
  method NewForwardingPolicy(config: RequestConfig) returns (p: ForwardingPolicy)
    ensures p.allHeaders == config.allHeaders && p.allCookies == config.allCookies
    ensures p.headers == FirstOccurrences(CanonicalAll(config.headers)) && p.headerSet == Elements(p.headers)
    ensures p.cookies == FirstOccurrences(config.cookies) && p.cookieSet == Elements(p.cookies)
    ensures p.allowlistedHeaders == if p.allHeaders then LowerAll(p.headers) else []
    ensures p.allowlistedCookies == if p.allCookies then p.cookies else []
  {
    var headers, headerSet, allowlistedHeaders := AddHeaders(config);
    var cookies, cookieSet, allowlistedCookies := AddCookies(config);
    p := ForwardingPolicy(config.allHeaders, config.allCookies, headers, cookies, headerSet, cookieSet,
                          allowlistedHeaders, allowlistedCookies);
  }

  method AddHeaders(config: RequestConfig)
    returns (headers: seq<string>, headerSet: set<string>, allowlistedHeaders: seq<string>)
    ensures headers == FirstOccurrences(CanonicalAll(config.headers)) && headerSet == Elements(headers)
    ensures allowlistedHeaders == if config.allHeaders then LowerAll(headers) else []
  {
    headers, headerSet, allowlistedHeaders := [], {}, [];
    ghost var canonicals := CanonicalAll(config.headers);
    for i := 0 to |config.headers|
      invariant headers == FirstOccurrences(canonicals[..i]) && headerSet == Elements(headers)
      invariant allowlistedHeaders == if config.allHeaders then LowerAll(headers) else []
    {
      var canonical := Canonical(config.headers[i]);
      OccurrenceStep(canonicals, i, headers);
      if canonical in headerSet {
        continue;
      }
      headerSet := headerSet + {canonical};
      headers := headers + [canonical];
      if config.allHeaders {
        allowlistedHeaders := allowlistedHeaders + [Lower(canonical)];
      }
    }
    assert canonicals[..|canonicals|] == canonicals;
  }

  lemma OccurrenceStep(s: seq<string>, i: nat, r: seq<string>)
    requires i < |s| && r == FirstOccurrences(s[..i])
    ensures FirstOccurrences(s[..i + 1]) == if s[i] in Elements(r) then r else r + [s[i]]
    ensures Elements(r + [s[i]]) == Elements(r) + {s[i]}
    ensures LowerAll(r + [s[i]]) == LowerAll(r) + [Lower(s[i])]
  {
    PrefixGrows(s, i);
    FirstOccurrencesGrows(s[..i], s[i]);
    AppendElement(r, s[i]);
  }

  lemma AppendElement(s: seq<string>, x: string)
    ensures x in s <==> x in Elements(s)
    ensures Elements(s + [x]) == Elements(s) + {x}
    ensures LowerAll(s + [x]) == LowerAll(s) + [Lower(x)]
  {}

  method AddCookies(config: RequestConfig)
    returns (cookies: seq<string>, cookieSet: set<string>, allowlistedCookies: seq<string>)
    ensures cookies == FirstOccurrences(config.cookies) && cookieSet == Elements(cookies)
    ensures allowlistedCookies == if config.allCookies then cookies else []
  {
    cookies, cookieSet, allowlistedCookies := [], {}, [];
    for i := 0 to |config.cookies|
      invariant cookies == FirstOccurrences(config.cookies[..i]) && cookieSet == Elements(cookies)
      invariant allowlistedCookies == if config.allCookies then cookies else []
    {
      var cookie := config.cookies[i];
      OccurrenceStep(config.cookies, i, cookies);
      if cookie in cookieSet {
        continue;
      }
      cookieSet := cookieSet + {cookie};
      cookies := cookies + [cookie];
      if config.allCookies {
        allowlistedCookies := allowlistedCookies + [cookie];
      }
    }
    assert config.cookies[..|config.cookies|] == config.cookies;
  }

  /** Policies as newForwardingPolicy makes them from a valid configuration. */
  ghost predicate ValidPolicy(p: ForwardingPolicy) {
    && Distinct(p.headers) && p.headerSet == Elements(p.headers)
    && Distinct(p.cookies) && p.cookieSet == Elements(p.cookies)
    && (forall h :: h in p.headers ==> ValidHeaderName(h) && Canonical(h) == h)
    && (forall c :: c in p.cookies ==> ValidCookieName(c))
  }

  lemma NewPoliciesAreValid(config: RequestConfig, p: ForwardingPolicy)
    requires ValidRequestConfig(config)
    requires p.headers == FirstOccurrences(CanonicalAll(config.headers)) && p.headerSet == Elements(p.headers)
    requires p.cookies == FirstOccurrences(config.cookies) && p.cookieSet == Elements(p.cookies)
    ensures ValidPolicy(p)
  {
    forall h | h in p.headers ensures ValidHeaderName(h) && Canonical(h) == h {
      assert h in Elements(p.headers);
      assert h in CanonicalAll(config.headers);
      var i :| 0 <= i < |config.headers| && CanonicalAll(config.headers)[i] == h;
      assert config.headers[i] in config.headers;
      CanonicalFoldsCase(config.headers[i], h) by {
        CanonicalFoldsCase(config.headers[i], config.headers[i]);
      }
    }
    forall c | c in p.cookies ensures ValidCookieName(c) {
      assert c in Elements(p.cookies);
    }
  }

  // ---------------------------------------------------------------------
  // Headers
  // ---------------------------------------------------------------------

  /** Header.Values. */
  function Values(h: Header, name: string): seq<string> {
    if Canonical(name) in h then h[Canonical(name)] else []
  }

  /** What a name offers: nothing if absent, and nothing for Cookie. */
  function HeaderOffer(h: Header, name: string): seq<Offer> {
    if Values(h, name) == [] || Lower(name) == "cookie" then []
    else [Offer(Lower(name), Join(Values(h, name), ", "))]
  }

  function OfferOf(h: Header): string -> seq<Offer> {
    name => HeaderOffer(h, name)
  }

  ghost function HeaderOffers(h: Header, names: seq<string>): seq<Offer> {
    Gather(OfferOf(h), names)
  }

  /** The offers of all names, in order. */
  ghost function Gather(offer: string -> seq<Offer>, names: seq<string>): seq<Offer> {
    if names == [] then []
    else Gather(offer, names[..|names| - 1]) + offer(names[|names| - 1])
  }

  lemma GatherGrows(offer: string -> seq<Offer>, names: seq<string>, name: string)
    ensures Gather(offer, names + [name]) == Gather(offer, names) + offer(name)
  {
    assert (names + [name])[..|names|] == names;
  }

  lemma Regrouped<T>(a: seq<T>, b: seq<T>, c: seq<T>)
    ensures (a + b) + c == a + (b + c)
  {}

  lemma {:induction false} GatherAppends(offer: string -> seq<Offer>, a: seq<string>, b: seq<string>)
    ensures Gather(offer, a + b) == Gather(offer, a) + Gather(offer, b)
  {
    if b == [] {
      assert a + b == a;
    } else {
      var front, last := b[..|b| - 1], b[|b| - 1];
      GatherAppends(offer, a, front);
      assert a + b == (a + front) + [last] && b == front + [last];
      GatherGrows(offer, a + front, last);
      GatherGrows(offer, front, last);
      Regrouped(Gather(offer, a), Gather(offer, front), offer(last));
    }
  }

  /** Which offers a list of names makes. */
  lemma {:induction false} GatheredFrom(offer: string -> seq<Offer>, names: seq<string>)
    ensures forall o :: o in Gather(offer, names) <==> exists n :: n in names && o in offer(n)
  {
    if names != [] {
      var front, last := names[..|names| - 1], names[|names| - 1];
      GatheredFrom(offer, front);
      assert names == front + [last];
      forall o ensures o in Gather(offer, names) <==> exists n :: n in names && o in offer(n) {
        if o in Gather(offer, front) {
          var n :| n in front && o in offer(n);
          assert n in names;
        } else if o in offer(last) {
          assert last in names;
        }
      }
    }
  }

  /** The unlisted names of "all" mode in any order sort.Slice may leave them in. */
  ghost predicate IsRemainder(p: ForwardingPolicy, h: Header, rest: seq<string>) {
    if p.allHeaders then
      && Distinct(rest) && SortedBy(rest, Lower)
      && Elements(rest) == (set n | n in h && Canonical(n) !in p.headerSet)
    else rest == []
  }

  ghost function ChosenHeaders(p: ForwardingPolicy, h: Header, rest: seq<string>): Chosen {
    TakeAll(Empty(false), HeaderOffers(h, p.headers + rest))
  }

  /** The framing keys added after the bounded loop. */
  function Framed(r: Request, result: map<string, string>): map<string, string> {
    var withLength :=
      if r.contentLength >= 0 && r.method_ != "GET" && r.method_ != "HEAD"
      then result["content-length" := Decimal(r.contentLength)] else result;
    if |r.transferEncoding| > 0
    then withLength["transfer-encoding" := Join(r.transferEncoding, ", ")] else withLength
  }

  method Remaining(p: ForwardingPolicy, h: Header) returns (rest: seq<string>)
    requires p.allHeaders
    ensures IsRemainder(p, h, rest)
  {
    var remaining: seq<string> := [];
    var todo := h.Keys;
    while todo != {}
      invariant todo <= h.Keys && Distinct(remaining)
      invariant Elements(remaining) == set n | n in h && n !in todo && Canonical(n) !in p.headerSet
    {
      var name :| name in todo;
      todo := todo - {name};
      if Canonical(name) in p.headerSet {
        continue;
      }
      assert name !in Elements(remaining);
      assert Elements(remaining + [name]) == Elements(remaining) + {name};
      remaining := remaining + [name];
    }
    rest := Sort(remaining, Lower);
    PermutationKeepsElements(remaining, rest);
  }

  /** forwardedHeaders. */
  method ForwardedHeaders(p: ForwardingPolicy, r: Request) returns (result: map<string, string>, truncated: bool)
    ensures exists rest :: IsRemainder(p, r.header, rest)
    ensures forall rest :: IsRemainder(p, r.header, rest) ==>
              && result == Framed(r, ChosenHeaders(p, r.header, rest).result)
              && truncated == ChosenHeaders(p, r.header, rest).truncated
    ensures LowerCaseKeys(result)
    ensures forall k :: k in result && k != "content-length" && k != "transfer-encoding" ==>
              k != "cookie" && exists n :: n in r.header && Lower(n) == k && Cut(result[k], Join(r.header[n], ", "))
    ensures (forall e :: e in r.transferEncoding ==> NulFree(e)) ==> NulFreeMap(result)
  {
    var rest := [];
    if p.allHeaders {
      rest := Remaining(p, r.header);
    }
    result, truncated := SelectHeaders(r.header, p.headers + rest);
    assert result == ChosenHeaders(p, r.header, rest).result;
    ChosenHeadersSuitTheKey(p, r.header, rest);
    FramingSuitsTheKey(r, result);
    FramedValuesAreCut(p, r, rest);
    result := Framed(r, result);
    forall other | IsRemainder(p, r.header, other)
      ensures ChosenHeaders(p, r.header, other) == ChosenHeaders(p, r.header, rest)
    {
      HeaderOutcomeIsUnique(p, r.header, other, rest);
    }
  }

  lemma FramedValuesAreCut(p: ForwardingPolicy, r: Request, rest: seq<string>)
    ensures var m := Framed(r, ChosenHeaders(p, r.header, rest).result);
            forall k :: k in m && k != "content-length" && k != "transfer-encoding" ==>
              k != "cookie" && exists n :: n in r.header && Lower(n) == k && Cut(m[k], Join(r.header[n], ", "))
  {
    var before := ChosenHeaders(p, r.header, rest).result;
    var m := Framed(r, before);
    forall k | k in m && k != "content-length" && k != "transfer-encoding"
      ensures k != "cookie" && exists n :: n in r.header && Lower(n) == k && Cut(m[k], Join(r.header[n], ", "))
    {
      FramingMeaning(r, before, k);
      HeaderValuesAreCut(p, r.header, rest, k);
    }
  }

  /** The bounded loop of forwardedHeaders. */
  method SelectHeaders(h: Header, names: seq<string>) returns (result: map<string, string>, truncated: bool)
    ensures result == TakeAll(Empty(false), HeaderOffers(h, names)).result
    ensures truncated == TakeAll(Empty(false), HeaderOffers(h, names)).truncated
  {
    result := map[];
    truncated := false;
    var total: nat := 0;
    for i := 0 to |names|
      invariant Chosen(result, total, truncated) == TakeAll(Empty(false), HeaderOffers(h, names[..i]))
    {
      HeaderRound(h, names, i);
      var values := Values(h, names[i]);
      if |values| == 0 {
        continue;
      }
      var key := Lower(names[i]);
      if key == "cookie" {
        continue;
      }
      result, total, truncated := SelectHeader(result, total, truncated, key, Join(values, ", "));
    }
    assert names[..|names|] == names;
  }

  /** The rest of a round, from the duplicate test on. */
  method SelectHeader(before: map<string, string>, used: nat, flagged: bool, key: string, joined: string)
    returns (result: map<string, string>, total: nat, truncated: bool)
    ensures Chosen(result, total, truncated) == Take(Chosen(before, used, flagged), Offer(key, joined))
  {
    result, total, truncated := before, used, flagged;
    if key in result {
      return;
    }
    if |key| > MAXIMUM_NAME_BYTES || !ValidHeaderName(key) {
      truncated := true;
      return;
    }
    var value := joined;
    if !Clean(value) {
      truncated := true;
      return;
    }
    var cut := false;
    if |value| > MAXIMUM_VALUE_BYTES {
      value := value[..MAXIMUM_VALUE_BYTES];
      cut := true;
    }
    if |result| >= MAXIMUM_ENTRIES || total + |key| + |value| > MAXIMUM_BYTES {
      truncated := true;
      return;
    }
    truncated := truncated || cut;
    total := total + |key| + |value|;
    result := result[key := value];
  }

  /** What one round of the loop has to come to. */
  lemma HeaderRound(h: Header, names: seq<string>, i: nat)
    requires i < |names|
    ensures var before := TakeAll(Empty(false), HeaderOffers(h, names[..i]));
            TakeAll(Empty(false), HeaderOffers(h, names[..i + 1])) ==
            if Offers(h, names[i]) then Take(before, Offer(Lower(names[i]), Join(Values(h, names[i]), ", ")))
            else before
  {
    PrefixGrows(names, i);
    HeaderOffersGrow(h, names[..i], names[i]);
    if Offers(h, names[i]) {
      TakeOneMore(Empty(false), HeaderOffers(h, names[..i]),
                  Offer(Lower(names[i]), Join(Values(h, names[i]), ", ")));
    }
  }

  lemma HeaderOffersGrow(h: Header, names: seq<string>, name: string)
    ensures HeaderOffers(h, names + [name]) == HeaderOffers(h, names) + HeaderOffer(h, name)
    ensures HeaderOffer(h, name) == [] ==> HeaderOffers(h, names + [name]) == HeaderOffers(h, names)
  {
    GatherGrows(OfferOf(h), names, name);
  }

  ghost predicate Offers(h: Header, name: string) {
    Values(h, name) != [] && Lower(name) != "cookie"
  }

  lemma OffersComeFromNames(h: Header, names: seq<string>)
    ensures forall o :: o in HeaderOffers(h, names) <==>
              exists n :: n in names && Offers(h, n) && o == Offer(Lower(n), Join(Values(h, n), ", "))
  {
    GatheredFrom(OfferOf(h), names);
    forall o ensures o in HeaderOffers(h, names) <==>
              exists n :: n in names && Offers(h, n) && o == Offer(Lower(n), Join(Values(h, n), ", "))
    {
      if o in HeaderOffers(h, names) {
        var n :| n in names && o in OfferOf(h)(n);
        assert Offers(h, n);
      }
      if n :| n in names && Offers(h, n) && o == Offer(Lower(n), Join(Values(h, n), ", ")) {
        assert o in OfferOf(h)(n);
      }
    }
  }

  /** The chosen headers meet what the cache key asks of a header map: folded names, and
      no NUL byte. */
  lemma ChosenHeadersSuitTheKey(p: ForwardingPolicy, h: Header, rest: seq<string>)
    ensures LowerCaseKeys(ChosenHeaders(p, h, rest).result) && NulFreeMap(ChosenHeaders(p, h, rest).result)
  {
    var offers := HeaderOffers(h, p.headers + rest);
    ChoiceIsNulFree(offers, false);
    KeysComeFromOffers(offers, false);
    OffersComeFromNames(h, p.headers + rest);
    forall k | k in ChosenHeaders(p, h, rest).result ensures Lower(k) == k {
      var i :| 0 <= i < |offers| && offers[i].key == k;
      assert offers[i] in offers;
      var n :| n in p.headers + rest && offers[i] == Offer(Lower(n), Join(Values(h, n), ", "));
      LowerIsIdempotent(n);
    }
  }

  lemma FramingSuitsTheKey(r: Request, m: map<string, string>)
    requires LowerCaseKeys(m) && NulFreeMap(m)
    ensures LowerCaseKeys(Framed(r, m))
    ensures (forall e :: e in r.transferEncoding ==> NulFree(e)) ==> NulFreeMap(Framed(r, m))
  {
    assert Lower("content-length") == "content-length" && Lower("transfer-encoding") == "transfer-encoding";
    assert NulFree("content-length") && NulFree("transfer-encoding") && NulFree(", ");
    if r.contentLength >= 0 {
      DecimalIsNulFree(r.contentLength);
    }
    if forall e :: e in r.transferEncoding ==> NulFree(e) {
      JoinIsNulFree(r.transferEncoding, ", ");
    }
  }

  ghost function Configured(p: ForwardingPolicy): set<string> {
    set h | h in p.headers :: Lower(h)
  }

  ghost function Restrict(m: map<string, string>, keys: set<string>): map<string, string> {
    map k | k in m && k in keys :: m[k]
  }

  /** An unlisted name never folds to a configured one. */
  lemma RemainderIsForeign(p: ForwardingPolicy, h: Header, rest: seq<string>, n: string)
    requires ValidPolicy(p) && IsRemainder(p, h, rest) && n in rest
    ensures Lower(n) !in Configured(p)
  {
    assert n in Elements(rest);
    forall c | c in p.headers ensures Lower(c) != Lower(n) {
      assert c in Elements(p.headers);
      if Lower(c) == Lower(n) {
        CanonicalFoldsCase(c, n);
      }
    }
  }

  /** Mode extension for headers: restricted to the configured names, "all" mode forwards
      exactly what "allowlist" mode forwards, however many unlisted headers there are; and
      it never hides a truncation that "allowlist" mode would report. */
  lemma AllModeExtendsAllowlistHeaders(all: ForwardingPolicy, listed: ForwardingPolicy, r: Request, rest: seq<string>)
    requires ValidPolicy(all) && all.allHeaders && !listed.allHeaders
    requires listed.headers == all.headers && IsRemainder(all, r.header, rest)
    ensures var a, l := ChosenHeaders(all, r.header, rest), ChosenHeaders(listed, r.header, []);
            && Restrict(a.result, Configured(all)) == l.result
            && Restrict(Framed(r, a.result), Configured(all)) == Restrict(Framed(r, l.result), Configured(all))
            && (l.truncated ==> a.truncated)
  {
    var h, keys := r.header, Configured(all);
    GatherAppends(OfferOf(h), all.headers, rest);
    assert all.headers + [] == all.headers;
    var first, later := HeaderOffers(h, all.headers), HeaderOffers(h, rest);
    OffersComeFromNames(h, all.headers);
    OffersComeFromNames(h, rest);
    forall i | 0 <= i < |first| ensures first[i].key in keys {
      assert first[i] in first;
    }
    forall i | 0 <= i < |later| ensures later[i].key !in keys {
      assert later[i] in later;
      var n :| n in rest && Offers(h, n) && later[i] == Offer(Lower(n), Join(Values(h, n), ", "));
      RemainderIsForeign(all, h, rest, n);
    }
    LaterOffersDoNotDisturb(first, later, false, keys);
    var a, l := ChosenHeaders(all, h, rest), ChosenHeaders(listed, h, []);
    assert Restrict(a.result, keys) == l.result;
    FramingRestricts(r, a.result, l.result, keys);
  }

  lemma FramingRestricts(r: Request, a: map<string, string>, l: map<string, string>, keys: set<string>)
    requires Restrict(a, keys) == l
    ensures Restrict(Framed(r, a), keys) == Restrict(Framed(r, l), keys)
  {
    assert forall k :: k in a && k in keys <==> k in l;
    assert forall k :: k in l ==> l[k] == a[k];
  }

  /** The bounds, and greedy maximality: a named header that was left out although its
      name and content are fine does not fit beside the final choice. */
  lemma HeaderChoiceIsBoundedAndMaximal(p: ForwardingPolicy, h: Header, rest: seq<string>)
    ensures WithinBounds(ChosenHeaders(p, h, rest))
    ensures forall n :: n in p.headers + rest && Offers(h, n) ==>
              var key, value := Lower(n), Join(Values(h, n), ", ");
              var c := ChosenHeaders(p, h, rest);
              |key| <= 128 && ValidHeaderName(key) && '\0' !in value && '\r' !in value && '\n' !in value
              && key !in c.result
              ==> |c.result| == 128
                  || Bytes(c.result) + |key| + (if |value| > 4096 then 4096 else |value|) > 65536
  {
    var offers, c := HeaderOffers(h, p.headers + rest), ChosenHeaders(p, h, rest);
    ChoiceIsBounded(offers, false);
    OffersComeFromNames(h, p.headers + rest);
    forall n | n in p.headers + rest && Offers(h, n)
      ensures var key, value := Lower(n), Join(Values(h, n), ", ");
              |key| <= 128 && ValidHeaderName(key) && '\0' !in value && '\r' !in value && '\n' !in value
              && key !in c.result
              ==> |c.result| == 128
                  || Bytes(c.result) + |key| + (if |value| > 4096 then 4096 else |value|) > 65536
    {
      var o := Offer(Lower(n), Join(Values(h, n), ", "));
      if |o.key| <= 128 && ValidHeaderName(o.key) && o.key !in c.result
         && '\0' !in o.value && '\r' !in o.value && '\n' !in o.value {
        LeftOutDoesNotFit(offers, false, o);
      }
    }
  }

  lemma CanonicalKeepsFolded(n: string)
    ensures Lower(Canonical(n)) == Lower(n)
  {
    if ValidHeaderName(n) {
      CanonicalFoldsCase(n, n);
    }
  }

  /** Every value sent on is what some header of that name begins with: its values joined
      by ", ", cut after exactly 4096 bytes if they are more. Cookie is never one of them. */
  lemma HeaderValuesAreCut(p: ForwardingPolicy, h: Header, rest: seq<string>, k: string)
    requires k in ChosenHeaders(p, h, rest).result
    ensures k != "cookie"
    ensures exists n :: n in h && Lower(n) == k
                        && Cut(ChosenHeaders(p, h, rest).result[k], Join(h[n], ", "))
  {
    var offers := HeaderOffers(h, p.headers + rest);
    KeptIsOffered(offers, false, k);
    var i :| 0 <= i < |offers| && offers[i].key == k && Cut(ChosenHeaders(p, h, rest).result[k], offers[i].value);
    OffersComeFromNames(h, p.headers + rest);
    assert offers[i] in offers;
    var n :| n in p.headers + rest && Offers(h, n) && offers[i] == Offer(Lower(n), Join(Values(h, n), ", "));
    CanonicalKeepsFolded(n);
    assert Canonical(n) in h && h[Canonical(n)] == Values(h, n);
  }

  /** The framing keys, and nothing else, are added or replaced: the length of a request
      that is no GET or HEAD, if known, and the transfer codings, if any. */
  lemma FramingMeaning(r: Request, m: map<string, string>, k: string)
    ensures k != "content-length" && k != "transfer-encoding" ==>
              (k in Framed(r, m) <==> k in m) && (k in m ==> Framed(r, m)[k] == m[k])
    ensures r.contentLength >= 0 && r.method_ != "GET" && r.method_ != "HEAD" ==>
              "content-length" in Framed(r, m) && Framed(r, m)["content-length"] == Decimal(r.contentLength)
    ensures r.contentLength < 0 || r.method_ == "GET" || r.method_ == "HEAD" ==>
              ("content-length" in Framed(r, m) <==> "content-length" in m)
              && ("content-length" in m ==> Framed(r, m)["content-length"] == m["content-length"])
    ensures r.transferEncoding != [] ==>
              "transfer-encoding" in Framed(r, m)
              && Framed(r, m)["transfer-encoding"] == Join(r.transferEncoding, ", ")
    ensures r.transferEncoding == [] ==>
              ("transfer-encoding" in Framed(r, m) <==> "transfer-encoding" in m)
              && ("transfer-encoding" in m ==> Framed(r, m)["transfer-encoding"] == m["transfer-encoding"])
  {
    assert "content-length"[0] != "transfer-encoding"[0];
  }

  /** Header maps as net/http builds them. */
  ghost predicate CanonicalMap(h: Header) {
    forall n :: n in h ==> Canonical(n) == n
  }

  /** Canonical names that fold together are the same name or no names at all. */
  lemma CanonicalNamesDiffer(a: string, b: string)
    requires Canonical(a) == a && Canonical(b) == b && Lower(a) == Lower(b)
    ensures a == b || !ValidHeaderName(Lower(a))
  {
    if ValidHeaderName(Lower(a)) {
      assert Lower(Lower(a)) == Lower(a);
      CanonicalFoldsCase(Lower(a), a);
      CanonicalFoldsCase(a, b);
    }
  }

  lemma {:induction false} DistinctCanonicalOffers(h: Header, names: seq<string>)
    requires Distinct(names) && forall n :: n in names ==> Canonical(n) == n
    ensures DistinctNames(HeaderOffers(h, names))
  {
    if names != [] {
      var front, last := names[..|names| - 1], names[|names| - 1];
      DistinctCanonicalOffers(h, front);
      OffersComeFromNames(h, front);
      var offers, before := HeaderOffers(h, names), HeaderOffers(h, front);
      forall i, j | 0 <= i < j < |offers| && offers[i].key == offers[j].key
        ensures !ValidHeaderName(offers[i].key)
      {
        if j == |before| {
          assert offers[i] in before;
          var n :| n in front && Offers(h, n) && before[i] == Offer(Lower(n), Join(Values(h, n), ", "));
          CanonicalNamesDiffer(n, last);
        }
      }
    }
  }

  lemma NamesAreDistinct(p: ForwardingPolicy, h: Header, rest: seq<string>)
    requires ValidPolicy(p) && IsRemainder(p, h, rest) && CanonicalMap(h)
    ensures Distinct(p.headers + rest) && forall n :: n in p.headers + rest ==> Canonical(n) == n
  {
    forall n | n in rest ensures n !in p.headers && Canonical(n) == n {
      assert n in Elements(rest);
      assert n in p.headers ==> n in Elements(p.headers);
    }
    DistinctAppend(p.headers, rest);
  }

  lemma DistinctAppend(a: seq<string>, b: seq<string>)
    requires Distinct(a) && Distinct(b) && forall x :: x in b ==> x !in a
    ensures Distinct(a + b)
  {
    forall i, j | 0 <= i < j < |a + b| ensures (a + b)[i] != (a + b)[j] {
      if i < |a| <= j {
        assert (a + b)[j] in b;
      }
    }
  }

  /** The headers this policy is meant to forward. */
  ghost predicate HeaderInScope(p: ForwardingPolicy, h: Header, n: string) {
    && n in h && h[n] != [] && Lower(n) != "cookie"
    && (p.allHeaders || n in p.headers)
  }

  /** The flag is exact on canonical header maps, before framing keys are added: it stays
      down exactly when every header in scope is forwarded with its full joined value. */
  lemma HeaderFlagIsExact(p: ForwardingPolicy, h: Header, rest: seq<string>)
    requires ValidPolicy(p) && IsRemainder(p, h, rest) && CanonicalMap(h)
    ensures var c := ChosenHeaders(p, h, rest);
            !c.truncated <==> forall n :: HeaderInScope(p, h, n) ==>
              Lower(n) in c.result && c.result[Lower(n)] == Join(h[n], ", ")
  {
    var names := p.headers + rest;
    var offers := HeaderOffers(h, names);
    NamesAreDistinct(p, h, rest);
    DistinctCanonicalOffers(h, names);
    FlagIsExact(offers, false);
    OffersComeFromNames(h, names);
    ScopeIsNamed(p, h, rest);
    var c := ChosenHeaders(p, h, rest);
    if forall i :: 0 <= i < |offers| ==> InFull(c.result, offers[i]) {
      forall n | HeaderInScope(p, h, n) ensures Lower(n) in c.result && c.result[Lower(n)] == Join(h[n], ", ") {
        var o := Offer(Lower(n), Join(Values(h, n), ", "));
        assert n in names && Offers(h, n);
        assert o in offers;
        var i :| 0 <= i < |offers| && offers[i] == o;
        assert InFull(c.result, offers[i]);
      }
    }
    if forall n :: HeaderInScope(p, h, n) ==> Lower(n) in c.result && c.result[Lower(n)] == Join(h[n], ", ") {
      forall i | 0 <= i < |offers| ensures InFull(c.result, offers[i]) {
        assert offers[i] in offers;
        var n :| n in names && Offers(h, n) && offers[i] == Offer(Lower(n), Join(Values(h, n), ", "));
        assert HeaderInScope(p, h, n);
      }
    }
  }

  lemma ScopeIsNamed(p: ForwardingPolicy, h: Header, rest: seq<string>)
    requires ValidPolicy(p) && IsRemainder(p, h, rest) && CanonicalMap(h)
    ensures forall n :: HeaderInScope(p, h, n) <==> n in p.headers + rest && Offers(h, n)
  {
    forall n ensures HeaderInScope(p, h, n) <==> n in p.headers + rest && Offers(h, n) {
      NamesAreDistinct(p, h, rest);
      assert n in p.headers <==> n in Elements(p.headers);
      assert n in rest <==> n in Elements(rest);
    }
  }

  /** The offer as far as the loop can tell: names that are no tokens are all alike. */
  function Plainly(o: Offer): Offer {
    if ValidHeaderName(o.key) then o else Offer("", "")
  }

  function AllPlainly(offers: seq<Offer>): (r: seq<Offer>)
    ensures |r| == |offers| && forall i :: 0 <= i < |offers| ==> r[i] == Plainly(offers[i])
  {
    seq(|offers|, i requires 0 <= i < |offers| => Plainly(offers[i]))
  }

  lemma AllPlainlyAppends(a: seq<Offer>, b: seq<Offer>)
    ensures AllPlainly(a + b) == AllPlainly(a) + AllPlainly(b)
  {}

  lemma {:induction false} TakingPlainly(offers: seq<Offer>, truncated: bool)
    ensures TakeAll(Empty(truncated), AllPlainly(offers)) == TakeAll(Empty(truncated), offers)
  {
    if offers != [] {
      var front, o := offers[..|offers| - 1], offers[|offers| - 1];
      TakingPlainly(front, truncated);
      KeysComeFromOffers(front, truncated);
      assert AllPlainly(offers)[..|offers| - 1] == AllPlainly(front);
    }
  }

  function PlainOfferOf(h: Header): string -> seq<Offer> {
    name => AllPlainly(HeaderOffer(h, name))
  }

  lemma {:induction false} GatheringPlainly(h: Header, names: seq<string>)
    ensures Gather(PlainOfferOf(h), names) == AllPlainly(Gather(OfferOf(h), names))
  {
    if names != [] {
      var front, last := names[..|names| - 1], names[|names| - 1];
      GatheringPlainly(h, front);
      AllPlainlyAppends(Gather(OfferOf(h), front), HeaderOffer(h, last));
    }
  }

  /** Names that fold together offer the same, or are no tokens. */
  lemma FoldedOffersCommute(h: Header, a: string, b: string)
    requires Lower(a) == Lower(b)
    ensures PlainOfferOf(h)(a) + PlainOfferOf(h)(b) == PlainOfferOf(h)(b) + PlainOfferOf(h)(a)
  {
    if ValidHeaderName(a) {
      CanonicalFoldsCase(a, b);
    } else {
      LowerIsIdempotent(a);
      if ValidHeaderName(Lower(a)) {
        CanonicalFoldsCase(Lower(a), a);
      }
      OddOffer(h, a);
      OddOffer(h, b);
    }
  }

  lemma OddOffer(h: Header, n: string)
    requires !ValidHeaderName(Lower(n))
    ensures PlainOfferOf(h)(n) == [] || PlainOfferOf(h)(n) == [Offer("", "")]
  {
    if HeaderOffer(h, n) != [] {
      assert HeaderOffer(h, n)[..0] == [];
    }
  }

  lemma {:induction false} MovesToEnd(offer: string -> seq<Offer>, x: string, tail: seq<string>)
    requires forall y :: y in tail ==> offer(x) + offer(y) == offer(y) + offer(x)
    ensures Gather(offer, [x] + tail) == Gather(offer, tail) + offer(x)
  {
    if tail == [] {
      assert [x] + tail == [] + [x];
      GatherGrows(offer, [], x);
    } else {
      var front, y := tail[..|tail| - 1], tail[|tail| - 1];
      assert tail == front + [y] && [x] + tail == ([x] + front) + [y];
      MovesToEnd(offer, x, front);
      GatherGrows(offer, [x] + front, y);
      GatherGrows(offer, front, y);
      Regrouped(Gather(offer, front), offer(x), offer(y));
      Regrouped(Gather(offer, front), offer(y), offer(x));
    }
  }

  /** Two sorted arrangements of the same names gather the same offers if names with equal
      keys may change places. */
  lemma {:induction false} SortedGatherIsUnique(offer: string -> seq<Offer>, key: string -> string,
                                                s: seq<string>, t: seq<string>)
    requires Distinct(s) && Distinct(t) && Elements(s) == Elements(t) && SortedBy(s, key) && SortedBy(t, key)
    requires forall a, b :: a in s && b in s && key(a) == key(b) ==> offer(a) + offer(b) == offer(b) + offer(a)
    ensures Gather(offer, s) == Gather(offer, t)
    decreases |s|
  {
    if s == [] {
      SomeElement(t);
    } else {
      var front, x := s[..|s| - 1], s[|s| - 1];
      var j := LastStands(key, s, t);
      WithoutLast(key, s, t, j);
      SortedGatherIsUnique(offer, key, front, t[..j] + t[j + 1..]);
      forall y | y in t[j + 1..] ensures offer(x) + offer(y) == offer(y) + offer(x) {
        assert y in Elements(t);
      }
      LiftOut(offer, t[..j], x, t[j + 1..]);
      assert t == t[..j] + ([x] + t[j + 1..]);
    }
  }

  /** A name that may change places with all that follow may as well come last. */
  lemma LiftOut(offer: string -> seq<Offer>, head: seq<string>, x: string, tail: seq<string>)
    requires forall y :: y in tail ==> offer(x) + offer(y) == offer(y) + offer(x)
    ensures Gather(offer, head + ([x] + tail)) == Gather(offer, head + tail) + offer(x)
  {
    MovesToEnd(offer, x, tail);
    GatherAppends(offer, head, [x] + tail);
    GatherAppends(offer, head, tail);
    Regrouped(Gather(offer, head), Gather(offer, tail), offer(x));
  }

  lemma SomeElement(t: seq<string>)
    ensures t != [] ==> Elements(t) != {}
  {
    if t != [] {
      assert t[0] in Elements(t);
    }
  }

  /** Where the last name of one arrangement stands in the other: only names with its own
      key come after it. */
  lemma LastStands(key: string -> string, s: seq<string>, t: seq<string>) returns (j: nat)
    requires s != [] && Elements(s) == Elements(t) && SortedBy(s, key) && SortedBy(t, key)
    ensures j < |t| && t[j] == s[|s| - 1]
    ensures forall y :: y in t[j + 1..] ==> key(y) == key(s[|s| - 1])
  {
    var x := s[|s| - 1];
    assert x in Elements(s);
    j :| 0 <= j < |t| && t[j] == x;
    forall y | y in t[j + 1..] ensures key(y) == key(x) {
      var k :| j < k < |t| && t[k] == y;
      assert y in Elements(s);
      var i :| 0 <= i < |s| && s[i] == y;
      BeforeIsStrict(key(x), key(y));
    }
  }

  lemma WithoutLast(key: string -> string, s: seq<string>, t: seq<string>, j: nat)
    requires s != [] && Distinct(s) && Distinct(t) && Elements(s) == Elements(t)
    requires SortedBy(s, key) && SortedBy(t, key) && j < |t| && t[j] == s[|s| - 1]
    ensures var front, rest := s[..|s| - 1], t[..j] + t[j + 1..];
            && Distinct(front) && Distinct(rest) && Elements(front) == Elements(rest)
            && SortedBy(front, key) && SortedBy(rest, key)
  {
    var front, rest, x := s[..|s| - 1], t[..j] + t[j + 1..], s[|s| - 1];
    assert s == front + [x];
    assert t == t[..j] + [x] + t[j + 1..];
    assert forall i :: 0 <= i < |rest| ==> rest[i] == t[if i < j then i else i + 1];
    assert forall y :: y in front <==> y in s && y != x;
    assert forall y :: y in rest <==> y in t && y != x;
    assert forall y :: y in s <==> y in Elements(s);
    assert forall y :: y in t <==> y in Elements(t);
  }

  /** Neither map iteration nor an unstable sort can change what is forwarded, for any
      header map. */
  lemma HeaderOutcomeIsUnique(p: ForwardingPolicy, h: Header, rest: seq<string>, rest': seq<string>)
    requires IsRemainder(p, h, rest) && IsRemainder(p, h, rest')
    ensures ChosenHeaders(p, h, rest) == ChosenHeaders(p, h, rest')
  {
    if p.allHeaders {
      forall a, b | a in rest && b in rest && Lower(a) == Lower(b)
        ensures PlainOfferOf(h)(a) + PlainOfferOf(h)(b) == PlainOfferOf(h)(b) + PlainOfferOf(h)(a)
      {
        FoldedOffersCommute(h, a, b);
      }
      SortedGatherIsUnique(PlainOfferOf(h), Lower, rest, rest');
    }
    ChosenPlainly(p, h, rest);
    ChosenPlainly(p, h, rest');
  }

  lemma ChosenPlainly(p: ForwardingPolicy, h: Header, rest: seq<string>)
    ensures ChosenHeaders(p, h, rest)
            == TakeAll(Empty(false), Gather(PlainOfferOf(h), p.headers) + Gather(PlainOfferOf(h), rest))
  {
    TakingPlainly(HeaderOffers(h, p.headers + rest), false);
    GatheringPlainly(h, p.headers + rest);
    GatherAppends(PlainOfferOf(h), p.headers, rest);
  }

  /** Where no two header names fold together the very order of the unlisted names is
      unique. */
  lemma HeaderOrderIsUnique(p: ForwardingPolicy, h: Header, rest: seq<string>, rest': seq<string>)
    requires IsRemainder(p, h, rest) && IsRemainder(p, h, rest')
    requires forall a, b :: a in h && b in h && Lower(a) == Lower(b) ==> a == b
    ensures rest == rest'
  {
    if p.allHeaders {
      forall n | n in rest ensures n in h { assert n in Elements(rest); }
      forall n | n in rest' ensures n in h { assert n in Elements(rest'); }
      DistinctSortIsStrict(rest, Lower);
      DistinctSortIsStrict(rest', Lower);
      var a, b := LowerAll(rest), LowerAll(rest');
      SameFolded(rest, rest');
      SortedListsAreUnique(a, b);
      assert |a| == |b|;
      forall i | 0 <= i < |rest| ensures rest[i] == rest'[i] {
        assert a[i] == b[i];
        assert rest[i] in rest && rest'[i] in rest';
      }
    }
  }

  lemma SameFolded(s: seq<string>, t: seq<string>)
    requires Elements(s) == Elements(t)
    ensures Elements(LowerAll(s)) == Elements(LowerAll(t))
  {
    FoldedSubset(s, t);
    FoldedSubset(t, s);
  }

  lemma FoldedSubset(s: seq<string>, t: seq<string>)
    requires Elements(s) == Elements(t)
    ensures Elements(LowerAll(s)) <= Elements(LowerAll(t))
  {
    forall k | k in Elements(LowerAll(s)) ensures k in Elements(LowerAll(t)) {
      var i :| 0 <= i < |s| && LowerAll(s)[i] == k;
      assert s[i] in Elements(s);
      var j :| 0 <= j < |t| && t[j] == s[i];
      assert LowerAll(t)[j] == k;
    }
  }

  /** Canonical maps of valid names, the only ones a server hands out, meet that condition. */
  lemma CanonicalTokensDoNotFold(h: Header)
    requires CanonicalMap(h) && forall n :: n in h ==> ValidHeaderName(n)
    ensures forall a, b :: a in h && b in h && Lower(a) == Lower(b) ==> a == b
  {
    forall a, b | a in h && b in h && Lower(a) == Lower(b) ensures a == b {
      CanonicalFoldsCase(a, b);
    }
  }
}

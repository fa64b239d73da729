/** Cookie forwarding (forwarding.go, lines 163-215). */
module CookieForwarding {
  import opened Text
  import opened Selection
  import opened Forwarding

  function NamesOf(parsed: seq<Cookie>): (r: seq<string>)
    ensures |r| == |parsed| && forall i :: 0 <= i < |parsed| ==> r[i] == parsed[i].name
  {
    seq(|parsed|, i requires 0 <= i < |parsed| => parsed[i].name)
  }

  /** The first value each name came with. */
  ghost function FirstValues(parsed: seq<Cookie>): (m: map<string, string>)
    ensures m.Keys == Elements(NamesOf(parsed))
  {
    if parsed == [] then map[]
    else
      var front, last := parsed[..|parsed| - 1], parsed[|parsed| - 1];
      var m := FirstValues(front);
      assert NamesOf(parsed) == NamesOf(front) + [last.name];
      AppendElement(NamesOf(front), last.name);
      if last.name in m then m else m[last.name := last.value]
  }

  lemma FirstValuesGrow(parsed: seq<Cookie>, c: Cookie)
    ensures FirstValues(parsed + [c]) ==
            if c.name in FirstValues(parsed) then FirstValues(parsed) else FirstValues(parsed)[c.name := c.value]
    ensures NamesOf(parsed + [c]) == NamesOf(parsed) + [c.name]
  {
    assert (parsed + [c])[..|parsed|] == parsed;
  }

  function OfferFrom(first: map<string, string>): string -> seq<Offer> {
    name => if name in first then [Offer(name, first[name])] else []
  }

  /** The unlisted names of "all" mode, sorted. */
  ghost function Unlisted(p: ForwardingPolicy, first: map<string, string>): (rest: seq<string>)
    ensures Distinct(rest)
    ensures forall n :: n in rest <==> p.allCookies && n in first && n !in p.cookieSet
  {
    if p.allCookies then
      var rest := SortedKeys(first.Keys - p.cookieSet);
      StrictIsDistinct(rest);
      assert forall n :: n in rest <==> n in Elements(rest);
      rest
    else []
  }

  lemma StrictIsDistinct(s: seq<string>)
    requires StrictlySorted(s)
    ensures Distinct(s)
  {
    forall i, j | 0 <= i < j < |s| ensures s[i] != s[j] {
      BeforeIrreflexive(s[i]);
    }
  }

  ghost function CookieOffers(p: ForwardingPolicy, parsed: seq<Cookie>): seq<Offer> {
    var first := FirstValues(parsed);
    Gather(OfferFrom(first), p.cookies + Unlisted(p, first))
  }

  ghost predicate Repeats(parsed: seq<Cookie>) {
    !Distinct(NamesOf(parsed))
  }

  ghost function ChosenCookies(p: ForwardingPolicy, parsed: seq<Cookie>): Chosen {
    TakeAll(Empty(Repeats(parsed)), CookieOffers(p, parsed))
  }

  // ---------------------------------------------------------------------
  // The method
  // ---------------------------------------------------------------------

  method FirstOfEach(parsed: seq<Cookie>)
    returns (first: map<string, string>, order: seq<string>, truncated: bool)
    ensures first == FirstValues(parsed) && truncated == Repeats(parsed)
    ensures Distinct(order) && Elements(order) == first.Keys
  {
    first, order, truncated := map[], [], false;
    for i := 0 to |parsed|
      invariant first == FirstValues(parsed[..i]) && truncated == Repeats(parsed[..i])
      invariant Distinct(order) && Elements(order) == first.Keys
    {
      var cookie := parsed[i];
      FirstStep(parsed, i);
      if cookie.name in first {
        truncated := true;
      } else {
        OrderStep(order, first, cookie.name);
        first := first[cookie.name := cookie.value];
        order := order + [cookie.name];
      }
    }
    assert parsed[..|parsed|] == parsed;
  }

  /** One more cookie either repeats a name or brings a new one. */
  lemma FirstStep(parsed: seq<Cookie>, i: nat)
    requires i < |parsed|
    ensures var c, m := parsed[i], FirstValues(parsed[..i]);
            && FirstValues(parsed[..i + 1]) == (if c.name in m then m else m[c.name := c.value])
            && (Repeats(parsed[..i + 1]) <==> Repeats(parsed[..i]) || c.name in m)
  {
    PrefixGrows(parsed, i);
    FirstValuesGrow(parsed[..i], parsed[i]);
    RepeatStep(NamesOf(parsed[..i]), parsed[i].name);
  }

  lemma OrderStep(order: seq<string>, first: map<string, string>, name: string)
    requires Distinct(order) && Elements(order) == first.Keys && name !in first
    ensures Distinct(order + [name]) && Elements(order + [name]) == first.Keys + {name}
  {
    RepeatStep(order, name);
    AppendElement(order, name);
  }

  lemma RepeatStep(names: seq<string>, name: string)
    ensures Distinct(names + [name]) <==> Distinct(names) && name !in Elements(names)
  {
    var all := names + [name];
    if Distinct(all) {
      forall i, j | 0 <= i < j < |names| ensures names[i] != names[j] {
        assert all[i] == names[i] && all[j] == names[j];
      }
      forall i | 0 <= i < |names| ensures names[i] != name {
        assert all[i] == names[i] && all[|names|] == name;
      }
    }
  }

  method NamesToForward(p: ForwardingPolicy, first: map<string, string>, order: seq<string>)
    returns (names: seq<string>)
    requires Distinct(order) && Elements(order) == first.Keys
    requires Distinct(p.cookies) && p.cookieSet == Elements(p.cookies)
    ensures Distinct(names) && forall n :: n in names ==> n in first
    ensures Gather(OfferFrom(first), names) == Gather(OfferFrom(first), p.cookies + Unlisted(p, first))
  {
    names := Present(p.cookies, first);
    var rest := [];
    if p.allCookies {
      var remaining := UnlistedOf(p, order);
      rest := Sort(remaining, name => name);
      SortedUnlisted(p, first, remaining, rest);
    }
    assert rest == Unlisted(p, first);
    GatherAppends(OfferFrom(first), p.cookies, rest);
    GatherAppends(OfferFrom(first), names, rest);
    forall n | n in rest ensures n !in names {
      assert n in p.cookies ==> n in Elements(p.cookies);
    }
    DistinctAppend(names, rest);
    names := names + rest;
  }

  /** The configured names that were sent, in configuration order. */
  method Present(cookies: seq<string>, first: map<string, string>) returns (names: seq<string>)
    requires Distinct(cookies)
    ensures Distinct(names) && forall n :: n in names ==> n in first && n in cookies
    ensures Gather(OfferFrom(first), names) == Gather(OfferFrom(first), cookies)
  {
    names := [];
    for i := 0 to |cookies|
      invariant Gather(OfferFrom(first), names) == Gather(OfferFrom(first), cookies[..i])
      invariant Distinct(names) && forall n :: n in names ==> n in first && n in cookies[..i]
    {
      var name := cookies[i];
      PrefixGrows(cookies, i);
      GatherGrows(OfferFrom(first), cookies[..i], name);
      GatherGrows(OfferFrom(first), names, name);
      if name in first {
        assert name !in cookies[..i];
        RepeatStep(names, name);
        names := names + [name];
      }
    }
    assert cookies[..|cookies|] == cookies;
  }

  lemma SortedUnlisted(p: ForwardingPolicy, first: map<string, string>, remaining: seq<string>, sorted: seq<string>)
    requires p.allCookies && Distinct(remaining) && Elements(remaining) == first.Keys - p.cookieSet
    requires multiset(sorted) == multiset(remaining) && SortedBy(sorted, name => name)
    ensures sorted == Unlisted(p, first)
  {
    PermutationKeepsElements(remaining, sorted);
    DistinctSortIsStrict(sorted, name => name);
    assert StrictlySorted(sorted);
    SortedListsAreUnique(sorted, SortedKeys(first.Keys - p.cookieSet));
  }

  method UnlistedOf(p: ForwardingPolicy, order: seq<string>) returns (remaining: seq<string>)
    requires Distinct(order)
    ensures Distinct(remaining) && Elements(remaining) == Elements(order) - p.cookieSet
  {
    remaining := [];
    for i := 0 to |order|
      invariant Distinct(remaining) && Elements(remaining) == Elements(order[..i]) - p.cookieSet
    {
      PrefixGrows(order, i);
      AppendElement(order[..i], order[i]);
      AppendElement(remaining, order[i]);
      assert order[i] !in order[..i];
      if order[i] !in p.cookieSet {
        RepeatStep(remaining, order[i]);
        remaining := remaining + [order[i]];
      }
    }
    assert order[..|order|] == order;
  }

  /** forwardedCookies. */
  method ForwardedCookies(p: ForwardingPolicy, parsed: seq<Cookie>)
    returns (result: map<string, string>, truncated: bool)
    requires Distinct(p.cookies) && p.cookieSet == Elements(p.cookies)
    ensures result == ChosenCookies(p, parsed).result
    ensures truncated == ChosenCookies(p, parsed).truncated
    ensures NulFreeMap(result)
    ensures forall k :: k in result ==>
              exists i :: 0 <= i < |parsed| && parsed[i].name == k && (forall j :: 0 <= j < i ==> parsed[j].name != k)
                          && Cut(result[k], parsed[i].value)
  {
    ChoiceIsNulFree(CookieOffers(p, parsed), Repeats(parsed));
    forall k | k in ChosenCookies(p, parsed).result
      ensures exists i :: 0 <= i < |parsed| && parsed[i].name == k && (forall j :: 0 <= j < i ==> parsed[j].name != k)
                          && Cut(ChosenCookies(p, parsed).result[k], parsed[i].value)
    {
      CookieValuesAreCut(p, parsed, k);
    }
    var first, order, repeated := FirstOfEach(parsed);
    var names := NamesToForward(p, first, order);
    result, truncated := SelectCookies(first, names, repeated);
  }

  /** The bounded loop of forwardedCookies. */
  method SelectCookies(first: map<string, string>, names: seq<string>, repeated: bool)
    returns (result: map<string, string>, truncated: bool)
    requires Distinct(names) && forall n :: n in names ==> n in first
    ensures result == TakeAll(Empty(repeated), Gather(OfferFrom(first), names)).result
    ensures truncated == TakeAll(Empty(repeated), Gather(OfferFrom(first), names)).truncated
  {
    result := map[];
    truncated := repeated;
    var total: nat := 0;
    for i := 0 to |names|
      invariant Chosen(result, total, truncated) == TakeAll(Empty(repeated), Gather(OfferFrom(first), names[..i]))
      invariant forall k :: k in result ==> k in names[..i]
    {
      CookieRound(first, names, i, repeated);
      assert names[i] !in result;
      result, total, truncated := SelectCookie(result, total, truncated, names[i], first[names[i]]);
    }
    assert names[..|names|] == names;
  }

  /** One round: the names are distinct, so there is no duplicate test. */
  method SelectCookie(before: map<string, string>, used: nat, flagged: bool, name: string, first: string)
    returns (result: map<string, string>, total: nat, truncated: bool)
    requires name !in before
    ensures Chosen(result, total, truncated) == Take(Chosen(before, used, flagged), Offer(name, first))
  {
    result, total, truncated := before, used, flagged;
    var value := first;
    if !ValidCookieName(name) || !Clean(value) {
      truncated := true;
      return;
    }
    var cut := false;
    if |value| > MAXIMUM_VALUE_BYTES {
      value := value[..MAXIMUM_VALUE_BYTES];
      cut := true;
    }
    if |result| >= MAXIMUM_ENTRIES || total + |name| + |value| > MAXIMUM_BYTES {
      truncated := true;
      return;
    }
    truncated := truncated || cut;
    total := total + |name| + |value|;
    result := result[name := value];
  }

  /** What one round of the loop has to come to. */
  lemma CookieRound(first: map<string, string>, names: seq<string>, i: nat, repeated: bool)
    requires i < |names| && names[i] in first
    ensures TakeAll(Empty(repeated), Gather(OfferFrom(first), names[..i + 1])) ==
            Take(TakeAll(Empty(repeated), Gather(OfferFrom(first), names[..i])), Offer(names[i], first[names[i]]))
  {
    PrefixGrows(names, i);
    GatherGrows(OfferFrom(first), names[..i], names[i]);
    TakeOneMore(Empty(repeated), Gather(OfferFrom(first), names[..i]), Offer(names[i], first[names[i]]));
  }

  // ---------------------------------------------------------------------
  // What the choice means
  // ---------------------------------------------------------------------

  lemma CookieOffersComeFromNames(first: map<string, string>, names: seq<string>)
    ensures forall o :: o in Gather(OfferFrom(first), names) <==>
              o.key in names && o.key in first && o.value == first[o.key]
  {
    GatheredFrom(OfferFrom(first), names);
    forall o ensures o in Gather(OfferFrom(first), names) <==>
              o.key in names && o.key in first && o.value == first[o.key]
    {
      if o in Gather(OfferFrom(first), names) {
        var n :| n in names && o in OfferFrom(first)(n);
      }
      if o.key in names && o.key in first && o.value == first[o.key] {
        assert o in OfferFrom(first)(o.key);
      }
    }
  }

  /** Mode extension for cookies: restricted to the configured names, "all" mode forwards
      exactly what "allowlist" mode forwards. */
  lemma AllModeExtendsAllowlistCookies(all: ForwardingPolicy, listed: ForwardingPolicy, parsed: seq<Cookie>)
    requires ValidPolicy(all) && all.allCookies && !listed.allCookies
    requires listed.cookies == all.cookies && listed.cookieSet == all.cookieSet
    ensures var a, l := ChosenCookies(all, parsed), ChosenCookies(listed, parsed);
            Restrict(a.result, all.cookieSet) == l.result && (l.truncated ==> a.truncated)
  {
    var first := FirstValues(parsed);
    var rest := Unlisted(all, first);
    var first', later := Gather(OfferFrom(first), all.cookies), Gather(OfferFrom(first), rest);
    GatherAppends(OfferFrom(first), all.cookies, rest);
    assert listed.cookies + Unlisted(listed, first) == all.cookies;
    CookieOffersComeFromNames(first, all.cookies);
    CookieOffersComeFromNames(first, rest);
    forall i | 0 <= i < |first'| ensures first'[i].key in all.cookieSet {
      assert first'[i] in first';
      assert first'[i].key in Elements(all.cookies);
    }
    forall i | 0 <= i < |later| ensures later[i].key !in all.cookieSet {
      assert later[i] in later;
    }
    LaterOffersDoNotDisturb(first', later, Repeats(parsed), all.cookieSet);
  }

  /** The cookies this policy is meant to forward. */
  ghost predicate CookieInScope(p: ForwardingPolicy, parsed: seq<Cookie>, n: string) {
    n in FirstValues(parsed) && (p.allCookies || n in p.cookieSet)
  }

  lemma ScopeIsOffered(p: ForwardingPolicy, parsed: seq<Cookie>)
    requires ValidPolicy(p)
    ensures forall o :: o in CookieOffers(p, parsed) <==>
              CookieInScope(p, parsed, o.key) && o.value == FirstValues(parsed)[o.key]
  {
    var first := FirstValues(parsed);
    CookieOffersComeFromNames(first, p.cookies + Unlisted(p, first));
    forall n ensures n in first ==> (n in p.cookies + Unlisted(p, first) <==> p.allCookies || n in p.cookieSet) {
      assert n in p.cookies <==> n in Elements(p.cookies);
    }
  }

  /** The bounds, and greedy maximality for cookies. */
  lemma CookieChoiceIsBoundedAndMaximal(p: ForwardingPolicy, parsed: seq<Cookie>)
    requires ValidPolicy(p)
    ensures WithinBounds(ChosenCookies(p, parsed))
    ensures forall n :: CookieInScope(p, parsed, n) ==>
              var value := FirstValues(parsed)[n];
              var c := ChosenCookies(p, parsed);
              |n| <= 128 && ValidHeaderName(n) && '\0' !in value && '\r' !in value && '\n' !in value
              && n !in c.result
              ==> |c.result| == 128
                  || Bytes(c.result) + |n| + (if |value| > 4096 then 4096 else |value|) > 65536
  {
    var offers, first, c := CookieOffers(p, parsed), FirstValues(parsed), ChosenCookies(p, parsed);
    ChoiceIsBounded(offers, Repeats(parsed));
    ScopeIsOffered(p, parsed);
    forall n | CookieInScope(p, parsed, n) && |n| <= 128 && ValidHeaderName(n) && n !in c.result
               && '\0' !in first[n] && '\r' !in first[n] && '\n' !in first[n]
      ensures |c.result| == 128
              || Bytes(c.result) + |n| + (if |first[n]| > 4096 then 4096 else |first[n]|) > 65536
    {
      LeftOutDoesNotFit(offers, Repeats(parsed), Offer(n, first[n]));
    }
  }

  ghost predicate ComesFirst(parsed: seq<Cookie>, n: string, i: nat) {
    i < |parsed| && parsed[i].name == n && forall j :: 0 <= j < i ==> parsed[j].name != n
  }

  /** The value a name first came with. */
  lemma {:induction false} FirstValueIsFirst(parsed: seq<Cookie>, n: string) returns (i: nat)
    requires n in FirstValues(parsed)
    ensures ComesFirst(parsed, n, i) && parsed[i].value == FirstValues(parsed)[n]
  {
    var front, last := parsed[..|parsed| - 1], parsed[|parsed| - 1];
    if n in FirstValues(front) {
      i := FirstValueIsFirst(front, n);
    } else {
      i := |parsed| - 1;
      forall j | 0 <= j < |front| ensures parsed[j].name != n {
        assert NamesOf(front)[j] == parsed[j].name;
        assert NamesOf(front)[j] in Elements(NamesOf(front));
      }
    }
  }

  /** Every cookie sent on is the first of its name, cut after exactly 4096 bytes if it has
      more. */
  lemma CookieValuesAreCut(p: ForwardingPolicy, parsed: seq<Cookie>, k: string)
    requires k in ChosenCookies(p, parsed).result
    ensures exists i :: 0 <= i < |parsed| && parsed[i].name == k
                        && (forall j :: 0 <= j < i ==> parsed[j].name != k)
                        && Cut(ChosenCookies(p, parsed).result[k], parsed[i].value)
  {
    var offers := CookieOffers(p, parsed);
    KeptIsOffered(offers, Repeats(parsed), k);
    var i :| 0 <= i < |offers| && offers[i].key == k && Cut(ChosenCookies(p, parsed).result[k], offers[i].value);
    var first := FirstValues(parsed);
    CookieOffersComeFromNames(first, p.cookies + Unlisted(p, first));
    assert offers[i] in offers;
    var j := FirstValueIsFirst(parsed, k);
    assert parsed[j].name == k;
  }

  lemma {:induction false} DistinctCookieOffers(first: map<string, string>, names: seq<string>)
    requires Distinct(names)
    ensures DistinctNames(Gather(OfferFrom(first), names))
  {
    if names != [] {
      var front, last := names[..|names| - 1], names[|names| - 1];
      DistinctCookieOffers(first, front);
      CookieOffersComeFromNames(first, front);
      var offers, before := Gather(OfferFrom(first), names), Gather(OfferFrom(first), front);
      forall i, j | 0 <= i < j < |offers| ensures offers[i].key == offers[j].key ==> !ValidHeaderName(offers[i].key) {
        if j == |before| {
          assert offers[i] in before;
        }
      }
    }
  }

  /** The flag is exact: it stays down exactly when no parsed name repeats and every
      cookie in scope is forwarded in full. */
  lemma CookieFlagIsExact(p: ForwardingPolicy, parsed: seq<Cookie>)
    requires ValidPolicy(p)
    ensures var c := ChosenCookies(p, parsed);
            !c.truncated <==> !Repeats(parsed) && forall n :: CookieInScope(p, parsed, n) ==>
              ForwardedInFull(parsed, c.result, n)
  {
    OfferedCookiesAreDistinct(p, parsed);
    FlagIsExact(CookieOffers(p, parsed), Repeats(parsed));
    OffersInFull(p, parsed, ChosenCookies(p, parsed).result);
  }

  lemma OfferedCookiesAreDistinct(p: ForwardingPolicy, parsed: seq<Cookie>)
    requires ValidPolicy(p)
    ensures DistinctNames(CookieOffers(p, parsed))
  {
    var first := FirstValues(parsed);
    forall n | n in Unlisted(p, first) ensures n !in p.cookies {
      assert n in p.cookies <==> n in Elements(p.cookies);
    }
    DistinctAppend(p.cookies, Unlisted(p, first));
    DistinctCookieOffers(first, p.cookies + Unlisted(p, first));
  }

  lemma ScopedCookieIsOffered(p: ForwardingPolicy, parsed: seq<Cookie>, n: string) returns (i: nat)
    requires ValidPolicy(p) && CookieInScope(p, parsed, n)
    ensures i < |CookieOffers(p, parsed)| && CookieOffers(p, parsed)[i] == Offer(n, FirstValues(parsed)[n])
  {
    ScopeIsOffered(p, parsed);
    assert Offer(n, FirstValues(parsed)[n]) in CookieOffers(p, parsed);
    i :| 0 <= i < |CookieOffers(p, parsed)| && CookieOffers(p, parsed)[i] == Offer(n, FirstValues(parsed)[n]);
  }

  lemma OfferedCookieIsInScope(p: ForwardingPolicy, parsed: seq<Cookie>, i: nat)
    requires ValidPolicy(p) && i < |CookieOffers(p, parsed)|
    ensures var o := CookieOffers(p, parsed)[i];
            CookieInScope(p, parsed, o.key) && o.value == FirstValues(parsed)[o.key]
  {
    ScopeIsOffered(p, parsed);
    assert CookieOffers(p, parsed)[i] in CookieOffers(p, parsed);
  }

  /** The cookie is forwarded with the first value it came with. */
  ghost predicate ForwardedInFull(parsed: seq<Cookie>, result: map<string, string>, n: string) {
    n in FirstValues(parsed) && n in result && result[n] == FirstValues(parsed)[n]
  }

  /** All offers are taken in full exactly when all cookies in scope are. */
  lemma OffersInFull(p: ForwardingPolicy, parsed: seq<Cookie>, result: map<string, string>)
    requires ValidPolicy(p)
    ensures var offers := CookieOffers(p, parsed);
            (forall i :: 0 <= i < |offers| ==> InFull(result, offers[i])) <==>
            (forall n :: CookieInScope(p, parsed, n) ==> ForwardedInFull(parsed, result, n))
  {
    var offers := CookieOffers(p, parsed);
    if forall i :: 0 <= i < |offers| ==> InFull(result, offers[i]) {
      forall n | CookieInScope(p, parsed, n) ensures ForwardedInFull(parsed, result, n) {
        var i := ScopedCookieIsOffered(p, parsed, n);
        assert InFull(result, offers[i]);
      }
    }
    if forall n :: CookieInScope(p, parsed, n) ==> ForwardedInFull(parsed, result, n) {
      forall i | 0 <= i < |offers| ensures InFull(result, offers[i]) {
        OfferedCookieIsInScope(p, parsed, i);
        assert ForwardedInFull(parsed, result, offers[i].key);
      }
    }
  }
}

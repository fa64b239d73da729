/** The bounded greedy choice that header and cookie forwarding share
    (forwarding.go, lines 116-152 and 194-213). */
module Selection {
  import opened Text

  const MAXIMUM_VALUE_BYTES := 4096
  const MAXIMUM_NAME_BYTES := 128
  const MAXIMUM_ENTRIES := 128
  const MAXIMUM_BYTES := 65536

  datatype Offer = Offer(key: string, value: string)

  /** The accumulator of the loop. */
  datatype Chosen = Chosen(result: map<string, string>, total: nat, truncated: bool)

  predicate Clean(value: string) {
    forall i :: 0 <= i < |value| ==> value[i] !in "\0\r\n"
  }

  predicate Acceptable(o: Offer) {
    |o.key| <= MAXIMUM_NAME_BYTES && ValidHeaderName(o.key) && Clean(o.value)
  }

  function Shorten(value: string): string {
    if |value| > MAXIMUM_VALUE_BYTES then value[..MAXIMUM_VALUE_BYTES] else value
  }

  predicate Fits(c: Chosen, o: Offer) {
    && |c.result| < MAXIMUM_ENTRIES
    && c.total + |o.key| + |Shorten(o.value)| <= MAXIMUM_BYTES
  }

  /** One round of the loop. */
  function Take(c: Chosen, o: Offer): Chosen {
    if o.key in c.result then c
    else if !Acceptable(o) || !Fits(c, o) then c.(truncated := true)
    else Chosen(
      c.result[o.key := Shorten(o.value)],
      c.total + |o.key| + |Shorten(o.value)|,
      c.truncated || |o.value| > MAXIMUM_VALUE_BYTES)
  }

  ghost function TakeAll(c: Chosen, offers: seq<Offer>): Chosen {
    if offers == [] then c else Take(TakeAll(c, offers[..|offers| - 1]), offers[|offers| - 1])
  }

  ghost function Empty(truncated: bool): Chosen {
    Chosen(map[], 0, truncated)
  }

  lemma TakeOneMore(c: Chosen, offers: seq<Offer>, o: Offer)
    ensures TakeAll(c, offers + [o]) == Take(TakeAll(c, offers), o)
  {
    assert (offers + [o])[..|offers|] == offers;
  }

  lemma {:induction false} TakeInTwo(c: Chosen, a: seq<Offer>, b: seq<Offer>)
    ensures TakeAll(c, a + b) == TakeAll(TakeAll(c, a), b)
  {
    if b == [] {
      assert a + b == a;
    } else {
      var front := b[..|b| - 1];
      TakeInTwo(c, a, front);
      assert (a + b)[..|a + b| - 1] == a + front;
    }
  }

  // ---------------------------------------------------------------------
  // Bounds
  // ---------------------------------------------------------------------

  /** The bytes of names and values a map holds. */
  ghost function Bytes(m: map<string, string>): nat
    decreases |m|
  {
    if m == map[] then 0
    else
      var k :| k in m;
      |k| + |m[k]| + Bytes(m - {k})
  }

  lemma {:induction false} BytesWithout(m: map<string, string>, k: string)
    requires k in m
    ensures Bytes(m) == |k| + |m[k]| + Bytes(m - {k})
    decreases |m|
  {
    var j :| j in m && Bytes(m) == |j| + |m[j]| + Bytes(m - {j});
    if j != k {
      BytesWithout(m - {j}, k);
      BytesWithout(m - {k}, j);
      assert m - {j} - {k} == m - {k} - {j};
    }
  }

  lemma BytesWith(m: map<string, string>, k: string, v: string)
    requires k !in m
    ensures Bytes(m[k := v]) == Bytes(m) + |k| + |v|
  {
    BytesWithout(m[k := v], k);
    assert m[k := v] - {k} == m;
  }

  ghost predicate WithinBounds(c: Chosen) {
    && |c.result| <= 128 && c.total == Bytes(c.result) <= 65536
    && forall k :: k in c.result ==>
         && ValidHeaderName(k) && |k| <= 128 && |c.result[k]| <= 4096
         && '\0' !in c.result[k] && '\r' !in c.result[k] && '\n' !in c.result[k]
  }

  /** Whatever is offered, the choice keeps at most 128 entries and 64 KiB of names and
      values, with each name and value within its own bound. */
  lemma {:induction false} ChoiceIsBounded(offers: seq<Offer>, truncated: bool)
    ensures WithinBounds(TakeAll(Empty(truncated), offers))
  {
    if offers != [] {
      var front, o := offers[..|offers| - 1], offers[|offers| - 1];
      ChoiceIsBounded(front, truncated);
      var c := TakeAll(Empty(truncated), front);
      if o.key !in c.result {
        BytesWith(c.result, o.key, Shorten(o.value));
      }
    }
  }

  /** Names and values that are kept hold no NUL byte. */
  lemma ChoiceIsNulFree(offers: seq<Offer>, truncated: bool)
    ensures NulFreeMap(TakeAll(Empty(truncated), offers).result)
  {
    ChoiceIsBounded(offers, truncated);
    var m := TakeAll(Empty(truncated), offers).result;
    forall k | k in m ensures NulFree(k) && NulFree(m[k]) {
      TokensAreNulFree(k);
    }
  }

  /** Byte for byte the value, or exactly its first 4096 bytes. */
  ghost predicate Cut(kept: string, value: string) {
    kept <= value && |kept| == if |value| > 4096 then 4096 else |value|
  }

  /** What is kept under a name is what its first acceptable offer begins with, up to 4096
      bytes; earlier offers of that name were no good or did not fit. */
  lemma {:induction false} KeptIsOffered(offers: seq<Offer>, truncated: bool, k: string)
    requires k in TakeAll(Empty(truncated), offers).result
    ensures exists i :: 0 <= i < |offers| && offers[i].key == k
                        && Cut(TakeAll(Empty(truncated), offers).result[k], offers[i].value)
  {
    var front, o := offers[..|offers| - 1], offers[|offers| - 1];
    if k in TakeAll(Empty(truncated), front).result {
      KeptIsOffered(front, truncated, k);
      var i :| 0 <= i < |front| && front[i].key == k && Cut(TakeAll(Empty(truncated), front).result[k], front[i].value);
      assert offers[i] == front[i];
    } else {
      assert offers[|offers| - 1] == o;
    }
  }

  // ---------------------------------------------------------------------
  // Greedy maximality
  // ---------------------------------------------------------------------

  /** Later rounds only add. */
  ghost predicate Extends(c: Chosen, d: Chosen) {
    && c.total <= d.total && |c.result| <= |d.result|
    && (c.truncated ==> d.truncated)
    && forall k :: k in c.result ==> k in d.result && d.result[k] == c.result[k]
  }

  lemma {:induction false} TakingExtends(c: Chosen, offers: seq<Offer>)
    ensures Extends(c, TakeAll(c, offers))
  {
    if offers != [] {
      TakingExtends(c, offers[..|offers| - 1]);
    }
  }

  lemma SplitAt(c: Chosen, offers: seq<Offer>, i: nat)
    requires i < |offers|
    ensures TakeAll(c, offers) == TakeAll(Take(TakeAll(c, offers[..i]), offers[i]), offers[i + 1..])
  {
    assert offers == offers[..i + 1] + offers[i + 1..];
    TakeInTwo(c, offers[..i + 1], offers[i + 1..]);
    assert offers[..i + 1] == offers[..i] + [offers[i]];
    TakeOneMore(c, offers[..i], offers[i]);
  }

  /** No acceptable offer was dropped that would still fit the final choice. */
  lemma NothingDroppedStillFits(c: Chosen, offers: seq<Offer>, i: nat)
    requires i < |offers| && Acceptable(offers[i])
    ensures offers[i].key in TakeAll(c, offers).result || !Fits(TakeAll(c, offers), offers[i])
  {
    SplitAt(c, offers, i);
    var before := TakeAll(c, offers[..i]);
    TakingExtends(Take(before, offers[i]), offers[i + 1..]);
  }

  /** In numbers: a good name and value left out would be entry 129 or pass 65536 bytes. */
  lemma LeftOutDoesNotFit(offers: seq<Offer>, truncated: bool, o: Offer)
    requires o in offers && o.key !in TakeAll(Empty(truncated), offers).result
    requires |o.key| <= 128 && ValidHeaderName(o.key)
    requires '\0' !in o.value && '\r' !in o.value && '\n' !in o.value
    ensures var m := TakeAll(Empty(truncated), offers).result;
            |m| == 128 || Bytes(m) + |o.key| + (if |o.value| > 4096 then 4096 else |o.value|) > 65536
  {
    ChoiceIsBounded(offers, truncated);
    var i :| 0 <= i < |offers| && offers[i] == o;
    assert Clean(o.value);
    NothingDroppedStillFits(Empty(truncated), offers, i);
  }

  // ---------------------------------------------------------------------
  // The truncation flag
  // ---------------------------------------------------------------------

  /** Two offers share a key only if that key is no valid name. */
  ghost predicate DistinctNames(offers: seq<Offer>) {
    forall i, j :: 0 <= i < j < |offers| && offers[i].key == offers[j].key ==> !ValidHeaderName(offers[i].key)
  }

  ghost predicate InFull(result: map<string, string>, o: Offer) {
    o.key in result && result[o.key] == o.value
  }

  lemma {:induction false} KeysComeFromOffers(offers: seq<Offer>, truncated: bool)
    ensures forall k :: k in TakeAll(Empty(truncated), offers).result ==>
              ValidHeaderName(k) && exists i :: 0 <= i < |offers| && offers[i].key == k
  {
    if offers != [] {
      var front := offers[..|offers| - 1];
      KeysComeFromOffers(front, truncated);
      forall k | k in TakeAll(Empty(truncated), offers).result
        ensures ValidHeaderName(k) && exists i :: 0 <= i < |offers| && offers[i].key == k
      {
        if k in TakeAll(Empty(truncated), front).result {
          var i :| 0 <= i < |front| && front[i].key == k;
          assert offers[i].key == k;
        } else {
          assert offers[|offers| - 1].key == k;
        }
      }
    }
  }

  /** The flag is exact: it stays down exactly when every offer is chosen in full. */
  lemma {:induction false} FlagIsExact(offers: seq<Offer>, truncated: bool)
    requires DistinctNames(offers)
    ensures !TakeAll(Empty(truncated), offers).truncated <==>
              !truncated
              && forall i :: 0 <= i < |offers| ==> InFull(TakeAll(Empty(truncated), offers).result, offers[i])
  {
    if offers != [] {
      var front, o := offers[..|offers| - 1], offers[|offers| - 1];
      FlagIsExact(front, truncated);
      KeysComeFromOffers(front, truncated);
      var c, d := TakeAll(Empty(truncated), front), TakeAll(Empty(truncated), offers);
      assert o.key in c.result ==> !ValidHeaderName(o.key);
      assert o.key !in c.result;
      forall i | 0 <= i < |front| ensures InFull(d.result, offers[i]) <==> InFull(c.result, front[i]) {
        if offers[i].key == o.key {
          assert !ValidHeaderName(o.key);
        }
      }
      if forall i :: 0 <= i < |offers| ==> InFull(d.result, offers[i]) {
        assert forall i :: 0 <= i < |front| ==> InFull(d.result, offers[i]);
        assert InFull(d.result, offers[|front|]);
      }
    }
  }

  // ---------------------------------------------------------------------
  // More offers at the end
  // ---------------------------------------------------------------------

  lemma {:induction false} ForeignOffersStayOut(c: Chosen, offers: seq<Offer>, keys: set<string>)
    requires forall i :: 0 <= i < |offers| ==> offers[i].key !in keys
    ensures forall k :: k in keys && k in TakeAll(c, offers).result ==> k in c.result
  {
    if offers != [] {
      ForeignOffersStayOut(c, offers[..|offers| - 1], keys);
    }
  }

  /** Offers under other keys, coming later, change nothing of what was chosen first. */
  lemma LaterOffersDoNotDisturb(first: seq<Offer>, later: seq<Offer>, truncated: bool, keys: set<string>)
    requires forall i :: 0 <= i < |first| ==> first[i].key in keys
    requires forall i :: 0 <= i < |later| ==> later[i].key !in keys
    ensures var a, b := TakeAll(Empty(truncated), first), TakeAll(Empty(truncated), first + later);
            && (map k | k in b.result && k in keys :: b.result[k]) == a.result
            && (a.truncated ==> b.truncated)
  {
    TakeInTwo(Empty(truncated), first, later);
    var a := TakeAll(Empty(truncated), first);
    TakingExtends(a, later);
    ForeignOffersStayOut(a, later, keys);
    KeysComeFromOffers(first, truncated);
  }
}

/** The request fingerprint and the composite cache key (cache.go, lines 132-191). */
module CacheKey {
  import opened Text
  import opened Agent

  // ---------------------------------------------------------------------
  // NUL-terminated parts
  // ---------------------------------------------------------------------

  /** What a run of writeHashPart calls feeds the hash. */
  ghost function Encode(parts: seq<string>): string {
    if parts == [] then "" else parts[0] + [NUL] + Encode(parts[1..])
  }

  lemma {:induction false} EncodeAppends(a: seq<string>, b: seq<string>)
    ensures Encode(a + b) == Encode(a) + Encode(b)
  {
    if a == [] {
      assert a + b == b;
    } else {
      EncodeAppends(a[1..], b);
      assert (a + b)[1..] == a[1..] + b;
    }
  }

  ghost predicate AllNulFree(parts: seq<string>) {
    forall i :: 0 <= i < |parts| ==> NulFree(parts[i])
  }

  /** The first separator ends the first part, whatever follows. */
  lemma FirstPartIsDetermined(p: string, q: string, restP: string, restQ: string)
    requires NulFree(p) && NulFree(q)
    requires p + [NUL] + restP == q + [NUL] + restQ
    ensures p == q && restP == restQ
  {
    var s := p + [NUL] + restP;
    var t := q + [NUL] + restQ;
    assert forall i :: 0 <= i < |p| ==> s[i] == p[i];
    assert forall i :: 0 <= i < |q| ==> t[i] == q[i];
    assert s[|p|] == NUL && t[|q|] == NUL;
    assert |p| == |q|;
    assert p == s[..|p|] && q == t[..|q|];
    assert restP == s[|p| + 1..] && restQ == t[|q| + 1..];
  }

  /** NUL-free parts can be read back from the byte stream. */
  lemma {:induction false} EncodeIsInjective(a: seq<string>, b: seq<string>)
    requires AllNulFree(a) && AllNulFree(b)
    requires Encode(a) == Encode(b)
    ensures a == b
  {
    if a != [] && b != [] {
      FirstPartIsDetermined(a[0], b[0], Encode(a[1..]), Encode(b[1..]));
      EncodeIsInjective(a[1..], b[1..]);
      assert a == [a[0]] + a[1..] && b == [b[0]] + b[1..];
    }
  }

  // ---------------------------------------------------------------------
  // The fingerprint pre-image
  // ---------------------------------------------------------------------

  function FixedParts(q: EvaluationRequest): seq<string> {
    [q.clientIP, q.method_, q.scheme, q.host, q.path, q.query, q.protocolType, q.httpVersion, q.resourceHint]
  }

  function Flag(set_: bool, name: string): seq<string> {
    if set_ then [name] else []
  }

  function FlagParts(q: EvaluationRequest): seq<string> {
    Flag(q.bodyTruncated, "body-truncated")
    + Flag(q.headersTruncated, "headers-truncated")
    + Flag(q.cookiesTruncated, "cookies-truncated")
  }

  /** Names and values in the order of the given keys, names folded. */
  ghost function PairParts(keys: seq<string>, m: map<string, string>): seq<string>
    requires forall k :: k in keys ==> k in m
  {
    if keys == [] then [] else [Lower(keys[0]), m[keys[0]]] + PairParts(keys[1..], m)
  }

  ghost function MapParts(m: map<string, string>): seq<string> {
    PairParts(KeysOf(m), m)
  }

  ghost function KeysOf(m: map<string, string>): (keys: seq<string>)
    ensures StrictlySorted(keys) && Elements(keys) == m.Keys && |keys| == |m|
    ensures forall k :: k in keys ==> k in m
  {
    var keys := SortedKeys(m.Keys);
    assert forall k :: k in keys ==> k in Elements(keys);
    keys
  }

  ghost function BodyParts(q: EvaluationRequest, digest: string -> string): seq<string> {
    if q.body == "" then [] else [digest(q.body)]
  }

  ghost function FrontParts(q: EvaluationRequest): seq<string> {
    FixedParts(q) + FlagParts(q)
  }

  ghost function MetadataParts(q: EvaluationRequest): seq<string> {
    MapParts(q.headers) + MapParts(q.cookies)
  }

  /** What evaluationCacheKey writes, in order. */
  ghost function RequestParts(q: EvaluationRequest, digest: string -> string): seq<string> {
    FrontParts(q) + (MetadataParts(q) + BodyParts(q, digest))
  }

  /** An ideal hash in hexadecimal: collision free, never empty, without NUL. */
  ghost predicate IdealDigest(digest: string -> string) {
    && (forall x, y :: digest(x) == digest(y) ==> x == y)
    && (forall x :: NulFree(digest(x)) && digest(x) != "")
  }

  /** Two characters for one: no character maps to NUL. */
  function Escaped(s: string): string {
    if s == "" then "x" else [if s[0] == NUL then '0' else '1', if s[0] == NUL then '0' else s[0]] + Escaped(s[1..])
  }

  lemma {:induction false} EscapedIsInjective(s: string, t: string)
    requires Escaped(s) == Escaped(t)
    ensures s == t
  {
    EscapedShape(s);
    EscapedShape(t);
    if s != "" {
      var p, q := Escaped(s), Escaped(t);
      assert p[0] == q[0] && p[1] == q[1];
      assert p[2..] == Escaped(s[1..]) && q[2..] == Escaped(t[1..]);
      EscapedIsInjective(s[1..], t[1..]);
      assert s == [s[0]] + s[1..] && t == [t[0]] + t[1..];
    }
  }

  lemma {:induction false} EscapedShape(s: string)
    ensures NulFree(Escaped(s)) && |Escaped(s)| == 2 * |s| + 1
  {
    if s != "" {
      EscapedShape(s[1..]);
    }
  }

  /** Ideal digests exist. */
  lemma SomeDigestIsIdeal()
    ensures IdealDigest(Escaped)
  {
    forall x, y | Escaped(x) == Escaped(y) ensures x == y {
      EscapedIsInjective(x, y);
    }
    forall x ensures NulFree(Escaped(x)) && Escaped(x) != "" {
      EscapedShape(x);
    }
  }

  ghost function Preimage(q: EvaluationRequest, digest: string -> string): string {
    Encode(RequestParts(q, digest))
  }

  ghost function Fingerprint(q: EvaluationRequest, digest: string -> string): string {
    digest(Preimage(q, digest))
  }

  /** writeStringMap: whatever order the map hands out its keys in, the bytes
      written are those of the sorted pairs. */
  method WriteStringMap(values: map<string, string>, written: string) returns (out: string)
    ensures out == written + Encode(MapParts(values))
  {
    var keys := CollectKeys(values);
    var sorted := Sort(keys, k => k);
    SortedIsKeysOf(keys, sorted, values);
    out := WritePairs(sorted, values, written);
  }

  /** The writing loop of writeStringMap. */
  method WritePairs(keys: seq<string>, values: map<string, string>, written: string) returns (out: string)
    requires forall k :: k in keys ==> k in values
    ensures out == written + Encode(PairParts(keys, values))
  {
    out := written;
    var i := 0;
    while i < |keys|
      invariant 0 <= i <= |keys|
      invariant out == written + Encode(PairParts(keys[..i], values))
    {
      WritePairStep(written, out, keys[..i], keys[i], values);
      PrefixGrows(keys, i);
      out := WriteHashPart(out, Lower(keys[i]));
      out := WriteHashPart(out, values[keys[i]]);
      i := i + 1;
    }
    assert keys[..|keys|] == keys;
  }

  /** The keys of a map in whatever order iteration yields them. */
  method CollectKeys<V>(values: map<string, V>) returns (keys: seq<string>)
    ensures Elements(keys) == values.Keys && Distinct(keys)
  {
    keys := [];
    var left := values.Keys;
    while left != {}
      invariant left <= values.Keys
      invariant Elements(keys) == values.Keys - left
      invariant Distinct(keys)
    {
      var key :| key in left;
      assert key !in Elements(keys);
      assert Elements(keys + [key]) == Elements(keys) + {key};
      left := left - {key};
      keys := keys + [key];
    }
  }

  /** writeHashPart over an accumulator. */
  function WriteHashPart(written: string, value: string): string {
    written + value + [NUL]
  }

  lemma EncodeOne(a: seq<string>, p: string)
    ensures Encode(a + [p]) == WriteHashPart(Encode(a), p)
  {
    EncodeAppends(a, [p]);
    assert [p][1..] == [];
    assert Encode([p]) == p + [NUL];
  }

  lemma WritePairStep(written: string, out: string, keys: seq<string>, key: string, m: map<string, string>)
    requires key in m && forall k :: k in keys ==> k in m
    requires out == written + Encode(PairParts(keys, m))
    ensures WriteHashPart(WriteHashPart(out, Lower(key)), m[key]) == written + Encode(PairParts(keys + [key], m))
  {
    var before := PairParts(keys, m);
    PairPartsAppends(keys, key, m);
    EncodeOne(before, Lower(key));
    EncodeOne(before + [Lower(key)], m[key]);
    assert before + [Lower(key), m[key]] == before + [Lower(key)] + [m[key]];
    WriteAfter(written, Encode(before), Lower(key));
    WriteAfter(written, WriteHashPart(Encode(before), Lower(key)), m[key]);
  }

  lemma WriteAfter(written: string, more: string, value: string)
    ensures WriteHashPart(written + more, value) == written + WriteHashPart(more, value)
  {
    assert written + more + value + [NUL] == written + (more + value + [NUL]);
  }

  lemma {:induction false} PairPartsAppends(keys: seq<string>, k: string, m: map<string, string>)
    requires forall x :: x in keys ==> x in m
    requires k in m
    ensures PairParts(keys + [k], m) == PairParts(keys, m) + [Lower(k), m[k]]
  {
    if keys == [] {
      assert keys + [k] == [k] && [k][1..] == [];
    } else {
      PairPartsAppends(keys[1..], k, m);
      assert (keys + [k])[1..] == keys[1..] + [k];
    }
  }

  lemma SortedIsKeysOf(keys: seq<string>, sorted: seq<string>, m: map<string, string>)
    requires multiset(sorted) == multiset(keys) && SortedBy(sorted, k => k)
    requires Elements(keys) == m.Keys && Distinct(keys)
    ensures sorted == KeysOf(m)
    ensures forall k :: k in sorted ==> k in m
  {
    PermutationKeepsElements(keys, sorted);
    DistinctSortIsStrict(sorted, k => k);
    assert StrictlySorted(sorted);
    SortedListsAreUnique(sorted, KeysOf(m));
  }

  /** evaluationCacheKey: the imperative key writer computes the fingerprint. */
  method EvaluationCacheKey(q: EvaluationRequest, digest: string -> string) returns (key: string)
    ensures key == Fingerprint(q, digest)
  {
    var out := WriteParts("", FixedParts(q));
    assert out == Encode(FixedParts(q));
    out := WriteParts(out, FlagParts(q));
    out := WriteStringMap(q.headers, out);
    out := WriteStringMap(q.cookies, out);
    out := WriteBody(q.body, digest, out);
    EncodeRequest(q, digest);
    key := digest(out);
  }

  method WriteBody(body: string, digest: string -> string, written: string) returns (out: string)
    ensures out == written + Encode(if body == "" then [] else [digest(body)])
  {
    if |body| != 0 {
      out := WriteParts(written, [digest(body)]);
    } else {
      out := written;
      assert written + Encode([]) == written;
    }
  }

  lemma EncodeRequest(q: EvaluationRequest, digest: string -> string)
    ensures Preimage(q, digest) ==
            Encode(FixedParts(q)) + Encode(FlagParts(q)) + Encode(MapParts(q.headers))
            + Encode(MapParts(q.cookies)) + Encode(BodyParts(q, digest))
  {
    EncodeAppends(FixedParts(q), FlagParts(q));
    EncodeAppends(MapParts(q.headers), MapParts(q.cookies));
    EncodeAppends(MetadataParts(q), BodyParts(q, digest));
    EncodeAppends(FrontParts(q), MetadataParts(q) + BodyParts(q, digest));
    Regroup(Encode(FixedParts(q)), Encode(FlagParts(q)), Encode(MapParts(q.headers)),
            Encode(MapParts(q.cookies)), Encode(BodyParts(q, digest)));
  }

  lemma Regroup(a: string, b: string, c: string, d: string, e: string)
    ensures (a + b) + ((c + d) + e) == a + b + c + d + e
  {}

  method WriteParts(written: string, parts: seq<string>) returns (out: string)
    ensures out == written + Encode(parts)
  {
    out := written;
    for i := 0 to |parts|
      invariant out == written + Encode(parts[..i])
    {
      EncodeOne(parts[..i], parts[i]);
      PrefixGrows(parts, i);
      out := WriteHashPart(out, parts[i]);
    }
    assert parts[..|parts|] == parts;
  }

  // ---------------------------------------------------------------------
  // What equal fingerprints tell
  // ---------------------------------------------------------------------

  /** The fields that enter the key hold no NUL byte (bodies are hashed first). */
  ghost predicate NulFreeRequest(q: EvaluationRequest) {
    && AllNulFree(FixedParts(q)) && NulFreeMap(q.headers) && NulFreeMap(q.cookies)
  }

  lemma {:induction false} PairPartsShape(keys: seq<string>, m: map<string, string>)
    requires forall k :: k in keys ==> k in m
    ensures |PairParts(keys, m)| == 2 * |keys|
    ensures NulFreeMap(m) ==> AllNulFree(PairParts(keys, m))
  {
    if keys != [] {
      PairPartsShape(keys[1..], m);
      if NulFreeMap(m) {
        LowerKeepsNulFree(keys[0]);
        assert AllNulFree([Lower(keys[0]), m[keys[0]]]);
      }
    }
  }

  lemma {:induction false} PairPartsAreInjective(
    a: seq<string>, m: map<string, string>, b: seq<string>, n: map<string, string>)
    requires (forall k :: k in a ==> k in m && Lower(k) == k) && (forall k :: k in b ==> k in n && Lower(k) == k)
    requires PairParts(a, m) == PairParts(b, n)
    ensures a == b
  {
    PairPartsShape(a, m);
    PairPartsShape(b, n);
    if a != [] {
      var p, q := PairParts(a, m), PairParts(b, n);
      assert p[0] == Lower(a[0]) && q[0] == Lower(b[0]);
      assert p[2..] == PairParts(a[1..], m) && q[2..] == PairParts(b[1..], n);
      PairPartsAreInjective(a[1..], m, b[1..], n);
      assert a == [a[0]] + a[1..] && b == [b[0]] + b[1..];
    }
  }

  /** Maps with folded keys can be read back from their parts. */
  lemma MapPartsAreInjective(m: map<string, string>, n: map<string, string>)
    requires MapParts(m) == MapParts(n) && LowerCaseKeys(m) && LowerCaseKeys(n)
    ensures m == n
  {
    PairPartsAreInjective(KeysOf(m), m, KeysOf(n), n);
    assert m.Keys == Elements(KeysOf(m)) == n.Keys;
    SameNamesSameMap(m, n);
  }

  lemma RequestPartsAreNulFree(q: EvaluationRequest, digest: string -> string)
    requires NulFreeRequest(q) && IdealDigest(digest)
    ensures AllNulFree(RequestParts(q, digest))
  {
    PairPartsShape(KeysOf(q.headers), q.headers);
    PairPartsShape(KeysOf(q.cookies), q.cookies);
    FlagPartsAreNulFree(q);
    BodyPartsAreNulFree(q, digest);
    NulFreeAppend(FixedParts(q), FlagParts(q));
    NulFreeAppend(MapParts(q.headers), MapParts(q.cookies));
    NulFreeAppend(MetadataParts(q), BodyParts(q, digest));
    NulFreeAppend(FrontParts(q), MetadataParts(q) + BodyParts(q, digest));
  }

  lemma NulFreeAppend(a: seq<string>, b: seq<string>)
    requires AllNulFree(a) && AllNulFree(b)
    ensures AllNulFree(a + b)
  {}

  lemma BodyPartsAreNulFree(q: EvaluationRequest, digest: string -> string)
    requires IdealDigest(digest)
    ensures AllNulFree(BodyParts(q, digest))
  {}

  lemma FlagPartsAreNulFree(q: EvaluationRequest)
    ensures AllNulFree(FlagParts(q))
  {
    assert NulFree("body-truncated") && NulFree("headers-truncated") && NulFree("cookies-truncated");
  }

  /** Requests share a key exactly when they write the same parts. */
  lemma SameFingerprintMeansSameParts(a: EvaluationRequest, b: EvaluationRequest, digest: string -> string)
    requires IdealDigest(digest) && NulFreeRequest(a) && NulFreeRequest(b)
    ensures Fingerprint(a, digest) == Fingerprint(b, digest) <==> RequestParts(a, digest) == RequestParts(b, digest)
  {
    if Fingerprint(a, digest) == Fingerprint(b, digest) {
      RequestPartsAreNulFree(a, digest);
      RequestPartsAreNulFree(b, digest);
      EncodeIsInjective(RequestParts(a, digest), RequestParts(b, digest));
    }
  }

  /** The nine fixed fields are always bound by the fingerprint. */
  lemma FingerprintBindsFixedFields(a: EvaluationRequest, b: EvaluationRequest, digest: string -> string)
    requires IdealDigest(digest) && NulFreeRequest(a) && NulFreeRequest(b)
    requires Fingerprint(a, digest) == Fingerprint(b, digest)
    ensures FixedParts(a) == FixedParts(b)
    ensures RequestParts(a, digest) == RequestParts(b, digest)
  {
    SameFingerprintMeansSameParts(a, b, digest);
    FixedPartsLead(a, digest);
    FixedPartsLead(b, digest);
  }

  lemma FixedPartsLead(q: EvaluationRequest, digest: string -> string)
    ensures |RequestParts(q, digest)| >= 9 && RequestParts(q, digest)[..9] == FixedParts(q)
  {
    TakeFirst(FixedParts(q), FlagParts(q), MetadataParts(q) + BodyParts(q, digest));
  }

  lemma TakeFirst(a: seq<string>, b: seq<string>, c: seq<string>)
    ensures (a + b + c)[..|a|] == a
  {}

  /** The same request, but for its ID. */
  ghost predicate SameRequest(a: EvaluationRequest, b: EvaluationRequest) {
    a.(requestID := b.requestID) == b
  }

  /** The two requests carry the same flags and the same names. */
  ghost predicate SameFlagsAndNames(a: EvaluationRequest, b: EvaluationRequest) {
    && FlagParts(a) == FlagParts(b)
    && a.headers.Keys == b.headers.Keys && a.cookies.Keys == b.cookies.Keys
  }

  /** The fields the Agent is sent and the key leaves out: how the client address was found,
      and what the forwarding configuration says. */
  ghost predicate SameContext(a: EvaluationRequest, b: EvaluationRequest) {
    && a.clientIPSource == b.clientIPSource
    && a.headerMode == b.headerMode && a.cookieMode == b.cookieMode
    && a.allowlistedHeaders == b.allowlistedHeaders && a.allowlistedCookies == b.allowlistedCookies
  }

  /** How much a key binds, exactly: two requests that share it are the same request if
      and only if they carry the same flags, the same header and cookie names, and the same
      fields the key leaves out. */
  lemma FingerprintBindsWholeRequest(a: EvaluationRequest, b: EvaluationRequest, digest: string -> string)
    requires IdealDigest(digest) && NulFreeRequest(a) && NulFreeRequest(b)
    ensures SameRequest(a, b) <==>
            Fingerprint(a, digest) == Fingerprint(b, digest) && SameFlagsAndNames(a, b) && SameContext(a, b)
  {
    FlagsAreBound(a, b);
    if SameRequest(a, b) {
      SamePartsSameFingerprint(a, b, digest);
    }
    if Fingerprint(a, digest) == Fingerprint(b, digest) && SameFlagsAndNames(a, b) {
      FingerprintBindsFixedFields(a, b, digest);
      SizesOfEqualKeys(a.headers, b.headers);
      SizesOfEqualKeys(a.cookies, b.cookies);
      EqualPartsSplit(a, b, digest);
      SameNamesSameMap(a.headers, b.headers);
      SameNamesSameMap(a.cookies, b.cookies);
      FieldsMakeTheRequest(a, b);
    }
  }

  lemma FieldsMakeTheRequest(a: EvaluationRequest, b: EvaluationRequest)
    requires FixedParts(a) == FixedParts(b) && FlagParts(a) == FlagParts(b)
    requires a.headers == b.headers && a.cookies == b.cookies && a.body == b.body
    ensures SameRequest(a, b) <==> SameContext(a, b)
  {
    FlagsAreBound(a, b);
    FieldsOf(a);
    FieldsOf(b);
  }

  lemma FieldsOf(a: EvaluationRequest)
    ensures var p := FixedParts(a);
            && |p| == 9 && p[0] == a.clientIP && p[1] == a.method_ && p[2] == a.scheme && p[3] == a.host
            && p[4] == a.path && p[5] == a.query && p[6] == a.protocolType && p[7] == a.httpVersion
            && p[8] == a.resourceHint
  {}

  /** The fields left out make a difference for every request: change where its address
      came from, or any of the others, and the key, the flags and the names stay. */
  lemma ContextIsNotBound(q: EvaluationRequest, source: string, headerMode: string, cookieMode: string,
                          headers: seq<string>, cookies: seq<string>, digest: string -> string)
    ensures var r := q.(clientIPSource := source, headerMode := headerMode, cookieMode := cookieMode,
                        allowlistedHeaders := headers, allowlistedCookies := cookies);
            && Fingerprint(r, digest) == Fingerprint(q, digest) && SameFlagsAndNames(r, q)
            && (NulFreeRequest(q) <==> NulFreeRequest(r))
            && (SameRequest(r, q) <==> SameContext(r, q))
  {
    var r := q.(clientIPSource := source, headerMode := headerMode, cookieMode := cookieMode,
                allowlistedHeaders := headers, allowlistedCookies := cookies);
    assert FixedParts(r) == FixedParts(q);
    SamePartsSameFingerprint(r, q, digest);
  }

  lemma SizesOfEqualKeys(m: map<string, string>, n: map<string, string>)
    requires m.Keys == n.Keys
    ensures |m| == |n|
  {
    assert |m| == |m.Keys| && |n| == |n.Keys|;
  }

  /** With equal flags and equally many headers the parts come apart piece by piece. */
  lemma EqualPartsSplit(a: EvaluationRequest, b: EvaluationRequest, digest: string -> string)
    requires IdealDigest(digest)
    requires FixedParts(a) == FixedParts(b) && FlagParts(a) == FlagParts(b) && |a.headers| == |b.headers|
    requires RequestParts(a, digest) == RequestParts(b, digest)
    ensures MapParts(a.headers) == MapParts(b.headers) && MapParts(a.cookies) == MapParts(b.cookies)
    ensures a.body == b.body
  {
    MetadataSize(a);
    MetadataSize(b);
    SplitEqual(FrontParts(a), MetadataParts(a) + BodyParts(a, digest),
               FrontParts(b), MetadataParts(b) + BodyParts(b, digest));
    assert |a.cookies| == |b.cookies|;
    SplitEqual(MetadataParts(a), BodyParts(a, digest), MetadataParts(b), BodyParts(b, digest));
    SplitEqual(MapParts(a.headers), MapParts(a.cookies), MapParts(b.headers), MapParts(b.cookies));
    BodyPartsAreInjective(a, b, digest);
  }

  /** Equal names come in the same order, so equal parts give equal values. */
  lemma SameNamesSameMap(m: map<string, string>, n: map<string, string>)
    requires m.Keys == n.Keys && MapParts(m) == MapParts(n)
    ensures m == n
  {
    SortedListsAreUnique(KeysOf(m), KeysOf(n));
    SameKeysSameValues(KeysOf(m), m, n);
    forall k | k in m ensures m[k] == n[k] {
      assert k in Elements(KeysOf(m));
    }
  }

  lemma {:induction false} SameKeysSameValues(keys: seq<string>, m: map<string, string>, n: map<string, string>)
    requires forall k :: k in keys ==> k in m && k in n
    requires PairParts(keys, m) == PairParts(keys, n)
    ensures forall k :: k in keys ==> m[k] == n[k]
  {
    if keys != [] {
      var p, q := PairParts(keys, m), PairParts(keys, n);
      assert p[1] == m[keys[0]] && q[1] == n[keys[0]];
      assert p[2..] == PairParts(keys[1..], m) && q[2..] == PairParts(keys[1..], n);
      SameKeysSameValues(keys[1..], m, n);
    }
  }

  /** Where all names are folded, counting the headers is enough: then the names are
      bound too. */
  lemma FoldedNamesAreBound(a: EvaluationRequest, b: EvaluationRequest, digest: string -> string)
    requires IdealDigest(digest) && NulFreeRequest(a) && NulFreeRequest(b)
    requires LowerCaseKeys(a.headers) && LowerCaseKeys(a.cookies)
    requires LowerCaseKeys(b.headers) && LowerCaseKeys(b.cookies)
    requires FlagParts(a) == FlagParts(b) && |a.headers| == |b.headers|
    ensures Fingerprint(a, digest) == Fingerprint(b, digest) && SameContext(a, b) <==> SameRequest(a, b)
  {
    if Fingerprint(a, digest) == Fingerprint(b, digest) {
      FingerprintBindsFixedFields(a, b, digest);
      EqualPartsSplit(a, b, digest);
      MapPartsAreInjective(a.headers, b.headers);
      MapPartsAreInjective(a.cookies, b.cookies);
    }
    FingerprintBindsWholeRequest(a, b, digest);
  }

  /** Pairs come in twos, so the parity of the rest tells whether a body hash follows. */
  lemma MetadataSize(q: EvaluationRequest)
    ensures |MapParts(q.headers)| == 2 * |q.headers| && |MapParts(q.cookies)| == 2 * |q.cookies|
  {
    PairPartsShape(KeysOf(q.headers), q.headers);
    PairPartsShape(KeysOf(q.cookies), q.cookies);
  }

  lemma BodyPartsAreInjective(a: EvaluationRequest, b: EvaluationRequest, digest: string -> string)
    requires IdealDigest(digest) && BodyParts(a, digest) == BodyParts(b, digest)
    ensures a.body == b.body
  {
    assert a.body != "" && b.body != "" ==> BodyParts(a, digest)[0] == BodyParts(b, digest)[0];
  }

  lemma SplitEqual(a: seq<string>, b: seq<string>, c: seq<string>, d: seq<string>)
    requires a + b == c + d && |a| == |c|
    ensures a == c && b == d
  {
    assert a == (a + b)[..|a|] && c == (c + d)[..|c|];
    assert b == (a + b)[|a|..] && d == (c + d)[|c|..];
  }

  lemma FlagsAreBound(a: EvaluationRequest, b: EvaluationRequest)
    ensures FlagParts(a) == FlagParts(b) <==>
              a.bodyTruncated == b.bodyTruncated && a.headersTruncated == b.headersTruncated
              && a.cookiesTruncated == b.cookiesTruncated
  {
    assert "body-truncated"[0] == 'b' && "headers-truncated"[0] == 'h' && "cookies-truncated"[0] == 'c';
    var p, q := FlagParts(a), FlagParts(b);
    if p == q {
      assert a.bodyTruncated ==> p[0] == "body-truncated";
      assert b.bodyTruncated ==> q[0] == "body-truncated";
      assert a.cookiesTruncated ==> p[|p| - 1] == "cookies-truncated";
      assert b.cookiesTruncated ==> q[|q| - 1] == "cookies-truncated";
      assert !a.bodyTruncated && a.headersTruncated ==> p[0] == "headers-truncated";
      assert !b.bodyTruncated && b.headersTruncated ==> q[0] == "headers-truncated";
    }
  }

  /** A header and a cookie can trade places: the key has no mark between the two
      maps, so the count of headers really has to agree. */
  lemma HeaderAndCookieCanTradePlaces(q: EvaluationRequest, name: string, value: string, digest: string -> string)
    requires q.cookies == map[name := value] && q.headers == map[]
    ensures Fingerprint(q, digest) == Fingerprint(q.(headers := q.cookies, cookies := q.headers), digest)
  {
    var r := q.(headers := q.cookies, cookies := q.headers);
    assert MapParts(map[]) == [];
    assert MetadataParts(q) == MapParts(q.cookies) == MetadataParts(r);
    SamePartsSameFingerprint(q, r, digest);
  }

  lemma SamePartsSameFingerprint(a: EvaluationRequest, b: EvaluationRequest, digest: string -> string)
    requires FrontParts(a) == FrontParts(b) && MetadataParts(a) == MetadataParts(b) && a.body == b.body
    ensures Fingerprint(a, digest) == Fingerprint(b, digest)
  {}

  /** Cookie names are folded, so a cookie and the same cookie in other case collide;
      "A" and "a" are such names. */
  lemma CookieCaseIsLost(q: EvaluationRequest, name: string, other: string, value: string, digest: string -> string)
    requires q.cookies == map[name := value] && Lower(name) == Lower(other)
    ensures Fingerprint(q, digest) == Fingerprint(q.(cookies := map[other := value]), digest)
    ensures "A" != "a" && Lower("A") == Lower("a")
  {
    SingletonParts(name, value);
    SingletonParts(other, value);
    SamePartsSameFingerprint(q, q.(cookies := map[other := value]), digest);
  }

  lemma SingletonParts(k: string, v: string)
    ensures MapParts(map[k := v]) == [Lower(k), v]
  {
    var m := map[k := v];
    var keys := KeysOf(m);
    assert |keys| == 1;
    assert keys[0] in Elements(keys);
    assert keys == [k];
    assert PairParts(keys[1..], m) == [];
  }

  // ---------------------------------------------------------------------
  // The composite key
  // ---------------------------------------------------------------------

  function CompositeTail(q: EvaluationRequest, r: EvaluationResponse): seq<string> {
    [q.clientIP, r.resourceID, r.decisionScope, Decimal(r.policyRevision), r.cacheKey]
  }

  ghost function CompositeKey(q: EvaluationRequest, r: EvaluationResponse, digest: string -> string): string {
    digest(Encode([Fingerprint(q, digest)] + CompositeTail(q, r)))
  }

  method CacheCompositeKey(q: EvaluationRequest, r: EvaluationResponse, digest: string -> string)
    returns (key: string)
    ensures key == CompositeKey(q, r, digest)
  {
    var fingerprint := EvaluationCacheKey(q, digest);
    var out := WriteParts("", [fingerprint] + CompositeTail(q, r));
    assert out == Encode([fingerprint] + CompositeTail(q, r));
    key := digest(out);
  }

  /** A composite key binds all it is made of: the fingerprint, the client, the resource,
      the scope, the revision and the Agent's key. */
  lemma CompositeBindsItsParts(q: EvaluationRequest, r: EvaluationResponse, q': EvaluationRequest,
                               r': EvaluationResponse, digest: string -> string)
    requires IdealDigest(digest) && CompositeKey(q, r, digest) == CompositeKey(q', r', digest)
    requires NulFree(q.clientIP) && NulFree(r.resourceID) && NulFree(r.decisionScope) && NulFree(r.cacheKey)
    requires NulFree(q'.clientIP) && NulFree(r'.resourceID) && NulFree(r'.decisionScope) && NulFree(r'.cacheKey)
    ensures Fingerprint(q, digest) == Fingerprint(q', digest) && q.clientIP == q'.clientIP
    ensures r.resourceID == r'.resourceID && r.decisionScope == r'.decisionScope
    ensures r.policyRevision == r'.policyRevision && r.cacheKey == r'.cacheKey
  {
    var f, f' := Fingerprint(q, digest), Fingerprint(q', digest);
    CompositePartsAreNulFree(q, r, f);
    CompositePartsAreNulFree(q', r', f');
    EncodeIsInjective([f] + CompositeTail(q, r), [f'] + CompositeTail(q', r'));
    SixParts(f, CompositeTail(q, r), f', CompositeTail(q', r'));
    DecimalReadsBack(r.policyRevision);
    DecimalReadsBack(r'.policyRevision);
  }

  lemma CompositePartsAreNulFree(q: EvaluationRequest, r: EvaluationResponse, f: string)
    requires NulFree(f) && NulFree(q.clientIP) && NulFree(r.resourceID) && NulFree(r.decisionScope)
    requires NulFree(r.cacheKey)
    ensures AllNulFree([f] + CompositeTail(q, r))
  {
    DecimalIsNulFree(r.policyRevision);
  }

  lemma SixParts(f: string, t: seq<string>, f': string, t': seq<string>)
    requires |t| == |t'| == 5 && [f] + t == [f'] + t'
    ensures f == f' && t[0] == t'[0] && t[1] == t'[1] && t[2] == t'[2] && t[3] == t'[3] && t[4] == t'[4]
  {
    assert ([f] + t)[0] == f && ([f'] + t')[0] == f';
    assert ([f] + t)[1..] == t && ([f'] + t')[1..] == t';
  }

  /** Some composite key built on this fingerprint. */
  ghost predicate Binds(digest: string -> string, key: string, fingerprint: string) {
    && NulFree(fingerprint)
    && exists tail: seq<string> :: key == digest(Encode([fingerprint] + tail))
  }

  lemma CompositeKeyBinds(q: EvaluationRequest, r: EvaluationResponse, digest: string -> string)
    requires IdealDigest(digest)
    ensures Binds(digest, CompositeKey(q, r, digest), Fingerprint(q, digest))
    ensures CompositeKey(q, r, digest) != ""
  {}

  /** A composite key determines its fingerprint. */
  lemma CompositeDeterminesFingerprint(digest: string -> string, key: string, f: string, g: string)
    requires IdealDigest(digest) && Binds(digest, key, f) && Binds(digest, key, g)
    ensures f == g
  {
    var s :| key == digest(Encode([f] + s));
    var t :| key == digest(Encode([g] + t));
    assert ([f] + s)[1..] == s && ([g] + t)[1..] == t;
    FirstPartIsDetermined(f, g, Encode(s), Encode(t));
  }
}

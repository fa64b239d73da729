/** The decision cache as the source keeps it, in two maps updated in place
    (cache.go, lines 13-130), shown to run like the single map of CacheRuns. */
module DecisionCaches {
  import opened Text
  import opened Agent
  import opened CacheKey
  import opened CacheRuns

  datatype StoredEntry = StoredEntry(
    response: EvaluationResponse,
    requestFingerprint: string,
    compositeKey: string,
    expiresAt: Time,
    createdAt: Time)

  // ---------------------------------------------------------------------
  // The two maps as values
  // ---------------------------------------------------------------------

  type Entries = map<string, StoredEntry>
  type Index = map<string, string>

  /** The two maps are mutually inverse. */
  ghost predicate Inverse(entries: Entries, index: Index) {
    && (forall k :: k in entries ==>
          entries[k].requestFingerprint in index && index[entries[k].requestFingerprint] == k)
    && (forall f :: f in index ==> index[f] in entries && entries[index[f]].requestFingerprint == f)
    && |index| == |entries|
  }

  /** Every composite key is nonempty and built on its entry's fingerprint. */
  ghost predicate WellKeyed(entries: Entries, digest: string -> string) {
    forall k :: k in entries ==>
      k != "" && entries[k].compositeKey == k && Binds(digest, k, entries[k].requestFingerprint)
  }

  ghost function Plain(e: StoredEntry): Entry {
    Entry(e.response, e.expiresAt, e.createdAt)
  }

  /** The single map the pair stands for. */
  ghost function View(entries: Entries, index: Index): map<string, Entry> {
    map f | f in index && index[f] in entries :: Plain(entries[index[f]])
  }

  lemma ViewSize(entries: Entries, index: Index)
    requires Inverse(entries, index)
    ensures View(entries, index).Keys == index.Keys
    ensures |View(entries, index)| == |entries|
  {
    assert View(entries, index).Keys == index.Keys;
  }

  function Unlink(index: Index, f: string, key: string): Index {
    if f in index && index[f] == key then index - {f} else index
  }

  lemma DeleteKeepsInverse(entries: Entries, index: Index, key: string)
    requires Inverse(entries, index) && key in entries
    ensures var f := entries[key].requestFingerprint;
            && Inverse(entries - {key}, Unlink(index, f, key))
            && View(entries - {key}, Unlink(index, f, key)) == View(entries, index) - {f}
  {
    var f := entries[key].requestFingerprint;
    var entries', index' := entries - {key}, Unlink(index, f, key);
    assert index'.Keys == index.Keys - {f} && entries'.Keys == entries.Keys - {key};
    assert |index'.Keys| == |index.Keys| - 1 && |entries'.Keys| == |entries.Keys| - 1;
    forall k | k in entries'
      ensures entries'[k].requestFingerprint in index' && index'[entries'[k].requestFingerprint] == k
    {
      assert index[entries[k].requestFingerprint] == k;
    }
    forall g | g in index' ensures index'[g] in entries' && entries'[index'[g]].requestFingerprint == g {
      assert entries[index[g]].requestFingerprint == g;
    }
  }

  lemma StoreKeepsInverse(entries: Entries, index: Index, key: string, e: StoredEntry)
    requires Inverse(entries, index)
    requires key in entries <==> e.requestFingerprint in index
    requires key in entries ==> entries[key].requestFingerprint == e.requestFingerprint
    ensures Inverse(entries[key := e], index[e.requestFingerprint := key])
  {
    StoreKeepsIndexed(entries, index, key, e);
    StoreKeepsSize(entries, index, key, e);
    var entries', index' := entries[key := e], index[e.requestFingerprint := key];
    forall g | g in index' ensures index'[g] in entries' && entries'[index'[g]].requestFingerprint == g {
      if g != e.requestFingerprint {
        assert entries[index[g]].requestFingerprint == g;
      }
    }
  }

  lemma StoreKeepsIndexed(entries: Entries, index: Index, key: string, e: StoredEntry)
    requires Inverse(entries, index)
    requires key in entries <==> e.requestFingerprint in index
    requires key in entries ==> entries[key].requestFingerprint == e.requestFingerprint
    ensures var entries', index' := entries[key := e], index[e.requestFingerprint := key];
            forall k :: k in entries' ==>
              entries'[k].requestFingerprint in index' && index'[entries'[k].requestFingerprint] == k
  {
    forall k | k in entries && k != key
      ensures entries[k].requestFingerprint != e.requestFingerprint
    {
      assert index[entries[k].requestFingerprint] == k;
    }
  }

  lemma StoreKeepsSize(entries: Entries, index: Index, key: string, e: StoredEntry)
    requires |index| == |entries| && (key in entries <==> e.requestFingerprint in index)
    ensures |entries[key := e]| == |index[e.requestFingerprint := key]|
  {}

  lemma StoreView(entries: Entries, index: Index, key: string, e: StoredEntry)
    requires Inverse(entries, index)
    requires key in entries ==> entries[key].requestFingerprint == e.requestFingerprint
    ensures View(entries[key := e], index[e.requestFingerprint := key])
            == View(entries, index)[e.requestFingerprint := Plain(e)]
  {
    var f := e.requestFingerprint;
    var left, right := View(entries[key := e], index[f := key]), View(entries, index)[f := Plain(e)];
    forall g | g != f ensures g in left <==> g in right {}
    assert left.Keys == right.Keys;
    forall g | g in left ensures left[g] == right[g] {
      assert g != f ==> index[g] != key;
    }
  }

  /** What the locked part of get does to any two maps: it serves an entry only when
      both maps and the revision agree on it, and otherwise repairs what it met. */
  ghost predicate Found(entries: Entries, index: Index, revision: nat, f: string, id: string, now: Time,
                        hit: Option<EvaluationResponse>, entries': Entries, index': Index) {
    if f !in index then
      hit == None && entries' == entries && index' == index
    else if index[f] !in entries then
      hit == None && entries' == entries && index' == index - {f}
    else
      var e := entries[index[f]];
      if now < e.expiresAt && e.requestFingerprint == f && e.response.policyRevision == revision then
        hit == Some(e.response.(requestID := id)) && entries' == entries && index' == index
      else
        && hit == None && entries' == entries - {index[f]}
        && index' == Unlink(index, e.requestFingerprint, index[f])
  }

  /** On inverse maps of one revision that is exactly the single-map lookup. */
  lemma FoundRefinesLookup(limits: Limits, entries: Entries, index: Index, revision: nat, f: string, id: string,
                           now: Time, hit: Option<EvaluationResponse>, entries': Entries, index': Index)
    requires Enabled(limits) && Inverse(entries, index)
    requires f in index ==> entries[index[f]].response.policyRevision == revision
    requires Found(entries, index, revision, f, id, now, hit, entries', index')
    ensures Inverse(entries', index') && entries'.Keys <= entries.Keys
    ensures forall k :: k in entries' ==> entries'[k] == entries[k]
    ensures GetStep(limits, Ledger(View(entries, index), revision), f, id, now, hit,
                    Ledger(View(entries', index'), revision))
  {
    if f in index {
      DeleteKeepsInverse(entries, index, index[f]);
    }
  }

  lemma SubmapKeepsKeys(entries: Entries, entries': Entries, digest: string -> string)
    requires WellKeyed(entries, digest)
    requires entries'.Keys <= entries.Keys && forall k :: k in entries' ==> entries'[k] == entries[k]
    ensures WellKeyed(entries', digest)
  {}

  class DecisionCache {
    const limits: Limits
    const digest: string -> string
    var entries: Entries
    var requestIndex: Index
    var latestRevision: nat
    /** Everything ever asked of this cache, and the single map after each step. */
    ghost var ops: seq<Op>
    ghost var ledgers: seq<Ledger>

    ghost function Current(): Ledger
      reads this
    {
      Ledger(View(entries, requestIndex), latestRevision)
    }

    ghost predicate Valid()
      reads this
    {
      && IdealDigest(digest)
      && Inverse(entries, requestIndex) && WellKeyed(entries, digest)
      && IsRun(limits, ops, ledgers) && ledgers[|ops|] == Current()
    }

    constructor (limits: Limits, digest: string -> string)
      requires IdealDigest(digest)
      ensures Valid() && this.limits == limits && this.digest == digest
      ensures ops == [] && Current() == EMPTY
    {
      this.limits := limits;
      this.digest := digest;
      entries := map[];
      requestIndex := map[];
      latestRevision := 0;
      ops := [];
      ledgers := [EMPTY];
    }

    /** deleteEntry. */
    method DeleteEntry(key: string, entry: StoredEntry)
      modifies this`entries, this`requestIndex
      ensures entries == old(entries) - {key}
      ensures requestIndex == Unlink(old(requestIndex), entry.requestFingerprint, key)
    {
      entries := entries - {key};
      requestIndex := Unlink(requestIndex, entry.requestFingerprint, key);
    }

    /** The locked part of get. */
    method Find(fingerprint: string, requestID: string, now: Time) returns (hit: Option<EvaluationResponse>)
      modifies this`entries, this`requestIndex
      ensures Found(old(entries), old(requestIndex), latestRevision, fingerprint, requestID, now,
                    hit, entries, requestIndex)
    {
      if fingerprint !in requestIndex {
        return None;
      }
      var composite := requestIndex[fingerprint];
      if composite !in entries {
        requestIndex := requestIndex - {fingerprint};
        return None;
      }
      var entry := entries[composite];
      if !(now < entry.expiresAt) {
        DeleteEntry(composite, entry);
        return None;
      }
      if entry.requestFingerprint != fingerprint || entry.response.policyRevision != latestRevision {
        DeleteEntry(composite, entry);
        return None;
      }
      return Some(entry.response.(requestID := requestID));
    }

    /** In every reachable cache the repair branches of get are dead: an indexed
        fingerprint has its entry, that entry is its own, of the latest revision, and an
        authorized deny. */
    lemma RepairBranchesAreDead(f: string)
      requires Valid() && f in requestIndex
      ensures requestIndex[f] in entries
      ensures entries[requestIndex[f]].requestFingerprint == f
      ensures entries[requestIndex[f]].response.policyRevision == latestRevision
      ensures Authorized(limits, entries[requestIndex[f]].response)
    {
      ReachableLedgers(limits, ops, ledgers, |ops|);
      assert f in Current().entries;
    }

    /** Reachable caches keep their bound in both maps. */
    lemma CardinalityIsBounded()
      requires Valid()
      ensures |entries| == |requestIndex| <= limits.maximumEntries
    {
      ReachableLedgers(limits, ops, ledgers, |ops|);
      ViewSize(entries, requestIndex);
    }

    /** Every hit this cache ever gave was its latest accepted deny for that fingerprint,
        of the highest revision accepted by then, and not yet expired. */
    lemma EveryHitWasSound(n: nat)
      requires Valid() && n < |ops| && ops[n].Get? && ops[n].hit.Some?
      ensures exists i ::
                && LatestFor(limits, ops, n, ops[n].fingerprint, i)
                && ops[n].hit.value == ops[i].response.(requestID := ops[n].requestID)
                && ops[i].response.policyRevision == Highest(limits, ops, n)
                && ops[n].now < ops[i].now + Ttl(limits, ops[i].response.cacheTTLMS)
    {
      HitIsLatestAcceptedDeny(limits, ops, ledgers, n);
    }

    /** get. */
    method Get(request: EvaluationRequest, requestID: string, now: Time) returns (hit: Option<EvaluationResponse>)
      requires Valid()
      modifies this
      ensures Valid()
      ensures hit == Lookup(limits, old(Current()), Fingerprint(request, digest), requestID, now)
      ensures GetStep(limits, old(Current()), Fingerprint(request, digest), requestID, now, hit, Current())
      ensures ops == old(ops) + [Op.Get(Fingerprint(request, digest), requestID, now, hit)]
      ensures ledgers == old(ledgers) + [Current()]
    {
      hit := None;
      if !(limits.maximumEntries == 0 || limits.maximumTTL == 0) {
        var fingerprint := EvaluationCacheKey(request, digest);
        hit := GetEnabled(fingerprint, requestID, now);
      }
      Record(Op.Get(Fingerprint(request, digest), requestID, now, hit));
    }

    method GetEnabled(fingerprint: string, requestID: string, now: Time) returns (hit: Option<EvaluationResponse>)
      requires Valid() && Enabled(limits)
      modifies this`entries, this`requestIndex
      ensures Inverse(entries, requestIndex) && WellKeyed(entries, digest)
      ensures GetStep(limits, old(Current()), fingerprint, requestID, now, hit, Current())
    {
      ghost var entries0, index0 := entries, requestIndex;
      if fingerprint in requestIndex {
        RepairBranchesAreDead(fingerprint);
      }
      hit := Find(fingerprint, requestID, now);
      FoundRefinesLookup(limits, entries0, index0, latestRevision, fingerprint, requestID, now,
                         hit, entries, requestIndex);
      SubmapKeepsKeys(entries0, entries, digest);
    }

    ghost method Record(op: Op)
      requires IsRun(limits, ops, ledgers)
      requires Step(limits, ledgers[|ops|], op, Current())
      modifies this`ops, this`ledgers
      ensures ops == old(ops) + [op] && ledgers == old(ledgers) + [Current()]
      ensures IsRun(limits, ops, ledgers) && ledgers[|ops|] == Current()
    {
      RunExtends(limits, ops, ledgers, op, Current());
      ops := ops + [op];
      ledgers := ledgers + [Current()];
    }

    /** deleteEntry on inverse maps takes one entry out of the single map. */
    method Drop(key: string)
      requires Inverse(entries, requestIndex) && WellKeyed(entries, digest) && key in entries
      modifies this`entries, this`requestIndex
      ensures Inverse(entries, requestIndex) && WellKeyed(entries, digest)
      ensures entries == old(entries) - {key}
      ensures requestIndex.Keys <= old(requestIndex).Keys
      ensures forall f :: f in requestIndex ==> requestIndex[f] == old(requestIndex)[f]
      ensures View(entries, requestIndex) ==
              old(View(entries, requestIndex)) - {old(entries)[key].requestFingerprint}
    {
      DeleteKeepsInverse(entries, requestIndex, key);
      DeleteEntry(key, entries[key]);
    }

    /** The purge loop of put. */
    method Purge(now: Time)
      requires Inverse(entries, requestIndex) && WellKeyed(entries, digest)
      modifies this`entries, this`requestIndex
      ensures Inverse(entries, requestIndex) && WellKeyed(entries, digest)
      ensures View(entries, requestIndex) == Live(old(View(entries, requestIndex)), now)
      ensures |entries| <= |old(entries)|
    {
      ghost var before := View(entries, requestIndex);
      ghost var gone: set<string> := {};
      var todo := entries.Keys;
      while todo != {}
        invariant WellKeyed(entries, digest) && todo <= entries.Keys <= old(entries).Keys
        invariant Purging(entries, requestIndex, before, gone, todo, now)
      {
        var cacheKey :| cacheKey in todo;
        var entry := entries[cacheKey];
        if !(now < entry.expiresAt) {
          PurgeStep(entries, requestIndex, before, gone, todo, now, cacheKey);
          SubmapKeepsKeys(entries, entries - {cacheKey}, digest);
          DeleteEntry(cacheKey, entry);
          gone := gone + {entry.requestFingerprint};
        } else {
          PurgeSkips(entries, requestIndex, before, gone, todo, now, cacheKey);
        }
        todo := todo - {cacheKey};
      }
      LiveView(entries, requestIndex, before, gone, now);
      SubmapSize(entries, old(entries));
    }

    /** The capacity loop of put: an oldest entry leaves. */
    method EvictOldest()
      requires Inverse(entries, requestIndex) && WellKeyed(entries, digest)
      requires entries != map[]
      modifies this`entries, this`requestIndex
      ensures Inverse(entries, requestIndex) && WellKeyed(entries, digest)
      ensures requestIndex.Keys <= old(requestIndex).Keys
      ensures forall f :: f in requestIndex ==> requestIndex[f] == old(requestIndex)[f]
      ensures exists victim :: Oldest(old(View(entries, requestIndex)), victim)
                               && View(entries, requestIndex) == old(View(entries, requestIndex)) - {victim}
    {
      var oldestKey := "";
      var oldest: Time := 0;
      var todo := entries.Keys;
      while todo != {}
        invariant todo <= entries.Keys
        invariant oldestKey == "" ==> todo == entries.Keys
        invariant oldestKey != "" ==> oldestKey in entries && oldest == entries[oldestKey].createdAt
        invariant forall k :: k in entries && k !in todo ==> oldest <= entries[k].createdAt
      {
        var cacheKey :| cacheKey in todo;
        var entry := entries[cacheKey];
        if oldestKey == "" || entry.createdAt < oldest {
          oldestKey := cacheKey;
          oldest := entry.createdAt;
        }
        todo := todo - {cacheKey};
      }
      if oldestKey in entries {
        ghost var victim := entries[oldestKey].requestFingerprint;
        OldestInView(entries, requestIndex, oldestKey);
        Drop(oldestKey);
        assert View(entries, requestIndex) == old(View(entries, requestIndex)) - {victim};
      }
    }

    /** put: the whole new state is that of the single-map insertion. */
    method Put(request: EvaluationRequest, response: EvaluationResponse, now: Time)
      requires Valid()
      modifies this
      ensures Valid()
      ensures PutStep(limits, old(Current()), Fingerprint(request, digest), response, now, Current())
      ensures ops == old(ops) + [Op.Put(Fingerprint(request, digest), response, now)]
      ensures ledgers == old(ledgers) + [Current()]
    {
      var ttl := StoredLifetime(response);
      CardinalityIsBounded();
      if ttl > 0 {
        PutForRequest(request, response, now, ttl);
      }
      Record(Op.Put(Fingerprint(request, digest), response, now));
    }

    /** The gate of put: how long this answer may be kept, or nothing. */
    method StoredLifetime(response: EvaluationResponse) returns (ttl: int)
      ensures ttl > 0 <==> Authorized(limits, response)
      ensures ttl > 0 ==> ttl == Ttl(limits, response.cacheTTLMS)
    {
      if limits.maximumEntries == 0 || limits.maximumTTL == 0 || response.cacheTTLMS <= 0
         || !response.cacheable || response.cacheKeyScope != "request"
         || response.cacheKey == "" || response.policyRevision == 0
         || response.decisionScope == ""
         || (response.decision != Block && response.decision != RateLimit)
         || response.challengeToken != ""
      {
        return 0;
      }
      ttl := WrapInt64(response.cacheTTLMS * MILLISECOND);
      if ttl > limits.maximumTTL {
        ttl := limits.maximumTTL;
      }
      if ttl <= 0 {
        return 0;
      }
    }

    method PutForRequest(request: EvaluationRequest, response: EvaluationResponse, now: Time, ttl: nat)
      requires IdealDigest(digest) && Inverse(entries, requestIndex) && WellKeyed(entries, digest)
      requires |entries| <= limits.maximumEntries
      requires Authorized(limits, response) && ttl == Ttl(limits, response.cacheTTLMS)
      modifies this`entries, this`requestIndex, this`latestRevision
      ensures Inverse(entries, requestIndex) && WellKeyed(entries, digest)
      ensures PutStep(limits, old(Current()), Fingerprint(request, digest), response, now, Current())
    {
      ghost var l := Current();
      var fingerprint := EvaluationCacheKey(request, digest);
      var composite := CacheCompositeKey(request, response, digest);
      CompositeKeyBinds(request, response, digest);
      var entry := StoredEntry(response, fingerprint, composite, now + ttl, now);
      PutAuthorized(fingerprint, composite, entry, now);
      AcceptedIsPut(limits, l, fingerprint, entry, now, Current());
    }

    /** The locked part of put, its two keys computed. */
    method PutAuthorized(fingerprint: string, composite: string, entry: StoredEntry, now: Time)
      requires IdealDigest(digest) && Inverse(entries, requestIndex) && WellKeyed(entries, digest)
      requires Enabled(limits) && |entries| <= limits.maximumEntries
      requires Binds(digest, composite, fingerprint) && composite != ""
      requires entry.requestFingerprint == fingerprint && entry.compositeKey == composite
      modifies this`entries, this`requestIndex, this`latestRevision
      ensures Inverse(entries, requestIndex) && WellKeyed(entries, digest)
      ensures PutAccepted(limits, old(Current()), fingerprint, entry, now, Current())
    {
      ghost var l := Current();
      var stale := Advance(entry.response.policyRevision);
      if stale {
        return;
      }
      ghost var started := View(entries, requestIndex);
      Renew(fingerprint, composite, entry, now);
      RenewedIsAccepted(limits, l, fingerprint, entry, now, started, Current());
    }

    /** What follows the revision test: the purge, then the insertion. */
    method Renew(fingerprint: string, composite: string, entry: StoredEntry, now: Time)
      requires Inverse(entries, requestIndex) && WellKeyed(entries, digest) && IdealDigest(digest)
      requires Enabled(limits) && |entries| <= limits.maximumEntries
      requires Binds(digest, composite, fingerprint) && composite != ""
      requires entry.requestFingerprint == fingerprint && entry.compositeKey == composite
      modifies this`entries, this`requestIndex
      ensures Inverse(entries, requestIndex) && WellKeyed(entries, digest)
      ensures Inserted(limits, Live(old(View(entries, requestIndex)), now), fingerprint, Plain(entry),
                       View(entries, requestIndex))
    {
      Purge(now);
      Insert(fingerprint, composite, entry);
    }

    /** A newer revision empties the cache; an older one is turned away. */
    method Advance(revision: nat) returns (stale: bool)
      requires Inverse(entries, requestIndex) && WellKeyed(entries, digest)
      modifies this`entries, this`requestIndex, this`latestRevision
      ensures Inverse(entries, requestIndex) && WellKeyed(entries, digest)
      ensures |entries| <= |old(entries)|
      ensures stale == (revision < old(latestRevision))
      ensures stale ==> Current() == old(Current())
      ensures !stale ==> latestRevision == revision
      ensures !stale && revision > old(latestRevision) ==> View(entries, requestIndex) == map[]
      ensures !stale && revision <= old(latestRevision) ==>
                View(entries, requestIndex) == old(View(entries, requestIndex))
    {
      stale := false;
      if revision > latestRevision {
        entries := map[];
        requestIndex := map[];
        latestRevision := revision;
      } else if revision < latestRevision {
        stale := true;
      }
    }

    /** From the replacement test to the end of put. */
    method Insert(fingerprint: string, composite: string, entry: StoredEntry)
      requires Inverse(entries, requestIndex) && WellKeyed(entries, digest) && IdealDigest(digest)
      requires Enabled(limits) && |entries| <= limits.maximumEntries
      requires Binds(digest, composite, fingerprint) && composite != ""
      requires entry.requestFingerprint == fingerprint && entry.compositeKey == composite
      modifies this`entries, this`requestIndex
      ensures Inverse(entries, requestIndex) && WellKeyed(entries, digest)
      ensures Inserted(limits, old(View(entries, requestIndex)), fingerprint, Plain(entry),
                       View(entries, requestIndex))
    {
      ghost var base := View(entries, requestIndex);
      ViewSize(entries, requestIndex);
      Unseat(fingerprint, composite);
      ghost var seated := View(entries, requestIndex);
      KeyIsSeat(entries, requestIndex, digest, composite, fingerprint);
      ViewSize(entries, requestIndex);
      MakeRoom(composite);
      ghost var roomy := View(entries, requestIndex);
      Link(fingerprint, composite, entry);
      RoomRefines(limits, base, fingerprint, seated, roomy, Plain(entry));
    }

    /** The two assignments that end put. */
    method Link(fingerprint: string, composite: string, entry: StoredEntry)
      requires Inverse(entries, requestIndex) && WellKeyed(entries, digest) && IdealDigest(digest)
      requires Binds(digest, composite, fingerprint) && composite != ""
      requires fingerprint in requestIndex ==> requestIndex[fingerprint] == composite
      requires entry.requestFingerprint == fingerprint && entry.compositeKey == composite
      modifies this`entries, this`requestIndex
      ensures Inverse(entries, requestIndex) && WellKeyed(entries, digest)
      ensures View(entries, requestIndex) == old(View(entries, requestIndex))[fingerprint := Plain(entry)]
    {
      KeyIsSeat(entries, requestIndex, digest, composite, fingerprint);
      StoreKeepsInverse(entries, requestIndex, composite, entry);
      StoreView(entries, requestIndex, composite, entry);
      entries := entries[composite := entry];
      requestIndex := requestIndex[fingerprint := composite];
    }

    /** An entry kept for the same request under another composite key leaves. */
    method Unseat(fingerprint: string, composite: string)
      requires Inverse(entries, requestIndex) && WellKeyed(entries, digest)
      modifies this`entries, this`requestIndex
      ensures Inverse(entries, requestIndex) && WellKeyed(entries, digest)
      ensures fingerprint in requestIndex ==> requestIndex[fingerprint] == composite
      ensures var base := old(View(entries, requestIndex));
              View(entries, requestIndex) == if fingerprint in requestIndex then base else base - {fingerprint}
    {
      if fingerprint in requestIndex && requestIndex[fingerprint] != composite {
        var previous := requestIndex[fingerprint];
        if previous in entries {
          Drop(previous);
        }
      }
      ViewSize(entries, requestIndex);
    }

    /** The capacity test of put. */
    method MakeRoom(composite: string)
      requires Inverse(entries, requestIndex) && WellKeyed(entries, digest)
      requires Enabled(limits)
      modifies this`entries, this`requestIndex
      ensures Inverse(entries, requestIndex) && WellKeyed(entries, digest)
      ensures requestIndex.Keys <= old(requestIndex).Keys
      ensures forall f :: f in requestIndex ==> requestIndex[f] == old(requestIndex)[f]
      ensures if composite !in old(entries) && |old(entries)| >= limits.maximumEntries then
                exists victim :: Oldest(old(View(entries, requestIndex)), victim)
                                 && View(entries, requestIndex) == old(View(entries, requestIndex)) - {victim}
              else View(entries, requestIndex) == old(View(entries, requestIndex))
    {
      if composite !in entries && |entries| >= limits.maximumEntries {
        EvictOldest();
      }
    }
  }

  /** A well-keyed composite key is stored exactly when its fingerprint is seated on it. */
  lemma KeyIsSeat(entries: Entries, index: Index, digest: string -> string, composite: string, f: string)
    requires Inverse(entries, index) && WellKeyed(entries, digest) && IdealDigest(digest)
    requires Binds(digest, composite, f)
    ensures composite in entries <==> f in index && index[f] == composite
    ensures composite in entries ==> entries[composite].requestFingerprint == f
  {
    if composite in entries {
      CompositeDeterminesFingerprint(digest, composite, f, entries[composite].requestFingerprint);
    }
  }

  /** The single-map insertion of an authorized entry. */
  ghost predicate PutAccepted(limits: Limits, l: Ledger, f: string, e: StoredEntry, now: Time, l': Ledger) {
    if e.response.policyRevision < l.revision then l' == l
    else
      && l'.revision == e.response.policyRevision
      && Inserted(limits, Base(l, e.response, now), f, Plain(e), l'.entries)
  }

  lemma AcceptedIsPut(limits: Limits, l: Ledger, f: string, e: StoredEntry, now: Time, l': Ledger)
    requires Authorized(limits, e.response) && Plain(e) == EntryFor(limits, e.response, now)
    requires PutAccepted(limits, l, f, e, now, l')
    ensures PutStep(limits, l, f, e.response, now, l')
  {}

  lemma RenewedIsAccepted(limits: Limits, l: Ledger, f: string, e: StoredEntry, now: Time,
                          started: map<string, Entry>, l': Ledger)
    requires e.response.policyRevision >= l.revision && l'.revision == e.response.policyRevision
    requires started == if e.response.policyRevision > l.revision then map[] else l.entries
    requires Inserted(limits, Live(started, now), f, Plain(e), l'.entries)
    ensures PutAccepted(limits, l, f, e, now, l')
  {
    assert Live(started, now) == Base(l, e.response, now);
  }

  /** Replacing, then making room, then storing is the single-map insertion. */
  lemma RoomRefines(limits: Limits, base: map<string, Entry>, f: string, seated: map<string, Entry>,
                    roomy: map<string, Entry>, e: Entry)
    requires |base| <= limits.maximumEntries
    requires seated == (if f in seated then base else base - {f})
    requires if f !in seated && |seated| >= limits.maximumEntries then
               exists victim :: Oldest(seated, victim) && roomy == seated - {victim}
             else roomy == seated
    ensures Inserted(limits, base, f, e, roomy[f := e])
  {
    if f in base && f !in seated {
      assert seated.Keys == base.Keys - {f};
      assert |seated.Keys| == |base.Keys| - 1;
    } else {
      assert seated == base;
    }
  }

  lemma EntryInView(entries: Entries, index: Index, key: string)
    requires Inverse(entries, index) && key in entries
    ensures var f := entries[key].requestFingerprint;
            f in View(entries, index) && View(entries, index)[f] == Plain(entries[key])
  {}

  /** Half way through the purge: what is gone had expired, what was passed over had not. */
  ghost predicate Purging(entries: Entries, index: Index, before: map<string, Entry>, gone: set<string>,
                          todo: set<string>, now: Time) {
    && Inverse(entries, index)
    && View(entries, index) == before - gone
    && (forall f :: f in gone ==> f in before && !(now < before[f].expiresAt))
    && (forall k :: k in entries && k !in todo ==> now < entries[k].expiresAt)
  }

  lemma PurgeStep(entries: Entries, index: Index, before: map<string, Entry>, gone: set<string>,
                  todo: set<string>, now: Time, key: string)
    requires Purging(entries, index, before, gone, todo, now) && key in todo && key in entries
    requires !(now < entries[key].expiresAt)
    ensures var f := entries[key].requestFingerprint;
            Purging(entries - {key}, Unlink(index, f, key), before, gone + {f}, todo - {key}, now)
  {
    EntryInView(entries, index, key);
    DeleteKeepsInverse(entries, index, key);
    RemoveTwice(before, gone, entries[key].requestFingerprint);
  }

  lemma PurgeSkips(entries: Entries, index: Index, before: map<string, Entry>, gone: set<string>,
                   todo: set<string>, now: Time, key: string)
    requires Purging(entries, index, before, gone, todo, now) && key in entries && now < entries[key].expiresAt
    ensures Purging(entries, index, before, gone, todo - {key}, now)
  {}

  lemma RemoveTwice(m: map<string, Entry>, gone: set<string>, f: string)
    ensures (m - gone) - {f} == m - (gone + {f})
  {}

  lemma LiveView(entries: Entries, index: Index, before: map<string, Entry>, gone: set<string>, now: Time)
    requires Inverse(entries, index) && View(entries, index) == before - gone
    requires forall f :: f in gone ==> f in before && !(now < before[f].expiresAt)
    requires forall k :: k in entries ==> now < entries[k].expiresAt
    ensures View(entries, index) == Live(before, now)
  {
    ViewSize(entries, index);
    forall f | f in before && f !in gone ensures now < before[f].expiresAt {
      assert f in View(entries, index);
    }
  }

  lemma OldestInView(entries: Entries, index: Index, key: string)
    requires Inverse(entries, index) && key in entries
    requires forall k :: k in entries ==> entries[key].createdAt <= entries[k].createdAt
    ensures Oldest(View(entries, index), entries[key].requestFingerprint)
  {}
}

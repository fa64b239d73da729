/** The deny-only decision cache as one map from request fingerprint to entry,
    and what holds of every run of lookups and insertions (cache.go). */
module CacheRuns {
  import opened Text
  import opened Agent

  /** Nanoseconds since Go's zero instant; durations are nanoseconds too. */
  type Time = nat

  datatype Option<+T> = None | Some(value: T)

  datatype Limits = Limits(maximumEntries: nat, maximumTTL: nat)

  datatype Entry = Entry(response: EvaluationResponse, expiresAt: Time, createdAt: Time)

  /** The abstract cache. */
  datatype Ledger = Ledger(entries: map<string, Entry>, revision: nat)

  const EMPTY := Ledger(map[], 0)

  const MILLISECOND := 1_000_000

  /** A 64-bit product wraps around; time.Duration is an int64. */
  function WrapInt64(x: int): int {
    (x + 0x8000_0000_0000_0000) % 0x1_0000_0000_0000_0000 - 0x8000_0000_0000_0000
  }

  function Ttl(limits: Limits, cacheTTLMS: int): int {
    var ttl := WrapInt64(cacheTTLMS * MILLISECOND);
    if ttl > limits.maximumTTL then limits.maximumTTL else ttl
  }

  predicate Enabled(limits: Limits) {
    limits.maximumEntries != 0 && limits.maximumTTL != 0
  }

  /** The Agent allowed this answer to be stored, and the configuration allows it too. */
  predicate Authorized(limits: Limits, r: EvaluationResponse) {
    && Enabled(limits) && r.cacheTTLMS > 0
    && r.cacheable && r.cacheKeyScope == "request"
    && r.cacheKey != "" && r.policyRevision != 0 && r.decisionScope != ""
    && (r.decision == Block || r.decision == RateLimit)
    && r.challengeToken == ""
    && Ttl(limits, r.cacheTTLMS) > 0
  }

  /** Validated answers never reach the wrap-around: their lifetime is the shorter of
      the Agent's and the configured one, and the stored-answer conditions reduce to
      the Agent's grant without a challenge token. */
  lemma ValidatedAuthorization(limits: Limits, id: string, r: EvaluationResponse)
    requires ValidResponse(id, r)
    ensures 0 <= r.cacheTTLMS <= 5000
    ensures Ttl(limits, r.cacheTTLMS) ==
            if r.cacheTTLMS * 1_000_000 > limits.maximumTTL then limits.maximumTTL else r.cacheTTLMS * 1_000_000
    ensures Authorized(limits, r) <==>
            limits.maximumEntries != 0 && limits.maximumTTL != 0 && r.cacheable && r.challengeToken == ""
  {
    assert r.cacheable ==> |r.cacheKey| == 64 && |r.decisionScope| >= 1;
    assert 0 <= r.cacheTTLMS * MILLISECOND <= 5000 * MILLISECOND;
  }

  /** Without the gate the product can wrap to a negative duration, which is why put
      tests the clamped value again. */
  lemma UngatedLifetimeCanWrap(limits: Limits)
    ensures Ttl(limits, 0x7fff_ffff_ffff_ffff) < 0
  {}

  ghost function EntryFor(limits: Limits, r: EvaluationResponse, now: Time): Entry
    requires Authorized(limits, r)
  {
    Entry(r, now + Ttl(limits, r.cacheTTLMS), now)
  }

  ghost function Live(entries: map<string, Entry>, now: Time): map<string, Entry> {
    map f | f in entries && now < entries[f].expiresAt :: entries[f]
  }

  ghost predicate Oldest(entries: map<string, Entry>, f: string) {
    f in entries && forall g :: g in entries ==> entries[f].createdAt <= entries[g].createdAt
  }

  // ---------------------------------------------------------------------
  // Steps
  // ---------------------------------------------------------------------

  datatype Op =
    | Get(fingerprint: string, requestID: string, now: Time, hit: Option<EvaluationResponse>)
    | Put(fingerprint: string, response: EvaluationResponse, now: Time)

  ghost function Lookup(limits: Limits, l: Ledger, f: string, id: string, now: Time): Option<EvaluationResponse> {
    if Enabled(limits) && f in l.entries && now < l.entries[f].expiresAt
    then Some(l.entries[f].response.(requestID := id))
    else None
  }

  ghost predicate GetStep(limits: Limits, l: Ledger, f: string, id: string, now: Time,
                          hit: Option<EvaluationResponse>, l': Ledger) {
    && hit == Lookup(limits, l, f, id, now)
    && l'.revision == l.revision
    && l'.entries == (if Enabled(limits) && hit == None then l.entries - {f} else l.entries)
  }

  /** What an accepted insertion starts from: a newer revision empties the cache, the
      same revision drops what has expired. */
  ghost function Base(l: Ledger, r: EvaluationResponse, now: Time): map<string, Entry> {
    if r.policyRevision > l.revision then map[] else Live(l.entries, now)
  }

  ghost predicate Evicts(base: map<string, Entry>, f: string, limits: Limits) {
    f !in base && |base| >= limits.maximumEntries
  }

  ghost predicate PutStep(limits: Limits, l: Ledger, f: string, r: EvaluationResponse, now: Time, l': Ledger) {
    if !Authorized(limits, r) || r.policyRevision < l.revision then l' == l
    else
      var base := Base(l, r, now);
      && l'.revision == r.policyRevision
      && Inserted(limits, base, f, EntryFor(limits, r, now), l'.entries)
  }

  /** The new entry is stored; at the capacity limit some oldest entry gives way. */
  ghost predicate Inserted(limits: Limits, base: map<string, Entry>, f: string, e: Entry, after: map<string, Entry>) {
    if Evicts(base, f, limits) then
      exists victim :: Oldest(base, victim) && after == (base - {victim})[f := e]
    else after == base[f := e]
  }

  ghost predicate Step(limits: Limits, l: Ledger, op: Op, l': Ledger) {
    match op
    case Get(f, id, now, hit) => GetStep(limits, l, f, id, now, hit, l')
    case Put(f, r, now) => PutStep(limits, l, f, r, now, l')
  }

  ghost predicate StepAt(limits: Limits, ops: seq<Op>, states: seq<Ledger>, i: int) {
    0 <= i < |ops| && i + 1 < |states| && Step(limits, states[i], ops[i], states[i + 1])
  }

  /** A run from the empty cache; operations carry arbitrary timestamps. */
  ghost predicate IsRun(limits: Limits, ops: seq<Op>, states: seq<Ledger>) {
    && |states| == |ops| + 1 && states[0] == EMPTY
    && forall i :: 0 <= i < |ops| ==> StepAt(limits, ops, states, i)
  }

  lemma RunExtends(limits: Limits, ops: seq<Op>, states: seq<Ledger>, op: Op, l: Ledger)
    requires IsRun(limits, ops, states) && Step(limits, states[|ops|], op, l)
    ensures IsRun(limits, ops + [op], states + [l])
  {
    var ops', states' := ops + [op], states + [l];
    forall i | 0 <= i < |ops'| ensures StepAt(limits, ops', states', i) {
      if i < |ops| {
        assert StepAt(limits, ops, states, i);
      }
    }
  }

  // ---------------------------------------------------------------------
  // History, read off the operations alone
  // ---------------------------------------------------------------------

  /** The highest revision ever accepted in the first n operations. */
  ghost function Highest(limits: Limits, ops: seq<Op>, n: nat): nat
    requires n <= |ops|
  {
    if n == 0 then 0
    else
      var h := Highest(limits, ops, n - 1);
      var op := ops[n - 1];
      if op.Put? && Authorized(limits, op.response) && op.response.policyRevision > h
      then op.response.policyRevision else h
  }

  ghost predicate AcceptedAt(limits: Limits, ops: seq<Op>, i: int) {
    && 0 <= i < |ops| && ops[i].Put? && Authorized(limits, ops[i].response)
    && ops[i].response.policyRevision >= Highest(limits, ops, i)
  }

  ghost predicate AcceptedFor(limits: Limits, ops: seq<Op>, i: int, f: string) {
    AcceptedAt(limits, ops, i) && ops[i].fingerprint == f
  }

  /** Operation i is the latest accepted insertion for f among the first n. */
  ghost predicate LatestFor(limits: Limits, ops: seq<Op>, n: int, f: string, i: int) {
    && i < n <= |ops| && AcceptedFor(limits, ops, i, f)
    && forall k :: i < k < n ==> !AcceptedFor(limits, ops, k, f)
  }

  ghost function PutEntry(limits: Limits, op: Op): Entry
    requires op.Put? && Authorized(limits, op.response)
  {
    EntryFor(limits, op.response, op.now)
  }

  /** Every stored entry is the latest accepted insertion for its fingerprint, at the
      highest revision ever accepted. */
  ghost predicate Justified(limits: Limits, ops: seq<Op>, n: nat, l: Ledger)
    requires n <= |ops|
  {
    && l.revision == Highest(limits, ops, n)
    && forall f :: f in l.entries ==> EntryJustified(limits, ops, n, f, l.entries[f])
  }

  ghost predicate EntryJustified(limits: Limits, ops: seq<Op>, n: nat, f: string, e: Entry)
    requires n <= |ops|
  {
    exists i :: LatestFor(limits, ops, n, f, i) && e == PutEntry(limits, ops[i])
                && ops[i].response.policyRevision == Highest(limits, ops, n)
  }

  lemma {:induction false} RunsAreJustified(limits: Limits, ops: seq<Op>, states: seq<Ledger>, n: nat)
    requires IsRun(limits, ops, states) && n <= |ops|
    ensures Justified(limits, ops, n, states[n])
  {
    if n > 0 {
      RunsAreJustified(limits, ops, states, n - 1);
      assert StepAt(limits, ops, states, n - 1);
      StepKeepsJustified(limits, ops, n - 1, states[n - 1], states[n]);
    }
  }

  lemma StepKeepsJustified(limits: Limits, ops: seq<Op>, n: nat, l: Ledger, l': Ledger)
    requires n < |ops| && Justified(limits, ops, n, l) && Step(limits, l, ops[n], l')
    ensures Justified(limits, ops, n + 1, l')
  {
    if AcceptedAt(limits, ops, n) {
      PutShape(limits, l, ops[n].fingerprint, ops[n].response, ops[n].now, l');
      AcceptedPutKeepsJustified(limits, ops, n, l, l');
    } else {
      assert l'.entries.Keys <= l.entries.Keys;
      forall f | f in l'.entries ensures EntryJustified(limits, ops, n + 1, f, l'.entries[f]) {
        assert EntryJustified(limits, ops, n, f, l.entries[f]);
        StillJustified(limits, ops, n, f, l.entries[f]);
      }
    }
  }

  lemma AcceptedPutKeepsJustified(limits: Limits, ops: seq<Op>, n: nat, l: Ledger, l': Ledger)
    requires n < |ops| && Justified(limits, ops, n, l) && AcceptedAt(limits, ops, n)
    requires StoresOnly(limits, l, ops[n].fingerprint, ops[n].response, ops[n].now, l')
    ensures Justified(limits, ops, n + 1, l')
  {
    var op := ops[n];
    assert AcceptedFor(limits, ops, n, op.fingerprint);
    assert LatestFor(limits, ops, n + 1, op.fingerprint, n);
    forall f | f in l'.entries ensures EntryJustified(limits, ops, n + 1, f, l'.entries[f]) {
      if f != op.fingerprint {
        assert EntryJustified(limits, ops, n, f, l.entries[f]);
        StillJustified(limits, ops, n, f, l.entries[f]);
      }
    }
  }

  /** The new entry is there; everything else was there before, unexpired and of the
      same revision. */
  ghost predicate StoresOnly(limits: Limits, l: Ledger, f: string, r: EvaluationResponse, now: Time, l': Ledger)
    requires Authorized(limits, r)
  {
    && l'.revision == r.policyRevision
    && f in l'.entries && l'.entries[f] == EntryFor(limits, r, now)
    && forall g :: g in l'.entries && g != f ==>
         g in l.entries && l'.entries[g] == l.entries[g]
         && r.policyRevision == l.revision && now < l.entries[g].expiresAt
  }

  /** An accepted insertion stores the new entry and otherwise only removes. */
  lemma PutShape(limits: Limits, l: Ledger, f: string, r: EvaluationResponse, now: Time, l': Ledger)
    requires PutStep(limits, l, f, r, now, l') && Authorized(limits, r) && r.policyRevision >= l.revision
    ensures StoresOnly(limits, l, f, r, now, l')
  {
    var base := Base(l, r, now);
    if Evicts(base, f, limits) {
      var victim :| Oldest(base, victim) && l'.entries == (base - {victim})[f := EntryFor(limits, r, now)];
    }
  }

  lemma StillJustified(limits: Limits, ops: seq<Op>, n: nat, f: string, e: Entry)
    requires n < |ops| && EntryJustified(limits, ops, n, f, e)
    requires !AcceptedFor(limits, ops, n, f) && Highest(limits, ops, n + 1) == Highest(limits, ops, n)
    ensures EntryJustified(limits, ops, n + 1, f, e)
  {
    var i :| LatestFor(limits, ops, n, f, i) && e == PutEntry(limits, ops[i])
             && ops[i].response.policyRevision == Highest(limits, ops, n);
    assert LatestFor(limits, ops, n + 1, f, i);
  }

  /** Soundness of every run: a hit repeats, up to the request ID, the latest accepted
      deny for that fingerprint, at the highest revision ever accepted, before it expires. */
  lemma HitIsLatestAcceptedDeny(limits: Limits, ops: seq<Op>, states: seq<Ledger>, n: nat)
    requires IsRun(limits, ops, states) && n < |ops| && ops[n].Get? && ops[n].hit.Some?
    ensures exists i ::
              && LatestFor(limits, ops, n, ops[n].fingerprint, i)
              && ops[n].hit.value == ops[i].response.(requestID := ops[n].requestID)
              && ops[i].response.policyRevision == Highest(limits, ops, n)
              && ops[n].now < ops[i].now + Ttl(limits, ops[i].response.cacheTTLMS)
              && ops[i].response.decision in {Block, RateLimit}
  {
    RunsAreJustified(limits, ops, states, n);
    assert StepAt(limits, ops, states, n);
    var f := ops[n].fingerprint;
    assert EntryJustified(limits, ops, n, f, states[n].entries[f]);
  }

  /** Every reachable cache is small, of one revision, and holds only authorized denies. */
  lemma ReachableLedgers(limits: Limits, ops: seq<Op>, states: seq<Ledger>, n: nat)
    requires IsRun(limits, ops, states) && n <= |ops|
    ensures |states[n].entries| <= limits.maximumEntries
    ensures forall f :: f in states[n].entries ==>
              && Authorized(limits, states[n].entries[f].response)
              && states[n].entries[f].response.policyRevision == states[n].revision
  {
    ReachableSizes(limits, ops, states, n);
    RunsAreJustified(limits, ops, states, n);
    forall f | f in states[n].entries
      ensures Authorized(limits, states[n].entries[f].response)
      ensures states[n].entries[f].response.policyRevision == states[n].revision
    {
      assert EntryJustified(limits, ops, n, f, states[n].entries[f]);
    }
  }

  lemma {:induction false} ReachableSizes(limits: Limits, ops: seq<Op>, states: seq<Ledger>, n: nat)
    requires IsRun(limits, ops, states) && n <= |ops|
    ensures |states[n].entries| <= limits.maximumEntries
  {
    if n > 0 {
      ReachableSizes(limits, ops, states, n - 1);
      NextKeepsSize(limits, ops, states, n - 1);
    }
  }

  lemma NextKeepsSize(limits: Limits, ops: seq<Op>, states: seq<Ledger>, i: nat)
    requires StepAt(limits, ops, states, i) && |states[i].entries| <= limits.maximumEntries
    ensures |states[i + 1].entries| <= limits.maximumEntries
  {
    StepKeepsSize(limits, states[i], ops[i], states[i + 1]);
  }

  lemma SubmapSize<V>(m: map<string, V>, n: map<string, V>)
    requires m.Keys <= n.Keys
    ensures |m| <= |n|
  {
    SubsetSize(m.Keys, n.Keys);
  }

  lemma {:induction false} SubsetSize<T>(a: set<T>, b: set<T>)
    requires a <= b
    ensures |a| <= |b|
  {
    if a != {} {
      var x :| x in a;
      SubsetSize(a - {x}, b - {x});
    }
  }

  lemma StepKeepsSize(limits: Limits, l: Ledger, op: Op, l': Ledger)
    requires Step(limits, l, op, l') && |l.entries| <= limits.maximumEntries
    ensures |l'.entries| <= limits.maximumEntries
  {
    match op
    case Get(f, id, now, hit) =>
      SubmapSize(l'.entries, l.entries);
    case Put(f, r, now) =>
      if Authorized(limits, r) && r.policyRevision >= l.revision {
        var base := Base(l, r, now);
        SubmapSize(base, l.entries);
        if Evicts(base, f, limits) {
          var victim :| Oldest(base, victim)
                        && l'.entries == (base - {victim})[f := EntryFor(limits, r, now)];
          assert (base - {victim}).Keys == base.Keys - {victim};
          assert |base - {victim}| == |base| - 1;
          assert f !in base - {victim};
        }
      }
  }

  /** What an accepted insertion leaves of an entry stored before: nothing if it had
      expired or was of another revision, and all of it otherwise, unless the cache was full
      of such entries, none of them for the new fingerprint, and this one was an oldest. */
  lemma WhatAnInsertionKeeps(limits: Limits, l: Ledger, f: string, r: EvaluationResponse, now: Time, l': Ledger,
                             g: string)
    requires PutStep(limits, l, f, r, now, l') && |l.entries| <= limits.maximumEntries
    requires Authorized(limits, r) && r.policyRevision >= l.revision && g in l.entries && g != f
    ensures now >= l.entries[g].expiresAt || r.policyRevision > l.revision ==> g !in l'.entries
    ensures g in l'.entries ==> l'.entries[g] == l.entries[g]
    ensures now < l.entries[g].expiresAt && r.policyRevision == l.revision && g !in l'.entries ==>
              && |l.entries| == limits.maximumEntries && f !in l.entries
              && forall h :: h in l.entries ==>
                   now < l.entries[h].expiresAt && l.entries[g].createdAt <= l.entries[h].createdAt
  {
    var base := Base(l, r, now);
    SubmapSize(base, l.entries);
    if Evicts(base, f, limits) {
      SameSizeSubset(base.Keys, l.entries.Keys);
      var victim :| Oldest(base, victim) && l'.entries == (base - {victim})[f := EntryFor(limits, r, now)];
    }
  }

  /** And the new entry is there, until its own lifetime has passed. */
  lemma WhatAnInsertionStores(limits: Limits, l: Ledger, f: string, r: EvaluationResponse, now: Time, l': Ledger)
    requires PutStep(limits, l, f, r, now, l') && Authorized(limits, r) && r.policyRevision >= l.revision
    ensures l'.revision == r.policyRevision && f in l'.entries
    ensures l'.entries[f].response == r && l'.entries[f].createdAt == now
    ensures l'.entries[f].expiresAt == now + Ttl(limits, r.cacheTTLMS)
  {
    PutShape(limits, l, f, r, now, l');
  }

  /** Making room costs exactly one entry, an oldest one, and only when none expired or
      was replaced to free a place. */
  lemma EvictionIsMinimal(limits: Limits, l: Ledger, f: string, r: EvaluationResponse, now: Time, l': Ledger)
    requires PutStep(limits, l, f, r, now, l') && |l.entries| <= limits.maximumEntries
    requires Authorized(limits, r) && r.policyRevision >= l.revision
    ensures var base := Base(l, r, now);
            if Evicts(base, f, limits) then
              && base == l.entries && |l'.entries| == |l.entries| == limits.maximumEntries
              && exists victim :: Oldest(l.entries, victim) && l'.entries.Keys == l.entries.Keys - {victim} + {f}
            else base.Keys <= l'.entries.Keys
  {
    var base := Base(l, r, now);
    SubmapSize(base, l.entries);
    if Evicts(base, f, limits) {
      SameSizeSubset(base.Keys, l.entries.Keys);
      assert base == l.entries;
      var victim :| Oldest(base, victim) && l'.entries == (base - {victim})[f := EntryFor(limits, r, now)];
      assert (base - {victim}).Keys == base.Keys - {victim};
      assert l'.entries.Keys == l.entries.Keys - {victim} + {f};
    }
  }

  lemma SameSizeSubset<T>(a: set<T>, b: set<T>)
    requires a <= b && |a| >= |b|
    ensures a == b
  {
    if b - a != {} {
      var x :| x in b - a;
      SubsetSize(a, b - {x});
    }
  }

  // ---------------------------------------------------------------------
  // An insertion can always be made
  // ---------------------------------------------------------------------

  /** Some oldest entry exists in any nonempty cache, so an insertion can always be made. */
  lemma {:induction false} OldestExists(entries: map<string, Entry>) returns (victim: string)
    requires entries != map[]
    ensures Oldest(entries, victim)
    decreases |entries|
  {
    var f :| f in entries;
    var rest := entries - {f};
    assert entries.Keys == rest.Keys + {f};
    if rest == map[] {
      victim := f;
    } else {
      var g := OldestExists(rest);
      victim := if entries[f].createdAt < entries[g].createdAt then f else g;
    }
  }

  lemma InsertionExists(limits: Limits, l: Ledger, f: string, r: EvaluationResponse, now: Time) returns (l': Ledger)
    ensures PutStep(limits, l, f, r, now, l')
  {
    if !Authorized(limits, r) || r.policyRevision < l.revision {
      l' := l;
    } else {
      var base, e := Base(l, r, now), EntryFor(limits, r, now);
      if Evicts(base, f, limits) {
        var victim := OldestExists(base);
        l' := Ledger((base - {victim})[f := e], r.policyRevision);
      } else {
        l' := Ledger(base[f := e], r.policyRevision);
      }
    }
  }
}

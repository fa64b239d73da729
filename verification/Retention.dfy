/** How long an accepted decision is kept, and exactly when it can be crowded out early
    (cache.go, lines 93-122). */
module Retention {
  import opened Agent
  import opened CacheRuns

  /** The fingerprints other than f accepted strictly between operations i and n. */
  ghost function OthersAccepted(limits: Limits, ops: seq<Op>, i: nat, n: nat, f: string): set<string>
    requires n <= |ops|
  {
    if n <= i + 1 then {}
    else
      OthersAccepted(limits, ops, i, n - 1, f)
      + if AcceptedAt(limits, ops, n - 1) && ops[n - 1].fingerprint != f then {ops[n - 1].fingerprint} else {}
  }

  /** The operations that would drop an expired decision for f: accepted insertions, which
      purge, and lookups of f itself. */
  ghost predicate Sweeps(limits: Limits, ops: seq<Op>, k: int, f: string) {
    AcceptedAt(limits, ops, k) || (0 <= k < |ops| && ops[k].Get? && ops[k].fingerprint == f)
  }

  /** Nothing between operations i and n expires, replaces or crowds out the decision
      that operation i stored. Other operations may carry any timestamps. */
  ghost predicate Undisturbed(limits: Limits, ops: seq<Op>, i: nat, n: nat)
    requires i < n <= |ops| && AcceptedAt(limits, ops, i)
  {
    var f := ops[i].fingerprint;
    && (forall k {:trigger Sweeps(limits, ops, k, f)} ::
          i < k < n && Sweeps(limits, ops, k, f) ==> ops[k].now < PutEntry(limits, ops[i]).expiresAt)
    && (forall k {:trigger AcceptedFor(limits, ops, k, f)} :: i < k < n ==> !AcceptedFor(limits, ops, k, f))
    && Highest(limits, ops, n) == ops[i].response.policyRevision
    && |OthersAccepted(limits, ops, i, n, f)| < limits.maximumEntries
  }

  /** Every other stored decision was created earlier. */
  ghost predicate Newest(l: Ledger, f: string) {
    f in l.entries && forall g :: g in l.entries && g != f ==> l.entries[g].createdAt < l.entries[f].createdAt
  }

  ghost predicate Holds(l: Ledger, f: string, e: Entry) {
    f in l.entries && l.entries[f] == e
  }

  // ---------------------------------------------------------------------
  // Kept
  // ---------------------------------------------------------------------

  lemma {:induction false} HighestGrows(limits: Limits, ops: seq<Op>, m: nat, n: nat)
    requires m <= n <= |ops|
    ensures Highest(limits, ops, m) <= Highest(limits, ops, n)
  {
    if m < n {
      HighestGrows(limits, ops, m, n - 1);
    }
  }

  lemma UndisturbedBefore(limits: Limits, ops: seq<Op>, i: nat, m: nat, n: nat)
    requires i < m < n <= |ops| && AcceptedAt(limits, ops, i) && Undisturbed(limits, ops, i, n)
    ensures Undisturbed(limits, ops, i, m + 1)
    ensures Highest(limits, ops, m) == Highest(limits, ops, m + 1) == ops[i].response.policyRevision
  {
    OthersGrow(limits, ops, i, m + 1, n, ops[i].fingerprint);
    RevisionStays(limits, ops, i, m, n);
    RevisionStays(limits, ops, i, m + 1, n);
  }

  lemma {:induction false} OthersGrow(limits: Limits, ops: seq<Op>, i: nat, m: nat, n: nat, f: string)
    requires m <= n <= |ops|
    ensures |OthersAccepted(limits, ops, i, m, f)| <= |OthersAccepted(limits, ops, i, n, f)|
    decreases n
  {
    if m < n {
      OthersGrow(limits, ops, i, m, n - 1, f);
      SubsetSize(OthersAccepted(limits, ops, i, n - 1, f), OthersAccepted(limits, ops, i, n, f));
    }
  }

  lemma RevisionStays(limits: Limits, ops: seq<Op>, i: nat, m: nat, n: nat)
    requires i < m <= n <= |ops| && AcceptedAt(limits, ops, i)
    requires Highest(limits, ops, n) == ops[i].response.policyRevision
    ensures Highest(limits, ops, m) == ops[i].response.policyRevision
  {
    assert Highest(limits, ops, i + 1) == ops[i].response.policyRevision;
    HighestGrows(limits, ops, i + 1, m);
    HighestGrows(limits, ops, m, n);
  }

  lemma StoredAtOnce(limits: Limits, ops: seq<Op>, states: seq<Ledger>, i: nat)
    requires IsRun(limits, ops, states) && AcceptedAt(limits, ops, i)
    ensures Holds(states[i + 1], ops[i].fingerprint, PutEntry(limits, ops[i]))
  {
    RunsAreJustified(limits, ops, states, i);
    assert StepAt(limits, ops, states, i);
    PutShape(limits, states[i], ops[i].fingerprint, ops[i].response, ops[i].now, states[i + 1]);
  }

  /** The decision is there, and everything else was there before it came or was accepted
      after it. */
  ghost predicate Kept(f: string, e: Entry, l0: Ledger, others: set<string>, l: Ledger) {
    && Holds(l, f, e)
    && forall g :: g in l.entries && g != f ==> g in others || (g in l0.entries && l.entries[g] == l0.entries[g])
  }

  /** An insertion under another fingerprint keeps a decision newer than what it found,
      unless that insertion is the one that fills the cache with later ones. */
  lemma KeptAcrossPut(limits: Limits, l0: Ledger, f: string, e: Entry, others: set<string>,
                      l: Ledger, g: string, r: EvaluationResponse, now: Time, l': Ledger)
    requires Newest(l0, f) && l0.entries[f] == e && Kept(f, e, l0, others, l)
    requires Authorized(limits, r) && r.policyRevision == l.revision && PutStep(limits, l, g, r, now, l')
    requires g != f && now < e.expiresAt && |others + {g}| < limits.maximumEntries
    ensures Kept(f, e, l0, others + {g}, l')
  {
    var base := Live(l.entries, now);
    assert f in base && base[f] == e;
    if Evicts(base, g, limits) && Oldest(base, f) {
      OldestLeavesOthers(l0, f, e, others, l, base);
      OthersFill(base, f, g, others + {g});
    }
    InsertionKeeps(limits, base, g, EntryFor(limits, r, now), l'.entries, f);
    InsertionOnlyAdds(limits, base, g, EntryFor(limits, r, now), l'.entries);
  }

  lemma OldestLeavesOthers(l0: Ledger, f: string, e: Entry, others: set<string>, l: Ledger, base: map<string, Entry>)
    requires Newest(l0, f) && l0.entries[f] == e && Kept(f, e, l0, others, l)
    requires forall g :: g in base ==> g in l.entries && base[g] == l.entries[g]
    requires Oldest(base, f) && base[f] == e
    ensures base.Keys - {f} <= others
  {}

  /** A full cache of one decision and accepted others needs as many others as it has
      places. */
  lemma OthersFill(base: map<string, Entry>, f: string, g: string, others: set<string>)
    requires f in base && g !in base && base.Keys - {f} <= others && g in others
    ensures |others| >= |base|
  {
    assert |base.Keys - {f} + {g}| == |base.Keys|;
    SubsetSize(base.Keys - {f} + {g}, others);
  }

  /** Of the entries that may stay, only an oldest one can be lost. */
  lemma InsertionKeeps(limits: Limits, base: map<string, Entry>, g: string, e: Entry, after: map<string, Entry>,
                       f: string)
    requires Inserted(limits, base, g, e, after) && f in base && f != g
    requires Evicts(base, g, limits) ==> !Oldest(base, f)
    ensures f in after && after[f] == base[f]
  {}

  lemma InsertionOnlyAdds(limits: Limits, base: map<string, Entry>, g: string, e: Entry, after: map<string, Entry>)
    requires Inserted(limits, base, g, e, after)
    ensures forall h :: h in after && h != g ==> h in base && after[h] == base[h]
  {}

  /** The insertion is accepted in this state. */
  ghost predicate Accepts(limits: Limits, l: Ledger, op: Op) {
    op.Put? && Authorized(limits, op.response) && op.response.policyRevision >= l.revision
  }

  /** The operation neither expires nor replaces the decision. */
  ghost predicate Spares(limits: Limits, l: Ledger, f: string, e: Entry, op: Op) {
    && (op.Get? && op.fingerprint == f ==> op.now < e.expiresAt)
    && (Accepts(limits, l, op) ==>
          op.response.policyRevision == l.revision && op.fingerprint != f && op.now < e.expiresAt)
  }

  /** A step that spares the decision and leaves it fewer rivals than places. */
  ghost predicate SparingStep(limits: Limits, f: string, e: Entry, others: set<string>,
                              l: Ledger, op: Op, l': Ledger, others': set<string>) {
    && Step(limits, l, op, l') && Spares(limits, l, f, e, op)
    && others' == others + (if Accepts(limits, l, op) then {op.fingerprint} else {})
    && |others'| < limits.maximumEntries
  }

  lemma KeptAcrossOp(limits: Limits, l0: Ledger, f: string, e: Entry, others: set<string>,
                     l: Ledger, op: Op, l': Ledger, others': set<string>)
    requires Newest(l0, f) && l0.entries[f] == e && Kept(f, e, l0, others, l)
    requires SparingStep(limits, f, e, others, l, op, l', others')
    ensures Kept(f, e, l0, others', l')
  {
    if Accepts(limits, l, op) {
      KeptAcrossPut(limits, l0, f, e, others, l, op.fingerprint, op.response, op.now, l');
    }
  }

  lemma UndisturbedSpares(limits: Limits, ops: seq<Op>, i: nat, n: nat, l: Ledger)
    requires i < n < |ops| && AcceptedAt(limits, ops, i) && Undisturbed(limits, ops, i, n + 1)
    requires l.revision == Highest(limits, ops, n) == ops[i].response.policyRevision
    ensures Spares(limits, l, ops[i].fingerprint, PutEntry(limits, ops[i]), ops[n])
    ensures Accepts(limits, l, ops[n]) <==> AcceptedAt(limits, ops, n)
    ensures !AcceptedFor(limits, ops, n, ops[i].fingerprint)
  {
    var f := ops[i].fingerprint;
    assert Accepts(limits, l, ops[n]) <==> AcceptedAt(limits, ops, n);
    assert !AcceptedFor(limits, ops, n, f);
    assert Sweeps(limits, ops, n, f) ==> ops[n].now < PutEntry(limits, ops[i]).expiresAt;
  }

  lemma UndisturbedStep(limits: Limits, ops: seq<Op>, states: seq<Ledger>, i: nat, k: nat, n: nat)
    requires IsRun(limits, ops, states) && i < k < n <= |ops| && AcceptedAt(limits, ops, i)
    requires Undisturbed(limits, ops, i, n)
    ensures var f := ops[i].fingerprint;
            SparingStep(limits, f, PutEntry(limits, ops[i]), OthersAccepted(limits, ops, i, k, f),
                        states[k], ops[k], states[k + 1], OthersAccepted(limits, ops, i, k + 1, f))
  {
    UndisturbedBefore(limits, ops, i, k, n);
    RevisionAt(limits, ops, states, k);
    UndisturbedSpares(limits, ops, i, k, states[k]);
    OneMoreOther(limits, ops, i, k, ops[i].fingerprint);
    assert StepAt(limits, ops, states, k);
  }

  lemma KeptAcrossStep(limits: Limits, ops: seq<Op>, states: seq<Ledger>, i: nat, m: nat, n: nat)
    requires IsRun(limits, ops, states) && i + 1 < m <= n <= |ops| && AcceptedAt(limits, ops, i)
    requires Newest(states[i + 1], ops[i].fingerprint) && Undisturbed(limits, ops, i, n)
    requires states[i + 1].entries[ops[i].fingerprint] == PutEntry(limits, ops[i])
    requires KeptAt(limits, ops, states, i, m - 1)
    ensures KeptAt(limits, ops, states, i, m)
  {
    var f, k := ops[i].fingerprint, m - 1;
    UndisturbedStep(limits, ops, states, i, k, n);
    KeptAcrossOp(limits, states[i + 1], f, PutEntry(limits, ops[i]), OthersAccepted(limits, ops, i, k, f),
                 states[k], ops[k], states[k + 1], OthersAccepted(limits, ops, i, k + 1, f));
  }

  lemma RevisionAt(limits: Limits, ops: seq<Op>, states: seq<Ledger>, n: nat)
    requires IsRun(limits, ops, states) && n <= |ops|
    ensures states[n].revision == Highest(limits, ops, n)
  {
    RunsAreJustified(limits, ops, states, n);
  }

  lemma OneMoreOther(limits: Limits, ops: seq<Op>, i: nat, n: nat, f: string)
    requires i < n < |ops| && !AcceptedFor(limits, ops, n, f)
    ensures OthersAccepted(limits, ops, i, n + 1, f) ==
            OthersAccepted(limits, ops, i, n, f) + if AcceptedAt(limits, ops, n) then {ops[n].fingerprint} else {}
  {}

  ghost predicate KeptAt(limits: Limits, ops: seq<Op>, states: seq<Ledger>, i: nat, n: nat)
    requires i < n <= |ops| && n < |states| && AcceptedAt(limits, ops, i)
  {
    Kept(ops[i].fingerprint, PutEntry(limits, ops[i]), states[i + 1],
         OthersAccepted(limits, ops, i, n, ops[i].fingerprint), states[n])
  }

  lemma {:induction false} KeptThrough(limits: Limits, ops: seq<Op>, states: seq<Ledger>, i: nat, m: nat, n: nat)
    requires IsRun(limits, ops, states) && i < m <= n <= |ops| && AcceptedAt(limits, ops, i)
    requires Newest(states[i + 1], ops[i].fingerprint) && Undisturbed(limits, ops, i, n)
    requires states[i + 1].entries[ops[i].fingerprint] == PutEntry(limits, ops[i])
    ensures KeptAt(limits, ops, states, i, m)
    decreases m
  {
    if i + 1 == m {
      KeptAtFirst(limits, ops, states, i);
    } else {
      KeptThrough(limits, ops, states, i, m - 1, n);
      KeptAcrossStep(limits, ops, states, i, m, n);
    }
  }

  lemma KeptAtFirst(limits: Limits, ops: seq<Op>, states: seq<Ledger>, i: nat)
    requires |states| == |ops| + 1 && AcceptedAt(limits, ops, i) && ops[i].fingerprint in states[i + 1].entries
    requires states[i + 1].entries[ops[i].fingerprint] == PutEntry(limits, ops[i])
    ensures KeptAt(limits, ops, states, i, i + 1)
  {}

  /** Retention in every run: a decision newer than all it found stays until it expires, is
      replaced, is superseded by a higher revision, or maximumEntries other fingerprints
      have been accepted after it, in whatever order those are stamped. */
  lemma AcceptedDenyIsRetained(limits: Limits, ops: seq<Op>, states: seq<Ledger>, i: nat, n: nat)
    requires IsRun(limits, ops, states) && i < n <= |ops| && AcceptedAt(limits, ops, i)
    requires Newest(states[i + 1], ops[i].fingerprint) && Undisturbed(limits, ops, i, n)
    ensures Holds(states[n], ops[i].fingerprint, PutEntry(limits, ops[i]))
  {
    StoredAtOnce(limits, ops, states, i);
    KeptThrough(limits, ops, states, i, n, n);
  }

  /** A decision is newer than all it found if the insertions of its revision accepted
      before it carry earlier stamps. */
  lemma EarlierStampsMakeNewest(limits: Limits, ops: seq<Op>, states: seq<Ledger>, i: nat)
    requires IsRun(limits, ops, states) && AcceptedAt(limits, ops, i)
    requires forall j :: 0 <= j < i && AcceptedAt(limits, ops, j)
                         && ops[j].response.policyRevision == ops[i].response.policyRevision
                         ==> ops[j].now < ops[i].now
    ensures Newest(states[i + 1], ops[i].fingerprint)
  {
    var l := states[i + 1];
    StoredAtOnce(limits, ops, states, i);
    RunsAreJustified(limits, ops, states, i + 1);
    forall g | g in l.entries && g != ops[i].fingerprint
      ensures l.entries[g].createdAt < ops[i].now
    {
      OtherIsOlder(limits, ops, i, g, l.entries[g]);
    }
  }

  lemma OtherIsOlder(limits: Limits, ops: seq<Op>, i: nat, g: string, e: Entry)
    requires AcceptedAt(limits, ops, i) && g != ops[i].fingerprint && EntryJustified(limits, ops, i + 1, g, e)
    requires forall j :: 0 <= j < i && AcceptedAt(limits, ops, j)
                         && ops[j].response.policyRevision == ops[i].response.policyRevision
                         ==> ops[j].now < ops[i].now
    ensures e.createdAt < ops[i].now
  {
    var j := StoringPut(limits, ops, i + 1, g, e);
    assert Highest(limits, ops, i + 1) == ops[i].response.policyRevision;
  }

  lemma StoringPut(limits: Limits, ops: seq<Op>, n: nat, g: string, e: Entry) returns (j: nat)
    requires n <= |ops| && EntryJustified(limits, ops, n, g, e)
    ensures j < n && AcceptedFor(limits, ops, j, g) && ops[j].response.policyRevision == Highest(limits, ops, n)
    ensures e == PutEntry(limits, ops[j])
  {
    j :| LatestFor(limits, ops, n, g, j) && e == PutEntry(limits, ops[j])
         && ops[j].response.policyRevision == Highest(limits, ops, n);
  }

  /** A retained decision is the answer to the next lookup of its fingerprint exactly
      until it expires. */
  lemma RetainedDenyIsServed(limits: Limits, ops: seq<Op>, states: seq<Ledger>, i: nat, n: nat)
    requires IsRun(limits, ops, states) && i < n < |ops| && AcceptedAt(limits, ops, i)
    requires Newest(states[i + 1], ops[i].fingerprint) && Undisturbed(limits, ops, i, n)
    requires ops[n].Get? && ops[n].fingerprint == ops[i].fingerprint
    ensures ops[n].hit == if ops[n].now < ops[i].now + Ttl(limits, ops[i].response.cacheTTLMS)
                          then Some(ops[i].response.(requestID := ops[n].requestID)) else None
  {
    AcceptedDenyIsRetained(limits, ops, states, i, n);
    assert StepAt(limits, ops, states, n);
  }

  /** The same when only the sweeping operations in between are known to be stamped no
      later than the lookup: then the lookup's own time alone decides. */
  lemma RetentionUnderOrderedSweeps(limits: Limits, ops: seq<Op>, states: seq<Ledger>, i: nat, n: nat)
    requires IsRun(limits, ops, states) && i < n < |ops| && AcceptedAt(limits, ops, i)
    requires ops[n].Get? && ops[n].fingerprint == ops[i].fingerprint
    requires forall k :: i < k < n && Sweeps(limits, ops, k, ops[i].fingerprint) ==> ops[k].now <= ops[n].now
    requires Newest(states[i + 1], ops[i].fingerprint)
    requires forall k :: i < k < n ==> !AcceptedFor(limits, ops, k, ops[i].fingerprint)
    requires Highest(limits, ops, n) == ops[i].response.policyRevision
    requires |OthersAccepted(limits, ops, i, n, ops[i].fingerprint)| < limits.maximumEntries
    ensures ops[n].hit.Some? <==> ops[n].now < ops[i].now + Ttl(limits, ops[i].response.cacheTTLMS)
  {
    if ops[n].now < PutEntry(limits, ops[i]).expiresAt {
      RetainedDenyIsServed(limits, ops, states, i, n);
    }
    if ops[n].hit.Some? {
      HitIsLatestAcceptedDeny(limits, ops, states, n);
      var j :| LatestFor(limits, ops, n, ops[n].fingerprint, j)
               && ops[n].now < ops[j].now + Ttl(limits, ops[j].response.cacheTTLMS);
      assert AcceptedFor(limits, ops, j, ops[i].fingerprint) && AcceptedFor(limits, ops, i, ops[i].fingerprint);
      assert j == i;
    }
  }

  /** The conditions of retention can be met: any authorized answer meets them at once. */
  lemma RetentionCanHappen(limits: Limits, f: string, r: EvaluationResponse, now: Time)
    requires Authorized(limits, r)
    ensures var ops := [Put(f, r, now)];
            exists states :: IsRun(limits, ops, states) && AcceptedAt(limits, ops, 0)
                             && Newest(states[1], f) && Undisturbed(limits, ops, 0, 1)
  {
    var ops, l := [Put(f, r, now)], Ledger(map[f := EntryFor(limits, r, now)], r.policyRevision);
    assert Base(EMPTY, r, now) == map[];
    assert PutStep(limits, EMPTY, f, r, now, l);
    var states := [EMPTY, l];
    assert StepAt(limits, ops, states, 0);
    assert Highest(limits, ops, 0) == 0 && Highest(limits, ops, 1) == r.policyRevision;
    assert OthersAccepted(limits, ops, 0, 1, f) == {};
    assert IsRun(limits, ops, states);
  }

  // ---------------------------------------------------------------------
  // Crowded out
  // ---------------------------------------------------------------------

  /** The decisions other than f created no earlier than it. */
  ghost function Rivals(l: Ledger, f: string): set<string>
    requires f in l.entries
  {
    set g | g in l.entries && g != f && l.entries[g].createdAt >= l.entries[f].createdAt
  }

  /** What the continuation inserts: the very answer that is to be crowded out, under other
      fingerprints and the same stamp. */
  ghost predicate Inserting(limits: Limits, l0: Ledger, f: string, r: EvaluationResponse, now: Time) {
    && Authorized(limits, r) && r.policyRevision == l0.revision
    && f in l0.entries && l0.entries[f] == EntryFor(limits, r, now)
    && forall g :: g in l0.entries ==> l0.entries[g].createdAt < l0.entries[g].expiresAt
  }

  /** The decisions created at the stamp of the insertions or later. */
  ghost predicate Guarded(limits: Limits, l0: Ledger, kept: set<string>, r: EvaluationResponse, now: Time) {
    && Authorized(limits, r) && r.policyRevision == l0.revision && kept <= l0.entries.Keys
    && (forall g :: g in kept ==> now <= l0.entries[g].createdAt < l0.entries[g].expiresAt)
    && forall g :: g in l0.entries && g !in kept ==> l0.entries[g].createdAt < now
  }

  lemma RivalsAreGuarded(limits: Limits, l0: Ledger, f: string, r: EvaluationResponse, now: Time)
    requires Inserting(limits, l0, f, r, now)
    ensures Guarded(limits, l0, {f} + Rivals(l0, f), r, now)
  {}

  /** Those decisions and the names inserted so far are there; anything else was there
      before. */
  ghost predicate Filled(limits: Limits, l0: Ledger, kept: set<string>, e: Entry, names: set<string>, l: Ledger) {
    && l.revision == l0.revision && |l.entries| <= limits.maximumEntries
    && kept + names <= l.entries.Keys
    && (forall g :: g in l.entries && g in names ==> l.entries[g] == e)
    && (forall g :: g in l.entries && g !in names ==> g in l0.entries && l.entries[g] == l0.entries[g])
  }

  lemma ProtectedAreLive(limits: Limits, l0: Ledger, kept: set<string>, r: EvaluationResponse, now: Time,
                         names: set<string>, l: Ledger)
    requires Guarded(limits, l0, kept, r, now) && Filled(limits, l0, kept, EntryFor(limits, r, now), names, l)
    ensures kept + names <= Live(l.entries, now).Keys
    ensures forall g :: g in l.entries && g in kept + names ==> l.entries[g].createdAt >= now
    ensures forall g :: g in l.entries && g !in kept + names ==> l.entries[g].createdAt < now
  {}

  /** While a place is left beside the protected ones, one more name can be inserted
      without touching them. */
  lemma FillStep(limits: Limits, l0: Ledger, kept: set<string>, r: EvaluationResponse, now: Time,
                 names: set<string>, l: Ledger, x: string) returns (l': Ledger)
    requires Guarded(limits, l0, kept, r, now) && Filled(limits, l0, kept, EntryFor(limits, r, now), names, l)
    requires x !in l0.entries && x !in names && |kept + names| < limits.maximumEntries
    ensures PutStep(limits, l, x, r, now, l')
    ensures Filled(limits, l0, kept, EntryFor(limits, r, now), names + {x}, l')
  {
    ProtectedAreLive(limits, l0, kept, r, now, names, l);
    var entries := MakePlace(limits, Live(l.entries, now), kept + names, x, EntryFor(limits, r, now), now);
    l' := Ledger(entries, r.policyRevision);
    StepKeepsSize(limits, l, Put(x, r, now), l');
    FilledMore(limits, l0, kept, EntryFor(limits, r, now), names, l, x, l');
  }

  lemma FilledMore(limits: Limits, l0: Ledger, kept: set<string>, e: Entry, names: set<string>, l: Ledger,
                   x: string, l': Ledger)
    requires Filled(limits, l0, kept, e, names, l)
    requires l'.revision == l.revision && |l'.entries| <= limits.maximumEntries
    requires kept + names + {x} <= l'.entries.Keys && l'.entries[x] == e
    requires forall g :: g in l'.entries && g != x ==> g in l.entries && l'.entries[g] == l.entries[g]
    ensures Filled(limits, l0, kept, e, names + {x}, l')
  {}

  /** When all that is kept is newer than anything else, an insertion may spare it. */
  lemma MakePlace(limits: Limits, base: map<string, Entry>, kept: set<string>, x: string, e: Entry, now: Time)
    returns (after: map<string, Entry>)
    requires kept <= base.Keys && |kept| < limits.maximumEntries && x !in base
    requires forall g :: g in kept ==> base[g].createdAt >= now
    requires forall g :: g in base && g !in kept ==> base[g].createdAt < now
    ensures Inserted(limits, base, x, e, after)
    ensures kept + {x} <= after.Keys && after[x] == e
    ensures forall g :: g in after && g != x ==> g in base && after[g] == base[g]
  {
    if Evicts(base, x, limits) {
      OutsiderExists(base.Keys, kept);
      var victim := OldestExists(base);
      after := (base - {victim})[x := e];
    } else {
      after := base[x := e];
    }
  }

  lemma OutsiderExists(all: set<string>, kept: set<string>)
    requires kept <= all && |kept| < |all|
    ensures exists g :: g in all && g !in kept
  {
    assert all == kept + (all - kept);
    var g :| g in all - kept;
  }

  /** Once the protected ones fill the cache, the next insertion may evict the decision. */
  lemma LastStep(limits: Limits, l0: Ledger, kept: set<string>, f: string, r: EvaluationResponse, now: Time,
                 names: set<string>, l: Ledger, x: string) returns (l': Ledger)
    requires Guarded(limits, l0, kept, r, now) && Filled(limits, l0, kept, EntryFor(limits, r, now), names, l)
    requires f in kept && f !in names && l0.entries[f].createdAt == now
    requires x !in l0.entries && x !in names && |kept + names| == limits.maximumEntries
    ensures PutStep(limits, l, x, r, now, l') && f !in l'.entries
  {
    ProtectedAreLive(limits, l0, kept, r, now, names, l);
    var base, e := Live(l.entries, now), EntryFor(limits, r, now);
    SubmapSize(base, l.entries);
    SameSizeSubset(kept + names, l.entries.Keys);
    SubsetSize(kept + names, base.Keys);
    assert Oldest(base, f);
    l' := Ledger((base - {f})[x := e], r.policyRevision);
    assert Inserted(limits, base, x, e, l'.entries);
  }

  ghost predicate Newcomers(l0: Ledger, crowd: seq<string>) {
    && (forall j :: 0 <= j < |crowd| ==> crowd[j] !in l0.entries)
    && forall j, k :: 0 <= j < k < |crowd| ==> crowd[j] != crowd[k]
  }

  /** The first n names of the crowd. */
  ghost function Names(crowd: seq<string>, n: nat): (r: set<string>)
    requires n <= |crowd|
    ensures |r| <= n
  {
    if n == 0 then {} else Names(crowd, n - 1) + {crowd[n - 1]}
  }

  lemma {:induction false} NamesAreFirst(crowd: seq<string>, n: nat)
    requires n <= |crowd|
    ensures forall x :: x in Names(crowd, n) <==> exists k :: 0 <= k < n && crowd[k] == x
  {
    if n > 0 {
      NamesAreFirst(crowd, n - 1);
    }
  }

  /** The states of the continuation. */
  ghost predicate Inserts(limits: Limits, r: EvaluationResponse, now: Time, crowd: seq<string>,
                          ls: seq<Ledger>, k: nat) {
    k <= |crowd| && |ls| == k + 1 && forall j :: 0 <= j < k ==> InsertAt(limits, r, now, crowd, ls, j)
  }

  ghost predicate InsertAt(limits: Limits, r: EvaluationResponse, now: Time, crowd: seq<string>,
                           ls: seq<Ledger>, j: int) {
    0 <= j < |crowd| && j + 1 < |ls| && PutStep(limits, ls[j], crowd[j], r, now, ls[j + 1])
  }

  lemma {:induction false} FillUp(limits: Limits, l0: Ledger, kept: set<string>, r: EvaluationResponse, now: Time,
                                  crowd: seq<string>, k: nat) returns (ls: seq<Ledger>)
    requires Guarded(limits, l0, kept, r, now) && |l0.entries| <= limits.maximumEntries && Newcomers(l0, crowd)
    requires k < |crowd| && |kept| + k <= limits.maximumEntries
    ensures Inserts(limits, r, now, crowd, ls, k) && ls[0] == l0
    ensures Filled(limits, l0, kept, EntryFor(limits, r, now), Names(crowd, k), ls[k])
    decreases k
  {
    if k == 0 {
      ls := FillNone(limits, l0, kept, r, now, crowd);
    } else {
      var before := FillUp(limits, l0, kept, r, now, crowd, k - 1);
      ls := FillOn(limits, l0, kept, r, now, crowd, k, before);
    }
  }

  lemma FillNone(limits: Limits, l0: Ledger, kept: set<string>, r: EvaluationResponse, now: Time,
                 crowd: seq<string>) returns (ls: seq<Ledger>)
    requires Guarded(limits, l0, kept, r, now) && |l0.entries| <= limits.maximumEntries
    ensures Inserts(limits, r, now, crowd, ls, 0) && ls[0] == l0
    ensures Filled(limits, l0, kept, EntryFor(limits, r, now), Names(crowd, 0), ls[0])
  {
    ls := [l0];
  }

  lemma FillOn(limits: Limits, l0: Ledger, kept: set<string>, r: EvaluationResponse, now: Time,
               crowd: seq<string>, k: nat, before: seq<Ledger>) returns (ls: seq<Ledger>)
    requires Guarded(limits, l0, kept, r, now) && Newcomers(l0, crowd) && 0 < k <= |crowd|
    requires |kept| + k <= limits.maximumEntries
    requires Inserts(limits, r, now, crowd, before, k - 1) && before[0] == l0
    requires Filled(limits, l0, kept, EntryFor(limits, r, now), Names(crowd, k - 1), before[k - 1])
    ensures Inserts(limits, r, now, crowd, ls, k) && ls[0] == l0
    ensures Filled(limits, l0, kept, EntryFor(limits, r, now), Names(crowd, k), ls[k])
  {
    var l := FillNext(limits, l0, kept, r, now, crowd, k, before[k - 1]);
    MoreInserts(limits, r, now, crowd, before, k, l);
    ls := before + [l];
  }

  lemma FillNext(limits: Limits, l0: Ledger, kept: set<string>, r: EvaluationResponse, now: Time,
                 crowd: seq<string>, k: nat, l: Ledger) returns (l': Ledger)
    requires Guarded(limits, l0, kept, r, now) && Newcomers(l0, crowd) && 0 < k <= |crowd|
    requires |kept| + k <= limits.maximumEntries
    requires Filled(limits, l0, kept, EntryFor(limits, r, now), Names(crowd, k - 1), l)
    ensures PutStep(limits, l, crowd[k - 1], r, now, l')
    ensures Filled(limits, l0, kept, EntryFor(limits, r, now), Names(crowd, k), l')
  {
    SumOfSizes(kept, Names(crowd, k - 1));
    NamesGrow(crowd, k - 1);
    l' := FillStep(limits, l0, kept, r, now, Names(crowd, k - 1), l, crowd[k - 1]);
  }

  lemma NamesGrow(crowd: seq<string>, k: nat)
    requires k < |crowd| && forall i, j :: 0 <= i < j < |crowd| ==> crowd[i] != crowd[j]
    ensures Names(crowd, k + 1) == Names(crowd, k) + {crowd[k]} && crowd[k] !in Names(crowd, k)
  {
    NamesAreFirst(crowd, k);
  }

  lemma SumOfSizes(a: set<string>, b: set<string>)
    ensures |a + b| <= |a| + |b|
  {
    assert |a + b| == |a| + |b| - |a * b|;
  }

  lemma MoreInserts(limits: Limits, r: EvaluationResponse, now: Time, crowd: seq<string>,
                    ls: seq<Ledger>, k: nat, l: Ledger)
    requires 0 < k <= |crowd| && Inserts(limits, r, now, crowd, ls, k - 1)
    requires PutStep(limits, ls[k - 1], crowd[k - 1], r, now, l)
    ensures Inserts(limits, r, now, crowd, ls + [l], k)
  {
    forall j | 0 <= j < k ensures InsertAt(limits, r, now, crowd, ls + [l], j) {
      if j < k - 1 {
        assert InsertAt(limits, r, now, crowd, ls, j);
      }
    }
  }

  /** As many insertions as the cache has places, less one for every rival, crowd the
      decision out. */
  lemma CrowdOut(limits: Limits, l0: Ledger, f: string, r: EvaluationResponse, now: Time, crowd: seq<string>)
    returns (ls: seq<Ledger>)
    requires Inserting(limits, l0, f, r, now) && |l0.entries| <= limits.maximumEntries && Newcomers(l0, crowd)
    requires |crowd| + |Rivals(l0, f)| == limits.maximumEntries && crowd != []
    ensures Inserts(limits, r, now, crowd, ls, |crowd|) && ls[0] == l0 && f !in ls[|crowd|].entries
  {
    var k, kept := |crowd| - 1, {f} + Rivals(l0, f);
    RivalsAreGuarded(limits, l0, f, r, now);
    ProtectedSize(l0, f, crowd, 0);
    var before := FillUp(limits, l0, kept, r, now, crowd, k);
    ProtectedSize(l0, f, crowd, k);
    NamesGrow(crowd, k);
    var l := LastStep(limits, l0, kept, f, r, now, Names(crowd, k), before[k], crowd[k]);
    MoreInserts(limits, r, now, crowd, before, k + 1, l);
    ls := before + [l];
  }

  lemma ProtectedSize(l0: Ledger, f: string, crowd: seq<string>, k: nat)
    requires f in l0.entries && Newcomers(l0, crowd) && k <= |crowd|
    ensures |{f} + Rivals(l0, f) + Names(crowd, k)| == 1 + |Rivals(l0, f)| + k
  {
    NamesSize(crowd, k);
    NamesAreFirst(crowd, k);
    assert ({f} + Rivals(l0, f)) * Names(crowd, k) == {};
  }

  lemma OneMoreName(names: set<string>, x: string)
    requires x !in names
    ensures |names + {x}| == |names| + 1
  {}

  lemma {:induction false} NamesSize(crowd: seq<string>, k: nat)
    requires k <= |crowd| && forall i, j :: 0 <= i < j < |crowd| ==> crowd[i] != crowd[j]
    ensures |Names(crowd, k)| == k
  {
    if k > 0 {
      NamesSize(crowd, k - 1);
      NamesGrow(crowd, k - 1);
      OneMoreName(Names(crowd, k - 1), crowd[k - 1]);
    }
  }

  // ---------------------------------------------------------------------
  // Exactly when
  // ---------------------------------------------------------------------

  /** A continuation of the run in which nothing disturbs the last decision. */
  ghost predicate Calm(limits: Limits, ops: seq<Op>, states: seq<Ledger>, ops': seq<Op>, states': seq<Ledger>)
    requires ops != []
  {
    && IsRun(limits, ops', states') && ops <= ops' && states <= states'
    && AcceptedAt(limits, ops', |ops| - 1) && Undisturbed(limits, ops', |ops| - 1, |ops'|)
  }

  /** The continuations that insert the same answer under fresh fingerprints. */
  ghost function Puts(crowd: seq<string>, r: EvaluationResponse, now: Time): (p: seq<Op>)
    ensures |p| == |crowd| && forall k :: 0 <= k < |p| ==> p[k] == Put(crowd[k], r, now)
  {
    seq(|crowd|, k requires 0 <= k < |crowd| => Put(crowd[k], r, now))
  }

  lemma {:induction false} HighestOfPrefix(limits: Limits, ops: seq<Op>, ops': seq<Op>, n: nat)
    requires ops <= ops' && n <= |ops|
    ensures Highest(limits, ops', n) == Highest(limits, ops, n)
  {
    if n > 0 {
      HighestOfPrefix(limits, ops, ops', n - 1);
      assert ops'[n - 1] == ops[n - 1];
    }
  }

  lemma {:induction false} HighestOfSame(limits: Limits, ops: seq<Op>, i: nat, n: nat)
    requires i < n <= |ops| && AcceptedAt(limits, ops, i)
    requires forall k :: i < k < n ==> ops[k].Put? && ops[k].response == ops[i].response
    ensures Highest(limits, ops, n) == ops[i].response.policyRevision
  {
    if i + 1 < n {
      HighestOfSame(limits, ops, i, n - 1);
    }
  }

  lemma RunContinues(limits: Limits, ops: seq<Op>, states: seq<Ledger>, crowd: seq<string>,
                     r: EvaluationResponse, now: Time, ls: seq<Ledger>)
    requires IsRun(limits, ops, states) && Inserts(limits, r, now, crowd, ls, |crowd|) && ls[0] == states[|ops|]
    ensures IsRun(limits, ops + Puts(crowd, r, now), states + ls[1..])
  {
    var ops', states' := ops + Puts(crowd, r, now), states + ls[1..];
    forall k | 0 <= k < |ops'| ensures StepAt(limits, ops', states', k) {
      if k < |ops| {
        assert StepAt(limits, ops, states, k);
      } else {
        assert InsertAt(limits, r, now, crowd, ls, k - |ops|);
        InsertionIsStep(limits, ops, states, crowd, r, now, ls, k - |ops|);
      }
    }
  }

  lemma InsertionIsStep(limits: Limits, ops: seq<Op>, states: seq<Ledger>, crowd: seq<string>,
                        r: EvaluationResponse, now: Time, ls: seq<Ledger>, j: nat)
    requires |states| == |ops| + 1 && |ls| == |crowd| + 1 && ls[0] == states[|ops|]
    requires InsertAt(limits, r, now, crowd, ls, j)
    ensures StepAt(limits, ops + Puts(crowd, r, now), states + ls[1..], |ops| + j)
  {
    var ops', states' := ops + Puts(crowd, r, now), states + ls[1..];
    assert ops'[|ops| + j] == Put(crowd[j], r, now);
    assert states'[|ops| + j] == ls[j] && states'[|ops| + j + 1] == ls[j + 1];
  }

  lemma InsertionsAreCalm(limits: Limits, ops: seq<Op>, crowd: seq<string>)
    requires ops != [] && AcceptedAt(limits, ops, |ops| - 1)
    requires ops[|ops| - 1].fingerprint !in crowd && |crowd| < limits.maximumEntries
    ensures var i, ops' := |ops| - 1, ops + Puts(crowd, ops[|ops| - 1].response, ops[|ops| - 1].now);
            AcceptedAt(limits, ops', i) && Undisturbed(limits, ops', i, |ops'|)
  {
    var i, ops' := |ops| - 1, ops + Puts(crowd, ops[|ops| - 1].response, ops[|ops| - 1].now);
    var f := ops[i].fingerprint;
    HighestOfPrefix(limits, ops, ops', i);
    assert ops'[i] == ops[i];
    HighestOfSame(limits, ops', i, |ops'|);
    NamesAreFirst(crowd, |crowd|);
    forall k | i < k < |ops'| ensures ops'[k].fingerprint in Names(crowd, |crowd|) && ops'[k].fingerprint != f {
      assert ops'[k] == Puts(crowd, ops[i].response, ops[i].now)[k - |ops|];
    }
    OthersComeFrom(limits, ops', i, |ops'|, f, Names(crowd, |crowd|));
    SubsetSize(OthersAccepted(limits, ops', i, |ops'|, f), Names(crowd, |crowd|));
  }

  lemma {:induction false} OthersComeFrom(limits: Limits, ops: seq<Op>, i: nat, n: nat, f: string, names: set<string>)
    requires n <= |ops| && forall k :: i < k < n ==> ops[k].fingerprint in names
    ensures OthersAccepted(limits, ops, i, n, f) <= names
    decreases n
  {
    if i + 1 < n {
      OthersComeFrom(limits, ops, i, n - 1, f, names);
    }
  }

  lemma {:induction false} NewName(taken: set<string>) returns (x: string, bound: nat)
    ensures x !in taken && |x| == bound + 1 && forall y :: y in taken ==> |y| <= bound
  {
    if taken == {} {
      x, bound := "x", 0;
    } else {
      var y :| y in taken;
      var z, b := NewName(taken - {y});
      bound := if |y| > b then |y| else b;
      x := seq(bound + 1, k => 'x');
    }
  }

  lemma {:induction false} NewNames(l: Ledger, n: nat) returns (crowd: seq<string>)
    ensures |crowd| == n && Newcomers(l, crowd)
  {
    if n == 0 {
      crowd := [];
    } else {
      var before := NewNames(l, n - 1);
      var x, b := NewName(l.entries.Keys + Names(before, |before|));
      OneMoreNewcomer(l, before, x);
      crowd := before + [x];
    }
  }

  lemma OneMoreNewcomer(l: Ledger, crowd: seq<string>, x: string)
    requires Newcomers(l, crowd) && x !in l.entries && x !in Names(crowd, |crowd|)
    ensures Newcomers(l, crowd + [x])
  {
    NamesAreFirst(crowd, |crowd|);
  }

  /** A decision with a rival as new as itself has a calm continuation that drops it. */
  lemma RivalsCrowdOut(limits: Limits, ops: seq<Op>, states: seq<Ledger>)
    returns (ops': seq<Op>, states': seq<Ledger>)
    requires IsRun(limits, ops, states) && ops != [] && AcceptedAt(limits, ops, |ops| - 1)
    requires !Newest(states[|ops|], ops[|ops| - 1].fingerprint)
    ensures Calm(limits, ops, states, ops', states') && ops[|ops| - 1].fingerprint !in states'[|ops'|].entries
  {
    var op, l := ops[|ops| - 1], states[|ops|];
    var crowd := EnoughNewcomers(limits, ops, states);
    LastIsInserting(limits, ops, states);
    ReachableLedgers(limits, ops, states, |ops|);
    var ls := CrowdOut(limits, l, op.fingerprint, op.response, op.now, crowd);
    RunContinues(limits, ops, states, crowd, op.response, op.now, ls);
    InsertionsAreCalm(limits, ops, crowd);
    ops', states' := ops + Puts(crowd, op.response, op.now), states + ls[1..];
    assert states'[|ops'|] == ls[|crowd|];
  }

  lemma EnoughNewcomers(limits: Limits, ops: seq<Op>, states: seq<Ledger>) returns (crowd: seq<string>)
    requires IsRun(limits, ops, states) && ops != [] && AcceptedAt(limits, ops, |ops| - 1)
    requires !Newest(states[|ops|], ops[|ops| - 1].fingerprint)
    ensures var f, l := ops[|ops| - 1].fingerprint, states[|ops|];
            && Newcomers(l, crowd) && f in l.entries && |crowd| + |Rivals(l, f)| == limits.maximumEntries
            && 0 < |crowd| < limits.maximumEntries && f !in crowd
  {
    var f, l := ops[|ops| - 1].fingerprint, states[|ops|];
    StoredAtOnce(limits, ops, states, |ops| - 1);
    ReachableLedgers(limits, ops, states, |ops|);
    RivalsHaveRoom(l, f);
    crowd := NewNames(l, limits.maximumEntries - |Rivals(l, f)|);
  }

  lemma RivalsHaveRoom(l: Ledger, f: string)
    requires f in l.entries && !Newest(l, f)
    ensures 0 < |Rivals(l, f)| < |l.entries|
  {
    var g :| g in l.entries && g != f && !(l.entries[g].createdAt < l.entries[f].createdAt);
    assert g in Rivals(l, f);
    assert |{f} + Rivals(l, f)| == 1 + |Rivals(l, f)|;
    SubsetSize({f} + Rivals(l, f), l.entries.Keys);
  }

  lemma LastIsInserting(limits: Limits, ops: seq<Op>, states: seq<Ledger>)
    requires IsRun(limits, ops, states) && ops != [] && AcceptedAt(limits, ops, |ops| - 1)
    ensures var op := ops[|ops| - 1];
            Inserting(limits, states[|ops|], op.fingerprint, op.response, op.now)
  {
    var l := states[|ops|];
    StoredAtOnce(limits, ops, states, |ops| - 1);
    RunsAreJustified(limits, ops, states, |ops|);
    forall g | g in l.entries ensures l.entries[g].createdAt < l.entries[g].expiresAt {
      var j := StoringPut(limits, ops, |ops|, g, l.entries[g]);
    }
  }

  /** Exactly when a decision is safe: it outlasts every calm continuation, one with fewer
      than maximumEntries other fingerprints accepted, if and only if every other decision
      stored when it came was created earlier. */
  lemma RetainedExactlyIfNewest(limits: Limits, ops: seq<Op>, states: seq<Ledger>)
    requires IsRun(limits, ops, states) && ops != [] && AcceptedAt(limits, ops, |ops| - 1)
    ensures var op := ops[|ops| - 1];
            Newest(states[|ops|], op.fingerprint) <==>
            forall ops', states' :: Calm(limits, ops, states, ops', states') ==>
              Holds(states'[|ops'|], op.fingerprint, PutEntry(limits, op))
  {
    var op := ops[|ops| - 1];
    if Newest(states[|ops|], op.fingerprint) {
      forall ops', states' | Calm(limits, ops, states, ops', states')
        ensures Holds(states'[|ops'|], op.fingerprint, PutEntry(limits, op))
      {
        AcceptedDenyIsRetained(limits, ops', states', |ops| - 1, |ops'|);
      }
    } else {
      var ops', states' := RivalsCrowdOut(limits, ops, states);
    }
  }

  /** One such continuation in full: in a cache of two places filled by decisions stamped
      alike, a third insertion may take the place of the later accepted one. */
  lemma TiedTimesMayEvictTheNewer(limits: Limits, f: string, g: string, h: string, r: EvaluationResponse, now: Time)
    requires limits.maximumEntries == 2 && Authorized(limits, r) && f != g && g != h && f != h
    ensures var e := EntryFor(limits, r, now);
            var full := Ledger(map[f := e, g := e], r.policyRevision);
            && PutStep(limits, EMPTY, f, r, now, Ledger(map[f := e], r.policyRevision))
            && PutStep(limits, Ledger(map[f := e], r.policyRevision), g, r, now, full)
            && PutStep(limits, full, h, r, now, Ledger(map[f := e, h := e], r.policyRevision))
  {
    var e, rev := EntryFor(limits, r, now), r.policyRevision;
    var one, two := map[f := e], map[f := e, g := e];
    assert Base(EMPTY, r, now) == map[];
    assert Base(Ledger(one, rev), r, now) == one && one[g := e] == two;
    assert Base(Ledger(two, rev), r, now) == two && two - {g} == one;
    assert |two| == 2 by {
      assert two.Keys == {f, g};
    }
    assert Oldest(two, g);
    assert (two - {g})[h := e] == map[f := e, h := e];
  }
}

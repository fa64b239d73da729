/** What holds whatever the interleaving, the timestamps and the Agent. */
module PipelineResults {
  import opened Agent
  import opened CacheKey
  import opened CacheRuns
  import opened CircuitBreakers
  import opened Pipeline
  import opened Retention

  /** Each request performs exactly one terminal action, at its end and never before. */
  lemma ExactlyOneTerminalAction(cfg: Config, s: System, id: nat)
    requires Reachable(cfg, s)
    ensures |ActionsOf(s.log, id)| == (if id in s.flights && s.flights[id].phase == Done then 1 else 0)
  {
    ReachableInv(cfg, s);
    if id in s.flights {
      assert FlightOk(cfg, s, id);
    }
  }

  /** Whatever is done for a request is what it has earned: it goes on only for an allow,
      an observe or a failure mode, it is denied only by its own validated answer or by the
      hit of its own lookup, and it fails only with the status and reason of what happened
      to it. A hit was the Agent's validated answer to some request with the same key. */
  lemma EveryActionIsEarned(cfg: Config, s: System, id: nat, t: Terminal)
    requires Reachable(cfg, s) && t in ActionsOf(s.log, id)
    ensures id in s.flights && Earned(cfg, s.ops, s.events, s.flights[id], t)
    ensures forall r :: Hit(cfg, s.ops, s.flights[id], r) ==>
              exists source :: AnsweredFor(cfg, s, Key(cfg, s.flights[id]), source, r)
  {
    ActionIsEarned(cfg, s, id, t);
    forall r | Hit(cfg, s.ops, s.flights[id], r)
      ensures exists source :: AnsweredFor(cfg, s, Key(cfg, s.flights[id]), source, r)
    {
      var source := HitHasSource(cfg, s, s.flights[id].lookup.value);
    }
  }

  lemma ActionIsEarned(cfg: Config, s: System, id: nat, t: Terminal)
    requires Reachable(cfg, s) && t in ActionsOf(s.log, id)
    ensures id in s.flights && Earned(cfg, s.ops, s.events, s.flights[id], t)
  {
    ReachableInv(cfg, s);
    if id in s.flights {
      assert FlightOk(cfg, s, id);
    }
  }

  /** This request has the key, and r is its validated answer up to the request ID. */
  ghost predicate AnsweredFor(cfg: Config, s: System, f: string, source: nat, r: EvaluationResponse) {
    && source in s.flights && s.flights[source].intake.Evaluate? && Key(cfg, s.flights[source]) == f
    && Validated(s.flights[source], r.(requestID := s.flights[source].intake.input.requestID))
  }

  /** Every hit ever given repeats the Agent's validated deny to some request with the same
      key, of the highest revision accepted by then, within that answer's lifetime. */
  lemma HitHasSource(cfg: Config, s: System, k: nat) returns (source: nat)
    requires Reachable(cfg, s) && k < |s.ops| && s.ops[k].Get? && s.ops[k].hit.Some?
    ensures AnsweredFor(cfg, s, s.ops[k].fingerprint, source, s.ops[k].hit.value)
    ensures s.ops[k].hit.value.requestID == s.ops[k].requestID
    ensures s.ops[k].hit.value.decision in {Decision.Block, Decision.RateLimit}
    ensures s.ops[k].hit.value.policyRevision == Highest(cfg.limits, s.ops, k)
    ensures s.ops[k].now < s.flights[source].now + Ttl(cfg.limits, s.ops[k].hit.value.cacheTTLMS)
  {
    HistoriesOf(cfg, s);
    var i := HitIsAPut(cfg, s.ops, s.ledgers, k);
    source := SourceOfPut(cfg, s, i);
    assert s.ops[k].hit.value.(requestID := s.flights[source].intake.input.requestID) == s.ops[i].response;
  }

  lemma HitIsAPut(cfg: Config, ops: seq<Op>, ledgers: seq<Ledger>, k: nat) returns (i: nat)
    requires IsRun(cfg.limits, ops, ledgers) && k < |ops| && ops[k].Get? && ops[k].hit.Some?
    ensures i < k && ops[i].Put? && ops[i].fingerprint == ops[k].fingerprint
    ensures ops[k].hit.value == ops[i].response.(requestID := ops[k].requestID)
    ensures ops[i].response.policyRevision == Highest(cfg.limits, ops, k)
    ensures ops[k].now < ops[i].now + Ttl(cfg.limits, ops[i].response.cacheTTLMS)
    ensures ops[i].response.decision in {Decision.Block, Decision.RateLimit}
  {
    HitIsLatestAcceptedDeny(cfg.limits, ops, ledgers, k);
    i :| && LatestFor(cfg.limits, ops, k, ops[k].fingerprint, i)
         && ops[k].hit.value == ops[i].response.(requestID := ops[k].requestID)
         && ops[i].response.policyRevision == Highest(cfg.limits, ops, k)
         && ops[k].now < ops[i].now + Ttl(cfg.limits, ops[i].response.cacheTTLMS)
         && ops[i].response.decision in {Decision.Block, Decision.RateLimit};
  }

  lemma SourceOfPut(cfg: Config, s: System, i: nat) returns (source: nat)
    requires Reachable(cfg, s) && i < |s.ops| && s.ops[i].Put?
    ensures source in s.flights && Validated(s.flights[source], s.ops[i].response)
    ensures s.ops[i].fingerprint == Key(cfg, s.flights[source]) && s.ops[i].now == s.flights[source].now
  {
    ReachableInv(cfg, s);
    assert PutHasSource(cfg, s, s.ops[i]);
    source :| source in s.flights && IsSource(cfg, s.flights[source], s.ops[i]);
  }

  /** Under explicitLocalDeny=deny a request goes on only if its own validated answer was
      allow or observe, or a failure that really happened to it met its own failure mode,
      set to "allow". In particular no cached and no forged decision lets it through. */
  lemma DownstreamNeedsAllowOrFailureMode(cfg: Config, s: System, id: nat)
    requires Reachable(cfg, s) && cfg.explicitLocalDeny == Deny
    requires Next in ActionsOf(s.log, id)
    ensures id in s.flights
    ensures var fl := s.flights[id];
            || (Admitted(cfg, s.ops, s.events, fl)
                && exists r :: Validated(fl, r) && r.decision in {Decision.Allow, Decision.Observe})
            || (FailureHappened(cfg, s.ops, s.events, fl, AgentUnavailable) && cfg.agentUnavailable == LetThrough)
            || (FailureHappened(cfg, s.ops, s.events, fl, AgentMalformed) && cfg.malformedResponse == LetThrough)
  {
    ActionIsEarned(cfg, s, id, Next);
  }

  /** With every mode set to deny, only the Agent's own allow or observe reaches the
      next handler. */
  lemma FailClosedMeansAgentApproved(cfg: Config, s: System, id: nat)
    requires Reachable(cfg, s)
    requires cfg.explicitLocalDeny == cfg.agentUnavailable == cfg.malformedResponse == Deny
    requires Next in ActionsOf(s.log, id)
    ensures id in s.flights
    ensures exists r :: Validated(s.flights[id], r) && r.decision in {Decision.Allow, Decision.Observe}
  {
    DownstreamNeedsAllowOrFailureMode(cfg, s, id);
  }

  /** handleDecision is only ever given one of its five named decisions: its default
      branch is unreachable. */
  lemma DefaultBranchIsUnreachable(cfg: Config, s: System, id: nat)
    requires Reachable(cfg, s)
    ensures InPhase(s, id, Storing) ==>
              s.flights[id].answer.Some? && s.flights[id].answer.value.Response?
              && s.flights[id].answer.value.response.decision in
                 {Decision.Allow, Decision.Observe, Decision.Block, Decision.Challenge, Decision.RateLimit}
    ensures InPhase(s, id, Captured) ==>
              var fl := s.flights[id];
              var hit := Lookup(cfg.limits, s.ledger, Key(cfg, fl), fl.intake.input.requestID, fl.now);
              hit.Some? ==> hit.value.decision in {Decision.Block, Decision.RateLimit}
  {
    ReachableInv(cfg, s);
    if InPhase(s, id, Captured) {
      var fl := s.flights[id];
      if Lookup(cfg.limits, s.ledger, Key(cfg, fl), fl.intake.input.requestID, fl.now).Some? {
        HitsAreDenies(cfg, s, Key(cfg, fl), fl.intake.input.requestID, fl.now);
      }
    }
    if InPhase(s, id, Storing) {
      assert FlightOk(cfg, s, id);
    }
  }

  /** Whom a hit answers: some request with the same nine fixed fields that the Agent
      denied, and, as far as both are free of NUL, the very same request if and only if
      the two carry the same flags, names and fields the key leaves out. */
  lemma CachedDecisionAnswersSameRequest(cfg: Config, s: System, id: nat, r: EvaluationResponse)
    requires ValidConfig(cfg) && Reachable(cfg, s) && id in s.flights && Hit(cfg, s.ops, s.flights[id], r)
    ensures exists source ::
              && AnsweredFor(cfg, s, Key(cfg, s.flights[id]), source, r)
              && SharesKey(s.flights[source].intake.input, s.flights[id].intake.input)
  {
    var source := HitHasSource(cfg, s, s.flights[id].lookup.value);
    EqualKeysShare(cfg, s.flights[source].intake.input, s.flights[id].intake.input);
  }

  ghost predicate SharesKey(a: EvaluationRequest, b: EvaluationRequest) {
    NulFreeRequest(a) && NulFreeRequest(b) ==>
      FixedParts(a) == FixedParts(b) && (SameRequest(a, b) <==> SameFlagsAndNames(a, b) && SameContext(a, b))
  }

  lemma EqualKeysShare(cfg: Config, a: EvaluationRequest, b: EvaluationRequest)
    requires ValidConfig(cfg) && Fingerprint(a, cfg.digest) == Fingerprint(b, cfg.digest)
    ensures SharesKey(a, b)
  {
    if NulFreeRequest(a) && NulFreeRequest(b) {
      FingerprintBindsFixedFields(a, b, cfg.digest);
      FingerprintBindsWholeRequest(a, b, cfg.digest);
    }
  }

  /** While a decision is retained, the next lookup of its fingerprint enforces it:
      neither the breaker nor the Agent is consulted. */
  lemma RetainedDenyIsEnforced(cfg: Config, s: System, id: nat, s': System, i: nat)
    requires Reachable(cfg, s) && cfg.explicitLocalDeny == Deny
    requires Pipeline.Step(cfg, s, LookUp(id), s')
    requires i < |s.ops| && AcceptedAt(cfg.limits, s.ops, i) && s.ops[i].fingerprint == Key(cfg, s.flights[id])
    requires i < |s.ledgers| - 1 && Newest(s.ledgers[i + 1], s.ops[i].fingerprint)
    requires Undisturbed(cfg.limits, s.ops, i, |s.ops|)
    requires s.flights[id].now < PutEntry(cfg.limits, s.ops[i]).expiresAt
    ensures s'.log == s.log + [(id, Enforced(s.ops[i].response.(requestID := s.flights[id].intake.input.requestID)))]
    ensures s'.flights[id].phase == Done && s'.breaker == s.breaker && s'.flights[id].answer == None
  {
    RetainedDenyIsFound(cfg, s, i, s.flights[id]);
    NothingAskedYet(cfg, s, id);
    DenyIsEnforced(cfg, s.ops[i].response, s.flights[id].intake.input.requestID);
  }

  lemma NothingAskedYet(cfg: Config, s: System, id: nat)
    requires Reachable(cfg, s) && InPhase(s, id, Captured)
    ensures s.flights[id].answer == None
  {
    ReachableInv(cfg, s);
    assert FlightOk(cfg, s, id);
  }

  lemma DenyIsEnforced(cfg: Config, r: EvaluationResponse, requestID: string)
    requires cfg.explicitLocalDeny == Deny && Authorized(cfg.limits, r)
    ensures HandleDecision(cfg, r.(requestID := requestID)) == Enforced(r.(requestID := requestID))
  {}

  lemma RetainedDenyIsFound(cfg: Config, s: System, i: nat, fl: Flight)
    requires Reachable(cfg, s) && fl.intake.Evaluate?
    requires i < |s.ops| && AcceptedAt(cfg.limits, s.ops, i) && s.ops[i].fingerprint == Key(cfg, fl)
    requires i < |s.ledgers| - 1 && Newest(s.ledgers[i + 1], s.ops[i].fingerprint)
    requires Undisturbed(cfg.limits, s.ops, i, |s.ops|)
    requires fl.now < PutEntry(cfg.limits, s.ops[i]).expiresAt
    ensures Lookup(cfg.limits, s.ledger, Key(cfg, fl), fl.intake.input.requestID, fl.now)
            == Some(s.ops[i].response.(requestID := fl.intake.input.requestID))
  {
    HistoriesOf(cfg, s);
    AcceptedDenyIsRetained(cfg.limits, s.ops, s.ledgers, i, |s.ops|);
  }

  lemma HistoriesOf(cfg: Config, s: System)
    requires Reachable(cfg, s)
    ensures HistoriesFit(cfg, s)
  {
    ReachableInv(cfg, s);
  }

  /** The breaker's probe mark always has a request behind it that has yet to report. */
  lemma ProbeMeansOutstandingRequest(cfg: Config, s: System)
    requires Reachable(cfg, s) && s.breaker.probe
    ensures exists id :: id in s.flights && Outstanding(s.flights[id])
  {
    ReachableInv(cfg, s);
  }

  /** So the breaker never wedges: with nobody outstanding, a request is admitted exactly
      when it is stamped at or after openUntil. */
  lemma BreakerNeverWedges(cfg: Config, s: System, now: Time)
    requires ValidConfig(cfg) && Reachable(cfg, s)
    requires forall id :: id in s.flights ==> !Outstanding(s.flights[id])
    ensures Admits(s.breaker, now) <==> now >= s.breaker.openUntil
  {
    ReachableInv(cfg, s);
    BreakerIsFoldOfHistory(cfg.settings, s.events);
  }

  /** In every reachable state the breaker's fields are the fold of what was reported. */
  lemma BreakerFollowsReports(cfg: Config, s: System)
    requires ValidConfig(cfg) && Reachable(cfg, s)
    ensures s.breaker.failures == |FailuresSinceSuccess(s.events)|
    ensures IsOpen(s.breaker) <==> |FailuresSinceSuccess(s.events)| >= cfg.settings.failureThreshold
    ensures IsOpen(s.breaker) ==>
              exists k :: LastFailure(s.events, k) && s.breaker.openUntil == s.events[k].now + cfg.settings.openDuration
    ensures s.breaker.probe <==> ProbePending(cfg.settings, s.events)
  {
    ReachableInv(cfg, s);
    BreakerIsFoldOfHistory(cfg.settings, s.events);
  }

  /** How many steps a request still needs at most. */
  function Rank(phase: Phase): nat {
    match phase
    case Captured => 5
    case Missed => 4
    case Asking => 3
    case Answered => 2
    case Storing => 1
    case Done => 0
  }

  /** This request has come closer to its end, and all others are where they were. */
  ghost predicate Closer(s: System, s': System, id: nat) {
    && id in s.flights && id in s'.flights && s'.flights == s.flights[id := s'.flights[id]]
    && Rank(s'.flights[id].phase) < Rank(s.flights[id].phase) <= 5
  }

  /** Every step of a request after its arrival brings it closer to its end, and leaves
      all others where they are. So a request takes at most five. */
  lemma EveryStepAdvances(cfg: Config, s: System, step: Label, s': System)
    requires Pipeline.Step(cfg, s, step, s') && !step.Arrive?
    ensures Closer(s, s', step.id)
  {
    match step
    case LookUp(id) => LookUpAdvances(cfg, s, id, s');
    case Ask(id) => AskAdvances(cfg, s, id, s');
    case AgentAnswers(id, answer) => AnswerAdvances(cfg, s, id, answer, s');
    case Report(id) => ReportAdvances(cfg, s, id, s');
    case Store(id) => StoreAdvances(cfg, s, id, s');
  }

  lemma LookUpAdvances(cfg: Config, s: System, id: nat, s': System)
    requires LookUpStep(cfg, s, id, s')
    ensures Closer(s, s', id)
  {
    var fl := s.flights[id].(lookup := Some(|s.ops|));
    if Lookup(cfg.limits, s.ledger, Key(cfg, fl), fl.intake.input.requestID, fl.now).Some? {
      assert s'.flights == s.flights[id := fl.(phase := Done)];
    } else {
      assert s'.flights == s.flights[id := fl.(phase := Missed)];
    }
  }

  lemma AskAdvances(cfg: Config, s: System, id: nat, s': System)
    requires AskStep(cfg, s, id, s')
    ensures Closer(s, s', id)
  {}

  lemma AnswerAdvances(cfg: Config, s: System, id: nat, answer: Answer, s': System)
    requires AnswerStep(cfg, s, id, answer, s')
    ensures Closer(s, s', id)
  {}

  lemma ReportAdvances(cfg: Config, s: System, id: nat, s': System)
    requires ReportStep(cfg, s, id, s')
    ensures Closer(s, s', id)
  {}

  lemma StoreAdvances(cfg: Config, s: System, id: nat, s': System)
    requires StoreStep(cfg, s, id, s')
    ensures Closer(s, s', id)
  {}

  /** No request is ever stuck: whatever the others do, an unfinished request has a step,
      and that step brings it closer to its end. */
  lemma EveryRequestCanFinish(cfg: Config, s: System, id: nat) returns (step: Label, s': System)
    requires ValidConfig(cfg) && Reachable(cfg, s)
    requires id in s.flights && s.flights[id].phase != Done
    ensures Pipeline.Step(cfg, s, step, s')
    ensures id in s'.flights && Rank(s'.flights[id].phase) < Rank(s.flights[id].phase)
    ensures forall other :: other in s.flights && other != id ==>
              other in s'.flights && s'.flights[other] == s.flights[other]
  {
    UnfinishedIsReady(cfg, s, id);
    step, s' := NextStep(cfg, s, id);
    EveryStepAdvances(cfg, s, step, s');
  }

  /** What the steps of an unfinished request ask for. */
  ghost predicate Ready(fl: Flight) {
    && fl.intake.Evaluate?
    && (fl.phase == Answered ==> fl.answer.Some?)
    && (fl.phase == Storing ==> fl.answer.Some? && fl.answer.value.Response?)
  }

  lemma UnfinishedIsReady(cfg: Config, s: System, id: nat)
    requires Reachable(cfg, s) && id in s.flights && s.flights[id].phase != Done
    ensures Ready(s.flights[id])
  {
    ReachableInv(cfg, s);
    assert FlightOk(cfg, s, id);
  }

  lemma NextStep(cfg: Config, s: System, id: nat) returns (step: Label, s': System)
    requires id in s.flights && s.flights[id].phase != Done && Ready(s.flights[id])
    ensures Pipeline.Step(cfg, s, step, s')
    ensures step.id == id && !step.Arrive?
  {
    var fl := s.flights[id];
    match fl.phase
    case Captured =>
      step, s' := LookUp(id), LookUpNow(cfg, s, id);
    case Missed =>
      step := Ask(id);
      s' := AskNow(cfg, s, id);
    case Asking =>
      step := AgentAnswers(id, Failed(AgentUnavailable));
      s' := AnswerNow(cfg, s, id);
    case Answered =>
      step, s' := Report(id), ReportNow(cfg, s, id);
    case Storing =>
      step := Store(id);
      s' := StoreNow(cfg, s, id);
  }

  ghost function LookUpNow(cfg: Config, s: System, id: nat): (s': System)
    requires InPhase(s, id, Captured)
    ensures LookUpStep(cfg, s, id, s')
    ensures s'.flights.Keys == s.flights.Keys && s'.flights[id].phase in {Missed, Done}
  {
    var fl := s.flights[id].(lookup := Some(|s.ops|));
    var f, requestID := Key(cfg, fl), fl.intake.input.requestID;
    var hit := Lookup(cfg.limits, s.ledger, f, requestID, fl.now);
    var entries := if Enabled(cfg.limits) && hit == None then s.ledger.entries - {f} else s.ledger.entries;
    var l := Ledger(entries, s.ledger.revision);
    var t := s.(ledger := l, ops := s.ops + [Op.Get(f, requestID, fl.now, hit)], ledgers := s.ledgers + [l]);
    if hit.Some? then Finish(t, id, fl, HandleDecision(cfg, hit.value)) else Advance(t, id, fl, Missed)
  }

  ghost function AskNow(cfg: Config, s: System, id: nat): (s': System)
    requires InPhase(s, id, Missed)
    ensures AskStep(cfg, s, id, s')
    ensures s'.flights.Keys == s.flights.Keys && s'.flights[id].phase in {Asking, Done}
  {
    var fl := s.flights[id].(asked := Some(|s.events|));
    var t := s.(breaker := AfterAllow(s.breaker, fl.now), events := s.events + [Event.Allow(fl.now)]);
    if Admits(s.breaker, fl.now) then Advance(t, id, fl, Asking)
    else Finish(t, id, fl, HandleFailure(cfg, AgentUnavailable))
  }

  ghost function AnswerNow(cfg: Config, s: System, id: nat): (s': System)
    requires InPhase(s, id, Asking)
    ensures AnswerStep(cfg, s, id, Failed(AgentUnavailable), s')
    ensures s'.flights.Keys == s.flights.Keys && s'.flights[id].phase == Answered
  {
    Advance(s, id, s.flights[id].(answer := Some(Failed(AgentUnavailable))), Answered)
  }

  ghost function ReportNow(cfg: Config, s: System, id: nat): (s': System)
    requires InPhase(s, id, Answered) && s.flights[id].answer.Some?
    ensures ReportStep(cfg, s, id, s')
    ensures s'.flights.Keys == s.flights.Keys && s'.flights[id].phase in {Storing, Done}
  {
    var fl := s.flights[id];
    match fl.answer.value
    case Failed(kind) =>
      Finish(s.(breaker := AfterFailure(cfg.settings, s.breaker, fl.now), events := s.events + [Event.Failure(fl.now)]),
             id, fl, HandleFailure(cfg, kind))
    case Response(r) =>
      var t := s.(breaker := CLOSED, events := s.events + [Event.Success]);
      if r.decision == Error then
        Finish(t, id, fl, HandleFailure(cfg, AgentUnavailable))
      else Advance(t, id, fl, Storing)
  }

  lemma StoreNow(cfg: Config, s: System, id: nat) returns (s': System)
    requires InPhase(s, id, Storing) && Ready(s.flights[id])
    ensures StoreStep(cfg, s, id, s')
    ensures s'.flights.Keys == s.flights.Keys && s'.flights[id].phase == Done
    ensures forall other :: other in s.flights && other != id ==> s'.flights[other] == s.flights[other]
  {
    var fl := s.flights[id];
    var r := fl.answer.value.response;
    var l := InsertionExists(cfg.limits, s.ledger, Key(cfg, fl), r, fl.now);
    s' := Finish(s.(ledger := l, ops := s.ops + [Op.Put(Key(cfg, fl), r, fl.now)], ledgers := s.ledgers + [l]),
                 id, fl, HandleDecision(cfg, r));
  }
}

/** What each record of a request ends in, word for word (middleware.go, lines 15-150). */
module Actions {
  import opened Agent
  import opened CacheRuns
  import opened CircuitBreakers
  import opened Pipeline
  import PipelineResults

  ghost predicate Finished(s: System, id: nat) {
    id in s.flights && s.flights[id].phase == Done
  }

  lemma OnlyAction(cfg: Config, s: System, id: nat) returns (t: Terminal)
    requires Reachable(cfg, s) && Finished(s, id)
    ensures ActionsOf(s.log, id) == [t] && Earned(cfg, s.ops, s.events, s.flights[id], t)
  {
    ReachableInv(cfg, s);
    assert FlightOk(cfg, s, id);
    t :| ActionsOf(s.log, id) == [t] && Earned(cfg, s.ops, s.events, s.flights[id], t);
  }

  /** The records exclude each other: a lookup found something or nothing, the breaker
      admitted or refused, the Agent failed or answered, once. */
  lemma RecordsExclude(cfg: Config, ops: seq<Op>, events: seq<Event>, fl: Flight)
    ensures Refused(cfg, ops, events, fl) ==> !Admitted(cfg, ops, events, fl)
    ensures FoundNothing(cfg, ops, fl) ==> forall r :: !Hit(cfg, ops, fl, r)
    ensures forall q, r :: Hit(cfg, ops, fl, q) && Hit(cfg, ops, fl, r) ==> q == r
    ensures forall q, r :: Validated(fl, q) && Validated(fl, r) ==> q == r
    ensures !fl.intake.Evaluate? ==> !FoundNothing(cfg, ops, fl) && forall r :: !Hit(cfg, ops, fl, r)
  {}

  /** A failure excludes an approval, a denial and the other failure. */
  lemma FailureIsAlone(cfg: Config, ops: seq<Op>, events: seq<Event>, fl: Flight, kind: AgentErrorKind)
    requires FailureHappened(cfg, ops, events, fl, kind)
    ensures !Approved(cfg, ops, events, fl) && forall r :: !Denied(cfg, ops, events, fl, r)
    ensures forall other :: FailureHappened(cfg, ops, events, fl, other) ==> other == kind
    ensures !fl.intake.InvalidMetadata? && !fl.intake.BodyRejected? && !fl.intake.ChallengeRoute?
  {
    FailureIsNoApproval(cfg, ops, events, fl, kind);
    forall r ensures !Denied(cfg, ops, events, fl, r) {
      FailureIsNoDenial(cfg, ops, events, fl, kind, r);
    }
    forall other | FailureHappened(cfg, ops, events, fl, other) ensures other == kind {
      FailureIsOfOneKind(cfg, ops, events, fl, kind, other);
    }
  }

  lemma FailureIsNoApproval(cfg: Config, ops: seq<Op>, events: seq<Event>, fl: Flight, kind: AgentErrorKind)
    requires FailureHappened(cfg, ops, events, fl, kind)
    ensures !Approved(cfg, ops, events, fl)
    ensures !fl.intake.InvalidMetadata? && !fl.intake.BodyRejected? && !fl.intake.ChallengeRoute?
  {
    RecordsExclude(cfg, ops, events, fl);
  }

  lemma FailureIsNoDenial(cfg: Config, ops: seq<Op>, events: seq<Event>, fl: Flight, kind: AgentErrorKind,
                          r: EvaluationResponse)
    requires FailureHappened(cfg, ops, events, fl, kind)
    ensures !Denied(cfg, ops, events, fl, r)
  {
    RecordsExclude(cfg, ops, events, fl);
  }

  lemma FailureIsOfOneKind(cfg: Config, ops: seq<Op>, events: seq<Event>, fl: Flight, kind: AgentErrorKind,
                           other: AgentErrorKind)
    requires FailureHappened(cfg, ops, events, fl, kind) && FailureHappened(cfg, ops, events, fl, other)
    ensures other == kind
  {
    RecordsExclude(cfg, ops, events, fl);
  }

  ghost predicate Approved(cfg: Config, ops: seq<Op>, events: seq<Event>, fl: Flight) {
    Admitted(cfg, ops, events, fl) && exists r :: Validated(fl, r) && r.decision in {Decision.Allow, Decision.Observe}
  }

  lemma FailureDecides(cfg: Config, ops: seq<Op>, events: seq<Event>, fl: Flight, kind: AgentErrorKind, t: Terminal)
    requires FailureHappened(cfg, ops, events, fl, kind) && Earned(cfg, ops, events, fl, t)
    ensures t == match kind
                 case AgentUnavailable =>
                   if cfg.agentUnavailable == Deny then ErrorPage(503, "edge_agent_unavailable") else Next
                 case AgentMalformed =>
                   if cfg.malformedResponse == Deny then ErrorPage(503, "edge_agent_invalid_response") else Next
  {
    FailureIsAlone(cfg, ops, events, fl, kind);
    if t == Next {
      assert MayPass(cfg, ops, events, fl) && !Approved(cfg, ops, events, fl);
    }
  }

  /** An unavailable failure, and only its own mode, decides: the 503 page with its own
      reason, or the next handler. */
  lemma UnavailableEnds(cfg: Config, s: System, id: nat)
    requires Reachable(cfg, s) && Finished(s, id)
    requires FailureHappened(cfg, s.ops, s.events, s.flights[id], AgentUnavailable)
    ensures ActionsOf(s.log, id) ==
            [if cfg.agentUnavailable == Deny then ErrorPage(503, "edge_agent_unavailable") else Next]
  {
    var t := OnlyAction(cfg, s, id);
    FailureDecides(cfg, s.ops, s.events, s.flights[id], AgentUnavailable, t);
  }

  /** A malformed answer likewise, by the other mode. */
  lemma MalformedEnds(cfg: Config, s: System, id: nat)
    requires Reachable(cfg, s) && Finished(s, id)
    requires FailureHappened(cfg, s.ops, s.events, s.flights[id], AgentMalformed)
    ensures ActionsOf(s.log, id) ==
            [if cfg.malformedResponse == Deny then ErrorPage(503, "edge_agent_invalid_response") else Next]
  {
    var t := OnlyAction(cfg, s, id);
    FailureDecides(cfg, s.ops, s.events, s.flights[id], AgentMalformed, t);
  }

  /** An admitted request that the Agent allows or observes goes on, whatever the modes. */
  lemma ApprovedEnds(cfg: Config, s: System, id: nat, r: EvaluationResponse)
    requires Reachable(cfg, s) && Finished(s, id)
    requires Admitted(cfg, s.ops, s.events, s.flights[id]) && Validated(s.flights[id], r)
    requires r.decision in {Decision.Allow, Decision.Observe}
    ensures ActionsOf(s.log, id) == [Next]
  {
    var t := OnlyAction(cfg, s, id);
    RecordsExclude(cfg, s.ops, s.events, s.flights[id]);
  }

  lemma DenialIsAlone(cfg: Config, ops: seq<Op>, events: seq<Event>, fl: Flight, r: EvaluationResponse)
    requires Denied(cfg, ops, events, fl, r)
    ensures forall q :: Denied(cfg, ops, events, fl, q) ==> q == r
    ensures !Approved(cfg, ops, events, fl) && forall kind :: !FailureHappened(cfg, ops, events, fl, kind)
    ensures fl.intake.Evaluate?
  {
    RecordsExclude(cfg, ops, events, fl);
    forall kind ensures !FailureHappened(cfg, ops, events, fl, kind) {
      if FailureHappened(cfg, ops, events, fl, kind) {
        FailureIsAlone(cfg, ops, events, fl, kind);
      }
    }
  }

  lemma DenialDecides(cfg: Config, ops: seq<Op>, events: seq<Event>, fl: Flight, r: EvaluationResponse, t: Terminal)
    requires Denied(cfg, ops, events, fl, r) && Earned(cfg, ops, events, fl, t)
    ensures t == if cfg.explicitLocalDeny == LetThrough then Next
                 else if r.decision == Challenge
                 then Enforced(r.(challengeURL := cfg.challengePrefix + "/challenge"))
                 else Enforced(r)
  {
    DenialIsAlone(cfg, ops, events, fl, r);
    if t == Next {
      assert MayPass(cfg, ops, events, fl) && !Approved(cfg, ops, events, fl);
    } else if t.Enforced? {
      var q :| Denied(cfg, ops, events, fl, q) && t.response == Shown(cfg, q);
    } else if t.ErrorPage? {
      DenialIsNoFailure(cfg, ops, events, fl, r, t.status, t.reason);
    }
  }

  lemma DenialIsNoFailure(cfg: Config, ops: seq<Op>, events: seq<Event>, fl: Flight, r: EvaluationResponse,
                          status: nat, reason: string)
    requires Denied(cfg, ops, events, fl, r)
    ensures !MayFail(cfg, ops, events, fl, status, reason)
  {
    DenialIsAlone(cfg, ops, events, fl, r);
  }

  /** A denied request gets the denial itself, a challenge with the local endpoint in it,
      unless denials are let through. */
  lemma DeniedEnds(cfg: Config, s: System, id: nat, r: EvaluationResponse)
    requires Reachable(cfg, s) && Finished(s, id)
    requires Denied(cfg, s.ops, s.events, s.flights[id], r)
    ensures ActionsOf(s.log, id) ==
            [if cfg.explicitLocalDeny == LetThrough then Next
             else if r.decision == Challenge then Enforced(r.(challengeURL := cfg.challengePrefix + "/challenge"))
             else Enforced(r)]
  {
    var t := OnlyAction(cfg, s, id);
    DenialDecides(cfg, s.ops, s.events, s.flights[id], r, t);
  }

  /** A request turned away before the cache. */
  lemma TurnedAwayEnds(cfg: Config, s: System, id: nat)
    requires Reachable(cfg, s) && Finished(s, id) && !s.flights[id].intake.Evaluate?
    ensures ActionsOf(s.log, id) ==
            [match s.flights[id].intake
             case ChallengeRoute => ChallengeReply
             case InvalidMetadata => ErrorPage(400, "invalid_request")
             case BodyRejected => ErrorPage(413, "request_body_too_large")
             case _ => if cfg.agentUnavailable == Deny then ErrorPage(503, "edge_agent_unavailable") else Next]
  {
    var t := OnlyAction(cfg, s, id);
    RecordsExclude(cfg, s.ops, s.events, s.flights[id]);
  }

  /** Every page that denies is a well-formed denial of this very request: 403 for a block
      or a challenge, 429 for a rate limit, no long retry, a plain reason, the local endpoint
      in a challenge, and nowhere an address of another site. */
  lemma DenialPages(cfg: Config, s: System, id: nat, page: EvaluationResponse)
    requires Reachable(cfg, s) && Enforced(page) in ActionsOf(s.log, id)
    ensures id in s.flights && s.flights[id].intake.Evaluate?
    ensures page.requestID == s.flights[id].intake.input.requestID
    ensures cfg.explicitLocalDeny == Deny
    ensures (page.decision == Block && page.status == 403)
            || (page.decision == Challenge && page.status == 403
                && page.challengeURL == cfg.challengePrefix + "/challenge" && page.challengeToken != ""
                && page.resourceID != "" && page.siteID != "")
            || (page.decision == RateLimit && page.status == 429)
    ensures 0 <= page.retryAfterSeconds <= 86400 && (page.decision == Challenge ==> page.retryAfterSeconds == 0)
    ensures page.challengeURL == "" || page.decision == Challenge
            || (page.challengeURL[0] == '/' && !("//" <= page.challengeURL) && |page.challengeURL| <= 2048
                && '\r' !in page.challengeURL && '\n' !in page.challengeURL)
    ensures 1 <= |page.publicReason| <= 64
            && forall c :: c in page.publicReason ==> c in "abcdefghijklmnopqrstuvwxyz0123456789_"
  {
    PipelineResults.ActionIsEarned(cfg, s, id, Enforced(page));
    var q := WasDenied(cfg, s, id, page);
    DenialIsWellFormed(s.flights[id].intake.input.requestID, q);
  }

  /** The denial behind the page: an answer that would pass the gate for this request. */
  lemma WasDenied(cfg: Config, s: System, id: nat, page: EvaluationResponse) returns (q: EvaluationResponse)
    requires Reachable(cfg, s) && id in s.flights && MayEnforce(cfg, s.ops, s.events, s.flights[id], page)
    ensures s.flights[id].intake.Evaluate? && ValidResponse(s.flights[id].intake.input.requestID, q) && IsDeny(q)
    ensures page == if q.decision == Challenge then q.(challengeURL := cfg.challengePrefix + "/challenge") else q
  {
    var fl := s.flights[id];
    q :| Denied(cfg, s.ops, s.events, fl, q) && page == Shown(cfg, q);
    if Hit(cfg, s.ops, fl, q) {
      var source := PipelineResults.HitHasSource(cfg, s, fl.lookup.value);
      var sent := s.flights[source].intake.input.requestID;
      RenamedPasses(sent, fl.intake.input.requestID, q.(requestID := sent));
      assert q.(requestID := sent).(requestID := fl.intake.input.requestID) == q;
    }
  }

  lemma RenamedPasses(id: string, other: string, r: EvaluationResponse)
    requires ValidResponse(id, r)
    ensures ValidResponse(other, r.(requestID := other))
  {}

  lemma DenialIsWellFormed(id: string, r: EvaluationResponse)
    requires ValidResponse(id, r) && IsDeny(r)
    ensures r.requestID == id
    ensures r.status == if r.decision == RateLimit then 429 else 403
    ensures 0 <= r.retryAfterSeconds <= 86400 && (r.decision == Challenge ==> r.retryAfterSeconds == 0)
    ensures r.decision == Challenge ==> r.challengeToken != "" && r.resourceID != "" && r.siteID != ""
    ensures r.challengeURL == ""
            || (r.challengeURL[0] == '/' && !("//" <= r.challengeURL) && |r.challengeURL| <= 2048
                && '\r' !in r.challengeURL && '\n' !in r.challengeURL)
    ensures 1 <= |r.publicReason| <= 64
            && forall c :: c in r.publicReason ==> c in "abcdefghijklmnopqrstuvwxyz0123456789_"
  {
    forall c | c in r.publicReason ensures c in "abcdefghijklmnopqrstuvwxyz0123456789_" {
      var i :| 0 <= i < |r.publicReason| && r.publicReason[i] == c;
      ReasonChar(c);
    }
  }

  lemma ReasonChar(c: char)
    requires 'a' <= c <= 'z' || '0' <= c <= '9' || c == '_'
    ensures c in "abcdefghijklmnopqrstuvwxyz0123456789_"
  {
    var all := "abcdefghijklmnopqrstuvwxyz0123456789_";
    if 'a' <= c <= 'z' {
      assert all[c as int - 'a' as int] == c;
    } else if '0' <= c <= '9' {
      assert all[26 + (c as int - '0' as int)] == c;
    } else {
      assert all[36] == c;
    }
  }
}

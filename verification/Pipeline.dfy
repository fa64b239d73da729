/** Any number of requests in flight over one cache and one breaker (middleware.go,
    lines 15-150). Each locked call is one step; timestamps are taken before the locks
    and are therefore unrelated to the order of steps. */
module Pipeline {
  import opened Agent
  import opened CacheKey
  import opened CacheRuns
  import opened CircuitBreakers

  datatype Mode = LetThrough | Deny

  datatype Config = Config(
    limits: Limits,
    settings: Settings,
    agentUnavailable: Mode,
    malformedResponse: Mode,
    explicitLocalDeny: Mode,
    challengePrefix: string,
    digest: string -> string)

  ghost predicate ValidConfig(cfg: Config) {
    ValidSettings(cfg.settings) && IdealDigest(cfg.digest)
  }

  /** What a request ends in: the next handler, a rendered answer, or the challenge API. */
  datatype Terminal =
    | Next
    | Enforced(response: EvaluationResponse)
    | ErrorPage(status: nat, reason: string)
    | ChallengeReply

  function ModeFor(cfg: Config, kind: AgentErrorKind): Mode {
    match kind
    case AgentUnavailable => cfg.agentUnavailable
    case AgentMalformed => cfg.malformedResponse
  }

  /** handleFailure. */
  function HandleFailure(cfg: Config, kind: AgentErrorKind): Terminal {
    if ModeFor(cfg, kind) == LetThrough then Next
    else ErrorPage(503, if kind == AgentMalformed then "edge_agent_invalid_response" else "edge_agent_unavailable")
  }

  /** handleDecision, default branch included. */
  function HandleDecision(cfg: Config, r: EvaluationResponse): Terminal {
    match r.decision
    case Allow => Next
    case Observe => Next
    case Block => HandleDeny(cfg, r)
    case Challenge => HandleDeny(cfg, r.(challengeURL := cfg.challengePrefix + "/challenge"))
    case RateLimit => HandleDeny(cfg, r)
    case _ => HandleFailure(cfg, AgentMalformed)
  }

  function HandleDeny(cfg: Config, r: EvaluationResponse): Terminal {
    if cfg.explicitLocalDeny == LetThrough then Next else Enforced(r)
  }

  /** How the part of ServeHTTP before the cache ends. */
  datatype Intake =
    | NoClientAddress
    | ChallengeRoute
    | InvalidMetadata
    | BodyUnreadable
    | BodyRejected
    | Evaluate(input: EvaluationRequest)

  function Turnaway(cfg: Config, intake: Intake): Terminal
    requires !intake.Evaluate?
  {
    match intake
    case NoClientAddress => HandleFailure(cfg, AgentUnavailable)
    case ChallengeRoute => ChallengeReply
    case InvalidMetadata => ErrorPage(400, "invalid_request")
    case BodyUnreadable => HandleFailure(cfg, AgentUnavailable)
    case BodyRejected => ErrorPage(413, "request_body_too_large")
  }

  // ---------------------------------------------------------------------
  // The step machine
  // ---------------------------------------------------------------------

  datatype Phase = Captured | Missed | Asking | Answered | Storing | Done

  /** A request: what it brought, when it was stamped, how far it got, where its lookup
      stands among the cache operations and its admission test among the breaker events,
      and what the Agent answered. */
  datatype Flight = Flight(
    intake: Intake, now: Time, phase: Phase, lookup: Option<nat>, asked: Option<nat>, answer: Option<Answer>)

  type Log = seq<(nat, Terminal)>

  /** The shared state, with the histories that explain it. */
  datatype System = System(
    ledger: Ledger,
    breaker: Breaker,
    flights: map<nat, Flight>,
    log: Log,
    ops: seq<Op>,
    ledgers: seq<Ledger>,
    events: seq<Event>)

  const START := System(EMPTY, CLOSED, map[], [], [], [EMPTY], [])

  datatype Label =
    | Arrive(id: nat, intake: Intake, now: Time)
    | LookUp(id: nat)
    | Ask(id: nat)
    | AgentAnswers(id: nat, answer: Answer)
    | Report(id: nat)
    | Store(id: nat)

  ghost predicate InPhase(s: System, id: nat, phase: Phase) {
    id in s.flights && s.flights[id].phase == phase && s.flights[id].intake.Evaluate?
  }

  ghost function Key(cfg: Config, fl: Flight): string
    requires fl.intake.Evaluate?
  {
    Fingerprint(fl.intake.input, cfg.digest)
  }

  /** The request ends with this action. */
  ghost function Finish(s: System, id: nat, fl: Flight, t: Terminal): System {
    s.(flights := s.flights[id := fl.(phase := Done)], log := s.log + [(id, t)])
  }

  ghost function Advance(s: System, id: nat, fl: Flight, phase: Phase): System {
    s.(flights := s.flights[id := fl.(phase := phase)])
  }

  ghost predicate ArriveStep(cfg: Config, s: System, id: nat, intake: Intake, now: Time, s': System) {
    var fl := Flight(intake, now, Captured, None, None, None);
    && id !in s.flights
    && s' == match intake
             case Evaluate(_) => Advance(s, id, fl, Captured)
             case _ => Finish(s, id, fl, Turnaway(cfg, intake))
  }

  ghost predicate LookUpStep(cfg: Config, s: System, id: nat, s': System) {
    && InPhase(s, id, Captured)
    && var fl := s.flights[id].(lookup := Some(|s.ops|));
       var f, requestID := Key(cfg, fl), fl.intake.input.requestID;
       var hit := Lookup(cfg.limits, s.ledger, f, requestID, fl.now);
       var t := s.(ledger := s'.ledger, ops := s.ops + [Op.Get(f, requestID, fl.now, hit)],
                   ledgers := s.ledgers + [s'.ledger]);
       && GetStep(cfg.limits, s.ledger, f, requestID, fl.now, hit, s'.ledger)
       && s' == if hit.Some? then Finish(t, id, fl, HandleDecision(cfg, hit.value)) else Advance(t, id, fl, Missed)
  }

  ghost predicate AskStep(cfg: Config, s: System, id: nat, s': System) {
    && InPhase(s, id, Missed)
    && var fl := s.flights[id].(asked := Some(|s.events|));
       var t := s.(breaker := AfterAllow(s.breaker, fl.now), events := s.events + [Event.Allow(fl.now)]);
       s' == if Admits(s.breaker, fl.now) then Advance(t, id, fl, Asking)
             else Finish(t, id, fl, HandleFailure(cfg, AgentUnavailable))
  }

  ghost predicate AnswerStep(cfg: Config, s: System, id: nat, answer: Answer, s': System) {
    && InPhase(s, id, Asking)
    && var fl := s.flights[id];
       && ValidAnswer(fl.intake.input.requestID, answer)
       && s' == Advance(s, id, fl.(answer := Some(answer)), Answered)
  }

  ghost predicate ReportStep(cfg: Config, s: System, id: nat, s': System) {
    && InPhase(s, id, Answered) && s.flights[id].answer.Some?
    && var fl := s.flights[id];
       s' == match fl.answer.value
             case Failed(kind) =>
               Finish(s.(breaker := AfterFailure(cfg.settings, s.breaker, fl.now),
                         events := s.events + [Event.Failure(fl.now)]),
                      id, fl, HandleFailure(cfg, kind))
             case Response(r) =>
               var t := s.(breaker := CLOSED, events := s.events + [Event.Success]);
               if r.decision == Error then
                 Finish(t, id, fl, HandleFailure(cfg, AgentUnavailable))
               else Advance(t, id, fl, Storing)
  }

  ghost predicate StoreStep(cfg: Config, s: System, id: nat, s': System) {
    && InPhase(s, id, Storing) && s.flights[id].answer.Some? && s.flights[id].answer.value.Response?
    && var fl := s.flights[id];
       var r := fl.answer.value.response;
       && PutStep(cfg.limits, s.ledger, Key(cfg, fl), r, fl.now, s'.ledger)
       && s' == Finish(s.(ledger := s'.ledger, ops := s.ops + [Op.Put(Key(cfg, fl), r, fl.now)],
                          ledgers := s.ledgers + [s'.ledger]),
                       id, fl, HandleDecision(cfg, r))
  }

  ghost predicate Step(cfg: Config, s: System, step: Label, s': System) {
    match step
    case Arrive(id, intake, now) => ArriveStep(cfg, s, id, intake, now, s')
    case LookUp(id) => LookUpStep(cfg, s, id, s')
    case Ask(id) => AskStep(cfg, s, id, s')
    case AgentAnswers(id, answer) => AnswerStep(cfg, s, id, answer, s')
    case Report(id) => ReportStep(cfg, s, id, s')
    case Store(id) => StoreStep(cfg, s, id, s')
  }

  ghost predicate StepsAt(cfg: Config, states: seq<System>, labels: seq<Label>, i: int) {
    0 <= i < |labels| && i + 1 < |states| && Step(cfg, states[i], labels[i], states[i + 1])
  }

  /** The states a run passes through, and what led from each to the next. */
  ghost predicate Path(cfg: Config, states: seq<System>, labels: seq<Label>) {
    |states| == |labels| + 1 && forall i :: 0 <= i < |labels| ==> StepsAt(cfg, states, labels, i)
  }

  ghost predicate Leads(cfg: Config, s: System, s': System) {
    exists states, labels :: Connects(cfg, states, labels, s, s')
  }

  ghost predicate Connects(cfg: Config, states: seq<System>, labels: seq<Label>, s: System, s': System) {
    Path(cfg, states, labels) && states[0] == s && states[|labels|] == s'
  }

  ghost predicate Reachable(cfg: Config, s: System) {
    Leads(cfg, START, s)
  }

  lemma LeadsNowhere(cfg: Config, s: System)
    ensures Leads(cfg, s, s)
  {
    assert Connects(cfg, [s], [], s, s);
  }

  lemma LeadsOn(cfg: Config, s: System, t: System, step: Label, u: System)
    requires Leads(cfg, s, t) && Step(cfg, t, step, u)
    ensures Leads(cfg, s, u)
  {
    var states, labels :| Connects(cfg, states, labels, s, t);
    PathGrows(cfg, states, labels, s, t, step, u);
  }

  lemma PathGrows(cfg: Config, states: seq<System>, labels: seq<Label>, s: System, t: System, step: Label, u: System)
    requires Connects(cfg, states, labels, s, t) && Step(cfg, t, step, u)
    ensures Connects(cfg, states + [u], labels + [step], s, u)
  {
    forall i | 0 <= i < |labels| + 1 ensures StepsAt(cfg, states + [u], labels + [step], i) {
      if i < |labels| {
        StepStays(cfg, states, labels, step, u, i);
      }
    }
  }

  lemma StepStays(cfg: Config, states: seq<System>, labels: seq<Label>, step: Label, u: System, i: nat)
    requires |states| == |labels| + 1 && StepsAt(cfg, states, labels, i)
    ensures StepsAt(cfg, states + [u], labels + [step], i)
  {}

  lemma LeadsThrough(cfg: Config, s: System, t: System, u: System)
    requires Leads(cfg, s, t) && Leads(cfg, t, u)
    ensures Leads(cfg, s, u)
  {
    var states, labels :| Connects(cfg, states, labels, t, u);
    LeadsAlong(cfg, s, states, labels, |labels|);
  }

  lemma {:induction false} LeadsAlong(cfg: Config, s: System, states: seq<System>, labels: seq<Label>, n: nat)
    requires Path(cfg, states, labels) && n <= |labels| && Leads(cfg, s, states[0])
    ensures Leads(cfg, s, states[n])
  {
    if n > 0 {
      LeadsAlong(cfg, s, states, labels, n - 1);
      LeadsNext(cfg, s, states, labels, n - 1);
    }
  }

  lemma LeadsNext(cfg: Config, s: System, states: seq<System>, labels: seq<Label>, i: nat)
    requires Path(cfg, states, labels) && i < |labels| && Leads(cfg, s, states[i])
    ensures Leads(cfg, s, states[i + 1])
  {
    assert StepsAt(cfg, states, labels, i);
    LeadsOn(cfg, s, states[i], labels[i], states[i + 1]);
  }

  // ---------------------------------------------------------------------
  // The invariant
  // ---------------------------------------------------------------------

  /** The actions performed for one request. */
  ghost function ActionsOf(log: Log, id: nat): seq<Terminal> {
    if log == [] then []
    else
      var before := ActionsOf(log[..|log| - 1], id);
      if log[|log| - 1].0 == id then before + [log[|log| - 1].1] else before
  }

  lemma ActionsAppend(log: Log, id: nat, t: Terminal, other: nat)
    ensures ActionsOf(log + [(id, t)], other) == ActionsOf(log, other) + (if id == other then [t] else [])
  {
    assert (log + [(id, t)])[..|log|] == log;
  }

  ghost predicate Validated(fl: Flight, r: EvaluationResponse) {
    && fl.intake.Evaluate? && fl.answer == Some(Response(r))
    && ValidResponse(fl.intake.input.requestID, r)
  }

  /** The request's own lookup was answered with r. */
  ghost predicate Hit(cfg: Config, ops: seq<Op>, fl: Flight, r: EvaluationResponse) {
    && fl.intake.Evaluate? && fl.lookup.Some? && fl.lookup.value < |ops|
    && ops[fl.lookup.value] == Op.Get(Key(cfg, fl), fl.intake.input.requestID, fl.now, Some(r))
  }

  /** The request's own lookup found nothing, and the breaker turned its own admission test
      down. */
  ghost predicate Refused(cfg: Config, ops: seq<Op>, events: seq<Event>, fl: Flight) {
    && FoundNothing(cfg, ops, fl)
    && fl.asked.Some? && fl.asked.value < |events| && events[fl.asked.value] == Event.Allow(fl.now)
    && !AdmittedAt(cfg.settings, events, fl.asked.value)
  }

  /** The request's own lookup found nothing, and the breaker admitted its own test. */
  ghost predicate Admitted(cfg: Config, ops: seq<Op>, events: seq<Event>, fl: Flight) {
    && FoundNothing(cfg, ops, fl)
    && fl.asked.Some? && fl.asked.value < |events| && events[fl.asked.value] == Event.Allow(fl.now)
    && AdmittedAt(cfg.settings, events, fl.asked.value)
  }

  ghost predicate FoundNothing(cfg: Config, ops: seq<Op>, fl: Flight) {
    && fl.intake.Evaluate? && fl.lookup.Some? && fl.lookup.value < |ops|
    && ops[fl.lookup.value] == Op.Get(Key(cfg, fl), fl.intake.input.requestID, fl.now, None)
  }

  /** The failure really happened to this request: its first half failed, the breaker
      refused it, or it was admitted and the Agent failed it. */
  ghost predicate FailureHappened(cfg: Config, ops: seq<Op>, events: seq<Event>, fl: Flight, kind: AgentErrorKind) {
    || (kind == AgentUnavailable && (fl.intake.NoClientAddress? || fl.intake.BodyUnreadable?))
    || (kind == AgentUnavailable && Refused(cfg, ops, events, fl))
    || (Admitted(cfg, ops, events, fl)
        && (fl.answer == Some(Failed(kind))
            || (kind == AgentUnavailable && exists r :: Validated(fl, r) && r.decision == Error)))
  }

  ghost predicate IsDeny(r: EvaluationResponse) {
    r.decision in {Decision.Block, Decision.Challenge, Decision.RateLimit}
  }

  /** The decision that denies the request: its own validated answer, or its hit. */
  ghost predicate Denied(cfg: Config, ops: seq<Op>, events: seq<Event>, fl: Flight, r: EvaluationResponse) {
    && IsDeny(r)
    && (Hit(cfg, ops, fl, r) || (Admitted(cfg, ops, events, fl) && Validated(fl, r)))
  }

  /** Why a request may go on to the next handler. */
  ghost predicate MayPass(cfg: Config, ops: seq<Op>, events: seq<Event>, fl: Flight) {
    || (Admitted(cfg, ops, events, fl)
        && exists r :: Validated(fl, r) && r.decision in {Decision.Allow, Decision.Observe})
    || (FailureHappened(cfg, ops, events, fl, AgentUnavailable) && cfg.agentUnavailable == LetThrough)
    || (FailureHappened(cfg, ops, events, fl, AgentMalformed) && cfg.malformedResponse == LetThrough)
    || (cfg.explicitLocalDeny == LetThrough && exists r :: Denied(cfg, ops, events, fl, r))
  }

  /** Why a request may be denied: by its own validated answer or its hit, a challenge
      naming the local endpoint. */
  ghost predicate MayEnforce(cfg: Config, ops: seq<Op>, events: seq<Event>, fl: Flight, r: EvaluationResponse) {
    && cfg.explicitLocalDeny == Deny
    && exists q :: Denied(cfg, ops, events, fl, q) && r == Shown(cfg, q)
  }

  /** Why a request may end in a rendered error. */
  ghost predicate MayFail(cfg: Config, ops: seq<Op>, events: seq<Event>, fl: Flight, status: nat, reason: string) {
    || (fl.intake.InvalidMetadata? && status == 400 && reason == "invalid_request")
    || (fl.intake.BodyRejected? && status == 413 && reason == "request_body_too_large")
    || (FailureHappened(cfg, ops, events, fl, AgentUnavailable) && cfg.agentUnavailable == Deny
        && status == 503 && reason == "edge_agent_unavailable")
    || (FailureHappened(cfg, ops, events, fl, AgentMalformed) && cfg.malformedResponse == Deny
        && status == 503 && reason == "edge_agent_invalid_response")
  }

  /** The action is the one this request has earned. */
  ghost predicate Earned(cfg: Config, ops: seq<Op>, events: seq<Event>, fl: Flight, t: Terminal) {
    match t
    case Next => MayPass(cfg, ops, events, fl)
    case Enforced(r) => MayEnforce(cfg, ops, events, fl, r)
    case ErrorPage(status, reason) => MayFail(cfg, ops, events, fl, status, reason)
    case ChallengeReply => fl.intake.ChallengeRoute?
  }

  lemma FailureIsEarned(cfg: Config, ops: seq<Op>, events: seq<Event>, fl: Flight, kind: AgentErrorKind)
    requires FailureHappened(cfg, ops, events, fl, kind)
    ensures Earned(cfg, ops, events, fl, HandleFailure(cfg, kind))
  {}

  lemma DenyIsEarned(cfg: Config, ops: seq<Op>, events: seq<Event>, fl: Flight, r: EvaluationResponse)
    requires Denied(cfg, ops, events, fl, r)
    ensures Earned(cfg, ops, events, fl, HandleDecision(cfg, r))
  {
    DenyIsHandled(cfg, r);
    if cfg.explicitLocalDeny == Deny {
      assert MayEnforce(cfg, ops, events, fl, Shown(cfg, r));
    }
  }

  /** What the client sees of a denial: a challenge names the local endpoint. */
  ghost function Shown(cfg: Config, r: EvaluationResponse): EvaluationResponse {
    if r.decision == Challenge then r.(challengeURL := cfg.challengePrefix + "/challenge") else r
  }

  lemma DenyIsHandled(cfg: Config, r: EvaluationResponse)
    requires IsDeny(r)
    ensures HandleDecision(cfg, r) == if cfg.explicitLocalDeny == LetThrough then Next else Enforced(Shown(cfg, r))
  {}

  lemma AnswerIsEarned(cfg: Config, ops: seq<Op>, events: seq<Event>, fl: Flight, r: EvaluationResponse)
    requires Admitted(cfg, ops, events, fl) && Validated(fl, r) && r.decision != Error
    ensures Earned(cfg, ops, events, fl, HandleDecision(cfg, r))
  {
    if IsDeny(r) {
      DenyIsEarned(cfg, ops, events, fl, r);
    }
  }

  // ---------------------------------------------------------------------
  // Histories only grow
  // ---------------------------------------------------------------------

  lemma AdmissionStays(settings: Settings, events: seq<Event>, more: seq<Event>, k: nat)
    requires k < |events| && events <= more
    ensures AdmittedAt(settings, more, k) <==> AdmittedAt(settings, events, k)
  {
    assert more[..k] == events[..k];
  }

  lemma EarnedStays(cfg: Config, ops: seq<Op>, events: seq<Event>, ops': seq<Op>, events': seq<Event>,
                    fl: Flight, t: Terminal)
    requires Earned(cfg, ops, events, fl, t) && ops <= ops' && events <= events'
    ensures Earned(cfg, ops', events', fl, t)
  {
    RecordsStay(cfg, ops, events, ops', events', fl);
    forall r ensures Denied(cfg, ops, events, fl, r) ==> Denied(cfg, ops', events', fl, r) {
      HitStays(cfg, ops, ops', fl, r);
    }
    forall kind ensures FailureHappened(cfg, ops, events, fl, kind) ==> FailureHappened(cfg, ops', events', fl, kind) {}
  }

  lemma HitStays(cfg: Config, ops: seq<Op>, ops': seq<Op>, fl: Flight, r: EvaluationResponse)
    requires ops <= ops'
    ensures Hit(cfg, ops, fl, r) ==> Hit(cfg, ops', fl, r)
  {}

  lemma RecordsStay(cfg: Config, ops: seq<Op>, events: seq<Event>, ops': seq<Op>, events': seq<Event>, fl: Flight)
    requires ops <= ops' && events <= events'
    ensures FoundNothing(cfg, ops, fl) ==> FoundNothing(cfg, ops', fl)
    ensures Refused(cfg, ops, events, fl) ==> Refused(cfg, ops', events', fl)
    ensures Admitted(cfg, ops, events, fl) ==> Admitted(cfg, ops', events', fl)
  {
    if fl.asked.Some? && fl.asked.value < |events| {
      AdmissionStays(cfg.settings, events, events', fl.asked.value);
    }
  }

  /** What the records of a request say in each phase. */
  ghost predicate OnRecord(cfg: Config, ops: seq<Op>, events: seq<Event>, fl: Flight) {
    && (fl.phase == Missed ==> FoundNothing(cfg, ops, fl))
    && (fl.phase in {Asking, Answered, Storing} ==> Admitted(cfg, ops, events, fl))
    && (fl.phase in {Captured, Missed, Asking} ==> fl.answer == None)
    && (fl.phase == Answered ==> fl.answer.Some? && ValidAnswer(fl.intake.input.requestID, fl.answer.value))
    && (fl.phase == Storing ==> exists r :: Validated(fl, r) && r.decision != Error)
  }

  ghost predicate FlightOk(cfg: Config, s: System, id: nat)
    requires id in s.flights
  {
    var fl := s.flights[id];
    if fl.phase == Done then
      exists t :: ActionsOf(s.log, id) == [t] && Earned(cfg, s.ops, s.events, fl, t)
    else
      fl.intake.Evaluate? && ActionsOf(s.log, id) == [] && OnRecord(cfg, s.ops, s.events, fl)
  }

  /** This insertion stored the validated answer to some request with that key. */
  ghost predicate PutHasSource(cfg: Config, s: System, op: Op)
    requires op.Put?
  {
    exists id :: id in s.flights && IsSource(cfg, s.flights[id], op)
  }

  /** The Agent has been asked and its outcome not yet reported. */
  ghost predicate Outstanding(fl: Flight) {
    fl.phase == Asking || fl.phase == Answered
  }

  ghost predicate ProbeAccounted(s: System) {
    s.breaker.probe ==> exists id :: id in s.flights && Outstanding(s.flights[id])
  }

  ghost predicate HistoriesFit(cfg: Config, s: System) {
    && IsRun(cfg.limits, s.ops, s.ledgers) && s.ledgers[|s.ops|] == s.ledger
    && s.breaker == Replay(cfg.settings, s.events)
  }

  ghost predicate Inv(cfg: Config, s: System) {
    && HistoriesFit(cfg, s)
    && ProbeAccounted(s)
    && (forall id :: id in s.flights ==> FlightOk(cfg, s, id))
    && (forall id :: id !in s.flights ==> ActionsOf(s.log, id) == [])
    && (forall k :: 0 <= k < |s.ops| && s.ops[k].Put? ==> PutHasSource(cfg, s, s.ops[k]))
  }

  /** A step touches one flight, only adds to the histories, and logs at most its own
      action. */
  ghost predicate Grows(s: System, s': System, id: nat) {
    && id in s'.flights && s'.flights == s.flights[id := s'.flights[id]]
    && (id in s.flights ==> Keeps(s.flights[id], s'.flights[id]))
    && s.ops <= s'.ops && s.events <= s'.events
    && (s'.log == s.log || exists t :: s'.log == s.log + [(id, t)])
  }

  /** Flights keep what they brought and, once given, their answer. */
  ghost predicate Keeps(fl: Flight, fl': Flight) {
    fl'.intake == fl.intake && fl'.now == fl.now && (fl.answer.Some? ==> fl'.answer == fl.answer)
  }

  lemma OtherActionsStay(s: System, s': System, id: nat, other: nat)
    requires Grows(s, s', id) && other != id
    ensures ActionsOf(s'.log, other) == ActionsOf(s.log, other)
  {
    if s'.log != s.log {
      var t :| s'.log == s.log + [(id, t)];
      ActionsAppend(s.log, id, t, other);
    }
  }

  lemma OtherFlightStaysOk(cfg: Config, s: System, s': System, id: nat, other: nat)
    requires Grows(s, s', id) && other != id && other in s.flights && FlightOk(cfg, s, other)
    ensures other in s'.flights && FlightOk(cfg, s', other)
  {
    OtherActionsStay(s, s', id, other);
    var fl := s.flights[other];
    assert other in s'.flights && s'.flights[other] == fl;
    if fl.phase == Done {
      var t :| ActionsOf(s.log, other) == [t] && Earned(cfg, s.ops, s.events, fl, t);
      EarnedStays(cfg, s.ops, s.events, s'.ops, s'.events, fl, t);
    } else {
      RecordsStay(cfg, s.ops, s.events, s'.ops, s'.events, fl);
    }
  }

  ghost predicate IsSource(cfg: Config, fl: Flight, op: Op)
    requires op.Put?
  {
    Validated(fl, op.response) && op.fingerprint == Key(cfg, fl) && op.now == fl.now
  }

  lemma KeepsSource(cfg: Config, fl: Flight, fl': Flight, op: Op)
    requires op.Put? && Keeps(fl, fl') && IsSource(cfg, fl, op)
    ensures IsSource(cfg, fl', op)
  {}

  lemma SourceStays(cfg: Config, s: System, s': System, id: nat, op: Op)
    requires Grows(s, s', id) && op.Put? && PutHasSource(cfg, s, op)
    ensures PutHasSource(cfg, s', op)
  {
    var source :| source in s.flights && IsSource(cfg, s.flights[source], op);
    if source == id {
      KeepsSource(cfg, s.flights[id], s'.flights[id], op);
    } else {
      assert s'.flights[source] == s.flights[source];
    }
    assert source in s'.flights && IsSource(cfg, s'.flights[source], op);
  }

  /** An outstanding request elsewhere stays outstanding. */
  lemma ProbeStays(s: System, s': System, id: nat)
    requires ProbeAccounted(s) && Grows(s, s', id)
    requires s'.breaker.probe ==> s.breaker.probe || Outstanding(s'.flights[id])
    requires s'.breaker.probe && id in s.flights && Outstanding(s.flights[id]) ==> Outstanding(s'.flights[id])
    ensures ProbeAccounted(s')
  {
    if s'.breaker.probe && !Outstanding(s'.flights[id]) {
      var other :| other in s.flights && Outstanding(s.flights[other]);
      assert other in s'.flights && s'.flights[other] == s.flights[other];
    }
  }

  /** What a step may rely on about its own flight and the histories, and what it has to
      show. */
  ghost predicate Before(cfg: Config, s: System, id: nat) {
    && HistoriesFit(cfg, s) && ProbeAccounted(s)
    && if id in s.flights then FlightOk(cfg, s, id) else ActionsOf(s.log, id) == []
  }

  ghost predicate After(cfg: Config, s: System, s': System, id: nat) {
    && Grows(s, s', id) && HistoriesFit(cfg, s') && ProbeAccounted(s') && FlightOk(cfg, s', id)
    && NewPutsHaveSources(cfg, s, s')
  }

  ghost predicate NewPutsHaveSources(cfg: Config, s: System, s': System) {
    forall k :: |s.ops| <= k < |s'.ops| && s'.ops[k].Put? ==> PutHasSource(cfg, s', s'.ops[k])
  }

  lemma InvBefore(cfg: Config, s: System, id: nat)
    requires Inv(cfg, s)
    ensures Before(cfg, s, id)
  {}

  /** That is enough: every other flight and every earlier insertion stays in order. */
  lemma StepIsLocal(cfg: Config, s: System, s': System, id: nat)
    requires Inv(cfg, s) && After(cfg, s, s', id)
    ensures Inv(cfg, s')
  {
    forall other | other in s'.flights ensures FlightOk(cfg, s', other) {
      if other != id {
        OtherFlightStaysOk(cfg, s, s', id, other);
      }
    }
    forall other | other !in s'.flights ensures ActionsOf(s'.log, other) == [] {
      OtherActionsStay(s, s', id, other);
    }
    forall k | 0 <= k < |s'.ops| && s'.ops[k].Put? ensures PutHasSource(cfg, s', s'.ops[k]) {
      if k < |s.ops| {
        assert s'.ops[k] == s.ops[k];
        SourceStays(cfg, s, s', id, s.ops[k]);
      }
    }
  }

  /** The step ends the flight with an action it has earned. */
  lemma FinishedIsOk(cfg: Config, s: System, s': System, id: nat, fl: Flight, t: Terminal)
    requires ActionsOf(s.log, id) == [] && s' == Finish(s, id, fl, t)
    requires Earned(cfg, s.ops, s.events, s'.flights[id], t)
    ensures FlightOk(cfg, s', id)
  {
    ActionsAppend(s.log, id, t, id);
  }

  lemma ArriveIsLocal(cfg: Config, s: System, id: nat, intake: Intake, now: Time, s': System)
    requires Before(cfg, s, id) && ArriveStep(cfg, s, id, intake, now, s')
    ensures After(cfg, s, s', id)
  {
    var fl := Flight(intake, now, Captured, None, None, None);
    if !intake.Evaluate? {
      TurnawayIsEarned(cfg, s.ops, s.events, s'.flights[id]);
      FinishedIsOk(cfg, s, s', id, fl, Turnaway(cfg, intake));
    }
    ProbeStays(s, s', id);
  }

  lemma TurnawayIsEarned(cfg: Config, ops: seq<Op>, events: seq<Event>, fl: Flight)
    requires !fl.intake.Evaluate?
    ensures Earned(cfg, ops, events, fl, Turnaway(cfg, fl.intake))
  {
    if fl.intake.NoClientAddress? || fl.intake.BodyUnreadable? {
      FailureIsEarned(cfg, ops, events, fl, AgentUnavailable);
    }
  }

  lemma LookUpIsLocal(cfg: Config, s: System, id: nat, s': System)
    requires Before(cfg, s, id) && LookUpStep(cfg, s, id, s')
    ensures After(cfg, s, s', id)
  {
    var fl := s.flights[id].(lookup := Some(|s.ops|));
    LookUpGrows(cfg, s, id, s');
    LookUpFitsHistory(cfg, s, id, s');
    var hit := Lookup(cfg.limits, s.ledger, Key(cfg, fl), fl.intake.input.requestID, fl.now);
    LookUpKeepsFlight(cfg, s, id, fl, hit, s');
    ProbeStays(s, s', id);
  }

  lemma LookUpGrows(cfg: Config, s: System, id: nat, s': System)
    requires LookUpStep(cfg, s, id, s')
    ensures Grows(s, s', id) && NewPutsHaveSources(cfg, s, s')
    ensures s'.breaker == s.breaker && !Outstanding(s.flights[id])
  {}

  lemma LookUpFitsHistory(cfg: Config, s: System, id: nat, s': System)
    requires HistoriesFit(cfg, s) && LookUpStep(cfg, s, id, s')
    ensures HistoriesFit(cfg, s')
  {
    var fl := s.flights[id];
    var hit := Lookup(cfg.limits, s.ledger, Key(cfg, fl), fl.intake.input.requestID, fl.now);
    RunExtends(cfg.limits, s.ops, s.ledgers, Op.Get(Key(cfg, fl), fl.intake.input.requestID, fl.now, hit), s'.ledger);
  }

  lemma LookUpKeepsFlight(
    cfg: Config, s: System, id: nat, fl: Flight, hit: Option<EvaluationResponse>, s': System)
    requires InPhase(s, id, Captured) && FlightOk(cfg, s, id) && HistoriesFit(cfg, s)
    requires fl == s.flights[id].(lookup := Some(|s.ops|))
    requires hit == Lookup(cfg.limits, s.ledger, Key(cfg, fl), fl.intake.input.requestID, fl.now)
    requires s'.ops == s.ops + [Op.Get(Key(cfg, fl), fl.intake.input.requestID, fl.now, hit)]
    requires s'.flights == s.flights[id := fl.(phase := if hit.Some? then Done else Missed)]
    requires s'.log == if hit.Some? then s.log + [(id, HandleDecision(cfg, hit.value))] else s.log
    ensures FlightOk(cfg, s', id)
  {
    if hit.Some? {
      HitsAreDenies(cfg, s, Key(cfg, fl), fl.intake.input.requestID, fl.now);
      DenyIsEarned(cfg, s'.ops, s'.events, s'.flights[id], hit.value);
      ActionsAppend(s.log, id, HandleDecision(cfg, hit.value), id);
    }
  }

  /** Whatever the cache serves is an authorized block or rate limit. */
  lemma HitsAreDenies(cfg: Config, s: System, f: string, requestID: string, now: Time)
    requires HistoriesFit(cfg, s) && Lookup(cfg.limits, s.ledger, f, requestID, now).Some?
    ensures var r := Lookup(cfg.limits, s.ledger, f, requestID, now).value;
            r.decision in {Block, RateLimit} && r.challengeToken == "" && r.cacheable
  {
    ReachableLedgers(cfg.limits, s.ops, s.ledgers, |s.ops|);
    assert Authorized(cfg.limits, s.ledger.entries[f].response);
  }

  lemma AskIsLocal(cfg: Config, s: System, id: nat, s': System)
    requires Before(cfg, s, id) && AskStep(cfg, s, id, s')
    ensures After(cfg, s, s', id)
  {
    AskGrows(cfg, s, id, s');
    AskFitsHistory(cfg, s, id, s');
    AskKeepsFlight(cfg, s, id, s');
    ProbeStays(s, s', id);
  }

  lemma AskGrows(cfg: Config, s: System, id: nat, s': System)
    requires AskStep(cfg, s, id, s')
    ensures Grows(s, s', id) && NewPutsHaveSources(cfg, s, s')
    ensures s'.breaker.probe ==> s.breaker.probe || Outstanding(s'.flights[id])
    ensures !Outstanding(s.flights[id])
  {}

  lemma AskFitsHistory(cfg: Config, s: System, id: nat, s': System)
    requires HistoriesFit(cfg, s) && AskStep(cfg, s, id, s')
    ensures HistoriesFit(cfg, s')
  {
    ReplayAppends(cfg.settings, s.events, Event.Allow(s.flights[id].now));
  }

  lemma AskKeepsFlight(cfg: Config, s: System, id: nat, s': System)
    requires AskStep(cfg, s, id, s') && FlightOk(cfg, s, id) && s.breaker == Replay(cfg.settings, s.events)
    ensures FlightOk(cfg, s', id)
  {
    var fl, fl' := s.flights[id].(asked := Some(|s.events|)), s'.flights[id];
    TestIsOnRecord(cfg, s.ops, s.events, fl);
    if Admits(s.breaker, fl.now) {
      assert Admitted(cfg, s'.ops, s'.events, fl');
    } else {
      assert Refused(cfg, s'.ops, s'.events, fl');
      FailureIsEarned(cfg, s'.ops, s'.events, fl', AgentUnavailable);
      FinishedIsOk(cfg, s.(breaker := s'.breaker, events := s'.events), s', id, fl,
                   HandleFailure(cfg, AgentUnavailable));
    }
  }

  /** An admission test that has just been made. */
  lemma TestIsOnRecord(cfg: Config, ops: seq<Op>, events: seq<Event>, fl: Flight)
    requires FoundNothing(cfg, ops, fl) && fl.asked == Some(|events|)
    ensures var admitted, events' := Admits(Replay(cfg.settings, events), fl.now), events + [Event.Allow(fl.now)];
            if admitted then Admitted(cfg, ops, events', fl) else Refused(cfg, ops, events', fl)
  {
    TestDecides(cfg.settings, events, events + [Event.Allow(fl.now)], fl.now);
  }

  lemma TestDecides(settings: Settings, events: seq<Event>, events': seq<Event>, now: Time)
    requires events' == events + [Event.Allow(now)]
    ensures AdmittedAt(settings, events', |events|) <==> Admits(Replay(settings, events), now)
    ensures |events'| == |events| + 1 && events'[|events|] == Event.Allow(now)
  {
    assert events'[..|events|] == events;
  }

  lemma AnswerIsLocal(cfg: Config, s: System, id: nat, answer: Answer, s': System)
    requires Before(cfg, s, id) && AnswerStep(cfg, s, id, answer, s')
    ensures After(cfg, s, s', id)
  {
    AnswerGrows(cfg, s, id, answer, s');
    AnswerKeepsFlight(cfg, s, id, answer, s');
    ProbeStays(s, s', id);
  }

  lemma AnswerGrows(cfg: Config, s: System, id: nat, answer: Answer, s': System)
    requires AnswerStep(cfg, s, id, answer, s')
    requires s.flights[id].answer == None
    ensures Grows(s, s', id) && NewPutsHaveSources(cfg, s, s')
    ensures Outstanding(s'.flights[id]) && s'.breaker == s.breaker
  {}

  lemma AnswerKeepsFlight(cfg: Config, s: System, id: nat, answer: Answer, s': System)
    requires AnswerStep(cfg, s, id, answer, s') && FlightOk(cfg, s, id)
    ensures FlightOk(cfg, s', id)
  {}

  lemma ReportIsLocal(cfg: Config, s: System, id: nat, s': System)
    requires Before(cfg, s, id) && ReportStep(cfg, s, id, s')
    ensures After(cfg, s, s', id)
  {
    ReportGrows(cfg, s, id, s');
    ReportFitsHistory(cfg, s, id, s');
    ReportKeepsFlight(cfg, s, id, s');
  }

  lemma ReportGrows(cfg: Config, s: System, id: nat, s': System)
    requires ReportStep(cfg, s, id, s')
    ensures Grows(s, s', id) && NewPutsHaveSources(cfg, s, s')
  {}

  lemma ReportKeepsFlight(cfg: Config, s: System, id: nat, s': System)
    requires ReportStep(cfg, s, id, s') && FlightOk(cfg, s, id)
    ensures FlightOk(cfg, s', id)
  {
    var fl := s.flights[id];
    RecordsStay(cfg, s.ops, s.events, s'.ops, s'.events, fl);
    if fl.answer.value.Failed? {
      AnsweredFails(cfg, s.(breaker := s'.breaker, events := s'.events), id, fl, fl.answer.value.kind, s');
    } else if fl.answer.value.response.decision == Error {
      AnsweredFails(cfg, s.(breaker := s'.breaker, events := s'.events), id, fl, AgentUnavailable, s');
    } else {
      assert Validated(s'.flights[id], fl.answer.value.response);
    }
  }

  /** An admitted request whose answer is a failure has earned what failures end in. */
  lemma AnsweredFails(cfg: Config, s: System, id: nat, fl: Flight, kind: AgentErrorKind, s': System)
    requires ActionsOf(s.log, id) == [] && s' == Finish(s, id, fl, HandleFailure(cfg, kind))
    requires Admitted(cfg, s.ops, s.events, fl) && fl.answer.Some?
    requires ValidAnswer(fl.intake.input.requestID, fl.answer.value)
    requires match fl.answer.value
             case Failed(k) => kind == k
             case Response(r) => kind == AgentUnavailable && r.decision == Error
    ensures FlightOk(cfg, s', id)
  {
    var fl' := s'.flights[id];
    assert Admitted(cfg, s.ops, s.events, fl');
    if fl.answer.value.Response? {
      assert Validated(fl', fl.answer.value.response);
    }
    FailureIsEarned(cfg, s.ops, s.events, fl', kind);
    FinishedIsOk(cfg, s, s', id, fl, HandleFailure(cfg, kind));
  }

  lemma ReportFitsHistory(cfg: Config, s: System, id: nat, s': System)
    requires HistoriesFit(cfg, s) && ReportStep(cfg, s, id, s')
    ensures HistoriesFit(cfg, s') && !s'.breaker.probe
  {
    var fl := s.flights[id];
    ReplayAppends(cfg.settings, s.events, Event.Failure(fl.now));
    ReplayAppends(cfg.settings, s.events, Event.Success);
  }

  lemma StoreIsLocal(cfg: Config, s: System, id: nat, s': System)
    requires Before(cfg, s, id) && StoreStep(cfg, s, id, s')
    ensures After(cfg, s, s', id)
  {
    StoreGrows(cfg, s, id, s');
    StoreFitsHistory(cfg, s, id, s');
    StoreKeepsFlight(cfg, s, id, s');
    StoreHasSource(cfg, s, id, s');
    ProbeStays(s, s', id);
  }

  lemma StoreGrows(cfg: Config, s: System, id: nat, s': System)
    requires StoreStep(cfg, s, id, s')
    ensures Grows(s, s', id) && s'.breaker == s.breaker && !Outstanding(s.flights[id])
  {}

  lemma StoreFitsHistory(cfg: Config, s: System, id: nat, s': System)
    requires HistoriesFit(cfg, s) && StoreStep(cfg, s, id, s')
    ensures HistoriesFit(cfg, s')
  {
    var fl := s.flights[id];
    RunExtends(cfg.limits, s.ops, s.ledgers, Op.Put(Key(cfg, fl), fl.answer.value.response, fl.now), s'.ledger);
  }

  lemma StoreHasSource(cfg: Config, s: System, id: nat, s': System)
    requires StoreStep(cfg, s, id, s') && FlightOk(cfg, s, id)
    ensures NewPutsHaveSources(cfg, s, s')
  {
    var op := Op.Put(Key(cfg, s.flights[id]), s.flights[id].answer.value.response, s.flights[id].now);
    assert s'.ops == s.ops + [op];
    assert id in s'.flights && IsSource(cfg, s'.flights[id], op);
    assert PutHasSource(cfg, s', op);
  }

  lemma StoreKeepsFlight(cfg: Config, s: System, id: nat, s': System)
    requires StoreStep(cfg, s, id, s') && FlightOk(cfg, s, id)
    ensures FlightOk(cfg, s', id)
  {
    var fl, fl' := s.flights[id], s'.flights[id];
    var r := fl.answer.value.response;
    RecordsStay(cfg, s.ops, s.events, s'.ops, s'.events, fl);
    AnswerIsEarned(cfg, s'.ops, s'.events, fl', r);
    ActionsAppend(s.log, id, HandleDecision(cfg, r), id);
  }

  lemma StepKeepsInv(cfg: Config, s: System, step: Label, s': System)
    requires Inv(cfg, s) && Step(cfg, s, step, s')
    ensures Inv(cfg, s')
  {
    InvBefore(cfg, s, step.id);
    StepMovesOne(cfg, s, step, s');
    StepIsLocal(cfg, s, s', step.id);
  }

  lemma StepMovesOne(cfg: Config, s: System, step: Label, s': System)
    requires Before(cfg, s, step.id) && Step(cfg, s, step, s')
    ensures After(cfg, s, s', step.id)
  {
    match step
    case Arrive(id, intake, now) => ArriveIsLocal(cfg, s, id, intake, now, s');
    case LookUp(id) => LookUpIsLocal(cfg, s, id, s');
    case Ask(id) => AskIsLocal(cfg, s, id, s');
    case AgentAnswers(id, answer) => AnswerIsLocal(cfg, s, id, answer, s');
    case Report(id) => ReportIsLocal(cfg, s, id, s');
    case Store(id) => StoreIsLocal(cfg, s, id, s');
  }

  lemma {:induction false} InvAlong(cfg: Config, states: seq<System>, labels: seq<Label>, n: nat)
    requires Path(cfg, states, labels) && n <= |labels| && Inv(cfg, states[0])
    ensures Inv(cfg, states[n])
  {
    if n > 0 {
      InvAlong(cfg, states, labels, n - 1);
      assert StepsAt(cfg, states, labels, n - 1);
      StepKeepsInv(cfg, states[n - 1], labels[n - 1], states[n]);
    }
  }

  /** Every interleaving of any number of requests keeps the invariant. */
  lemma ReachableInv(cfg: Config, s: System)
    requires Reachable(cfg, s)
    ensures Inv(cfg, s)
  {
    var states, labels :| Connects(cfg, states, labels, START, s);
    StartInv(cfg);
    InvAlong(cfg, states, labels, |labels|);
  }

  lemma StartInv(cfg: Config)
    ensures Inv(cfg, START)
  {}
}

/** ServeHTTP over the mutable cache and breaker (middleware.go, lines 15-150). Each
    request served is a path of the step machine in Pipeline, from one reachable state to
    another, so that everything in PipelineResults holds of this class. */
module Middlewares {
  import opened Agent
  import opened CacheKey
  import opened CacheRuns
  import opened CircuitBreakers
  import opened DecisionCaches
  import opened Pipeline
  import PipelineResults
  import opened SerialRuns

  class Middleware {
    const cfg: Config
    const cache: DecisionCache
    const breaker: CircuitBreaker
    /** The terminal actions performed so far. */
    var performed: seq<Terminal>
    /** The state of the step machine: every request served so far, numbered as they came,
        and which action was whose. */
    ghost var system: System
    ghost var arrived: nat

    /** The same with what the cache and the breaker hold now and one more request. */
    ghost function Serving(id: nat, fl: Flight, entries: Log): System
      reads this, cache, breaker
    {
      System(cache.Current(), breaker.Fields(), system.flights[id := fl], entries,
             cache.ops, cache.ledgers, breaker.history)
    }

    /** The state is that of the cache and the breaker. */
    ghost predicate Matches(s: System)
      reads cache, breaker
    {
      && s.ledger == cache.Current() && s.ops == cache.ops && s.ledgers == cache.ledgers
      && s.breaker == breaker.Fields() && s.events == breaker.history
    }

    ghost predicate Sound()
      reads cache, breaker
    {
      && ValidConfig(cfg)
      && cache.Valid() && cache.limits == cfg.limits && cache.digest == cfg.digest
      && breaker.Valid() && breaker.settings == cfg.settings
    }

    ghost predicate Valid()
      reads this, cache, breaker
    {
      Sound() && Matches(system) && Consistent(cfg, system, performed, arrived)
    }

    constructor (cfg: Config)
      requires ValidConfig(cfg)
      ensures Valid() && fresh(cache) && fresh(breaker) && this.cfg == cfg
      ensures performed == [] && system == START
    {
      this.cfg := cfg;
      cache := new DecisionCache(cfg.limits, cfg.digest);
      breaker := new CircuitBreaker(cfg.settings);
      performed, system, arrived := [], START, 0;
      new;
      LeadsNowhere(cfg, START);
    }

    /** One request from arrival to its single terminal action, which it has earned. The
        answer is what the Agent says if it is asked. */
    method ServeHTTP(intake: Intake, now: Time, answer: Answer)
      requires Valid()
      requires intake.Evaluate? ==> ValidAnswer(intake.input.requestID, answer)
      modifies this`performed, this`system, this`arrived, cache, breaker
      ensures Valid() && Leads(cfg, old(system), system)
      ensures arrived == old(arrived) + 1 && old(arrived) !in old(system).flights && old(arrived) in system.flights
      ensures system.flights == old(system).flights[old(arrived) := system.flights[old(arrived)]]
      ensures ServedAs(intake, now, answer, system.flights[old(arrived)])
      ensures exists t :: performed == old(performed) + [t] && system.log == old(system).log + [(old(arrived), t)]
                          && Earned(cfg, system.ops, system.events, system.flights[old(arrived)], t)
    {
      ghost var fl, t, s1 := Advance(intake, now, answer);
      Settle(s1);
    }

    /** What one request makes of a valid middleware, and the state that leads to. */
    method Advance(intake: Intake, now: Time, answer: Answer)
      returns (ghost fl: Flight, ghost t: Terminal, ghost s1: System)
      requires Valid()
      requires intake.Evaluate? ==> ValidAnswer(intake.input.requestID, answer)
      modifies this`performed, cache, breaker
      ensures Sound() && Matches(s1) && Consistent(cfg, s1, performed, arrived + 1)
      ensures Leads(cfg, system, s1) && arrived !in system.flights && ServedAs(intake, now, answer, fl)
      ensures s1.flights == system.flights[arrived := fl] && s1.log == system.log + [(arrived, t)]
      ensures performed == old(performed) + [t] && Earned(cfg, s1.ops, s1.events, fl, t)
    {
      ghost var id := arrived;
      NextIsNew(cfg, system, performed, id);
      fl, t := Handle(intake, now, answer, id, system);
      s1 := Serving(id, fl, system.log + [(id, t)]);
      Concluded(cfg, system, old(performed), id, fl, t, s1);
      assert performed == old(performed) + [t];
    }

    /** The request that was just served joins those before it. */
    ghost method Settle(s1: System)
      requires Sound() && Matches(s1) && Consistent(cfg, s1, performed, arrived + 1)
      modifies this`system, this`arrived
      ensures Valid() && system == s1 && arrived == old(arrived) + 1
    {
      system, arrived := s1, arrived + 1;
    }

    method Handle(intake: Intake, now: Time, answer: Answer, ghost id: nat, ghost s0: System)
      returns (ghost end: Flight, ghost t: Terminal)
      requires Sound() && s0 == system && Matches(s0) && id !in system.flights
      requires intake.Evaluate? ==> ValidAnswer(intake.input.requestID, answer)
      modifies this`performed, cache, breaker
      ensures Sound() && Leads(cfg, s0, Serving(id, end, system.log + [(id, t)]))
      ensures ServedAs(intake, now, answer, end) && performed == old(performed) + [t]
      ensures Accounted(cfg.settings, s0.events, end, breaker.history)
    {
      if intake.Evaluate? {
        end, t := Serve(intake.input, now, answer, id, s0);
      } else {
        end, t := TurnAway(intake, now, id, s0);
      }
    }

    /** While the Agent answers nothing and requests are stamped in the order they are
        served, any window sees at most failureThreshold + width / openDuration requests
        put to it, whatever the cache has served in between. */
    lemma StormIsBounded(start: Time, width: nat)
      requires Valid() && AllFailed(system.flights) && StampedInOrder(system.flights)
      ensures |AskedWithin(system.flights, arrived, start, width)|
              <= cfg.settings.failureThreshold + width / cfg.settings.openDuration
    {
      FailingRequestsAreBounded(cfg.settings, system.flights, arrived, breaker.history, start, width);
    }

    /** A request that the first half of ServeHTTP ends. */
    method TurnAway(intake: Intake, now: Time, ghost id: nat, ghost s0: System)
      returns (ghost end: Flight, ghost t: Terminal)
      requires Sound() && s0 == system && Matches(s0) && id !in system.flights && !intake.Evaluate?
      modifies this`performed
      ensures Sound() && Leads(cfg, s0, Serving(id, end, system.log + [(id, t)]))
      ensures end == Flight(intake, now, Done, None, None, None) && performed == old(performed) + [t]
      ensures Accounted(cfg.settings, breaker.history, end, breaker.history)
    {
      t := Turnaway(cfg, intake);
      performed := performed + [Turnaway(cfg, intake)];
      end := Flight(intake, now, Done, None, None, None);
      AccountedServed(cfg.settings, breaker.history, end);
      TurnedAway(cfg, s0, id, intake, now, Serving(id, end, system.log + [(id, t)]));
    }

    method Serve(input: EvaluationRequest, now: Time, answer: Answer, ghost id: nat, ghost s0: System)
      returns (ghost end: Flight, ghost t: Terminal)
      requires Sound() && s0 == system && Matches(s0) && id !in system.flights && ValidAnswer(input.requestID, answer)
      modifies this`performed, cache, breaker
      ensures Sound() && Leads(cfg, s0, Serving(id, end, system.log + [(id, t)]))
      ensures ServedAs(Evaluate(input), now, answer, end) && performed == old(performed) + [t]
      ensures Accounted(cfg.settings, old(breaker.history), end, breaker.history)
    {
      ghost var fl := Flight(Evaluate(input), now, Captured, None, None, None);
      Begin(cfg, s0, id, fl, Serving(id, fl, system.log));
      ghost var missed;
      var cached;
      cached, missed := LookUpCached(input, now, id, fl, s0);
      if cached.Some? {
        t := HandleDecision(cfg, cached.value);
        performed := performed + [HandleDecision(cfg, cached.value)];
        end := missed.(phase := Done);
        AccountedServed(cfg.settings, breaker.history, end);
        return;
      }
      end, t := EvaluateRequest(input, now, answer, id, missed, s0);
    }

    /** m.cache.get as a step. */
    method LookUpCached(input: EvaluationRequest, now: Time, ghost id: nat, ghost fl: Flight, ghost s0: System)
      returns (cached: Option<EvaluationResponse>, ghost missed: Flight)
      requires Sound() && Leads(cfg, s0, Serving(id, fl, system.log))
      requires fl == Flight(Evaluate(input), now, Captured, None, None, None)
      modifies cache
      ensures Sound() && missed == fl.(lookup := missed.lookup, phase := Missed)
      ensures cached.Some? ==>
                Leads(cfg, s0, Serving(id, missed.(phase := Done),
                                       system.log + [(id, HandleDecision(cfg, cached.value))]))
      ensures cached.None? ==> Leads(cfg, s0, Serving(id, missed, system.log))
    {
      ghost var s := Serving(id, fl, system.log);
      cached := cache.Get(input, input.requestID, now);
      missed := fl.(lookup := Some(|s.ops|), phase := Missed);
      if cached.Some? {
        LookUpLeads(cfg, s0, s, id, system.flights, fl, cached,
                    Serving(id, missed.(phase := Done), system.log + [(id, HandleDecision(cfg, cached.value))]));
      } else {
        LookUpLeads(cfg, s0, s, id, system.flights, fl, cached, Serving(id, missed, system.log));
      }
    }

    /** ServeHTTP after a cache miss. */
    method EvaluateRequest(input: EvaluationRequest, now: Time, answer: Answer,
                           ghost id: nat, ghost fl: Flight, ghost s0: System)
      returns (ghost end: Flight, ghost t: Terminal)
      requires Sound() && ValidAnswer(input.requestID, answer) && Leads(cfg, s0, Serving(id, fl, system.log))
      requires fl == Flight(Evaluate(input), now, Missed, fl.lookup, None, None)
      modifies this`performed, cache, breaker
      ensures Sound() && Leads(cfg, s0, Serving(id, end, system.log + [(id, t)]))
      ensures ServedAs(Evaluate(input), now, answer, end) && performed == old(performed) + [t]
      ensures Accounted(cfg.settings, old(breaker.history), end, breaker.history)
    {
      ghost var h := breaker.history;
      var admitted;
      ghost var asked;
      admitted, asked := AskBreaker(input, now, answer, id, fl, s0);
      if !admitted {
        t := HandleFailure(cfg, AgentUnavailable);
        performed := performed + [HandleFailure(cfg, AgentUnavailable)];
        end := asked;
        AccountedRefused(cfg.settings, h, end, breaker.history);
        return;
      }
      end, t := HandleAnswer(input, now, answer, id, asked, s0);
      AccountedAdmitted(cfg.settings, h, end, breaker.history);
    }

    /** m.breaker.allow as a step, and the Agent's answer if it admits the request. */
    method AskBreaker(input: EvaluationRequest, now: Time, answer: Answer,
                      ghost id: nat, ghost fl: Flight, ghost s0: System)
      returns (admitted: bool, ghost asked: Flight)
      requires Sound() && ValidAnswer(input.requestID, answer) && Leads(cfg, s0, Serving(id, fl, system.log))
      requires fl == Flight(Evaluate(input), now, Missed, fl.lookup, None, None)
      modifies breaker
      ensures Sound() && breaker.history == old(breaker.history) + [Event.Allow(now)]
      ensures admitted == Admits(Replay(cfg.settings, old(breaker.history)), now) && asked.asked.Some?
      ensures !admitted ==>
                && asked == fl.(asked := asked.asked, phase := Done)
                && Leads(cfg, s0, Serving(id, asked, system.log + [(id, HandleFailure(cfg, AgentUnavailable))]))
      ensures admitted ==>
                && asked == fl.(asked := asked.asked, answer := Some(answer), phase := Answered)
                && Leads(cfg, s0, Serving(id, asked, system.log))
    {
      ghost var s := Serving(id, fl, system.log);
      admitted := breaker.Allow(now);
      if admitted {
        ghost var asking := fl.(asked := Some(|s.events|), phase := Asking);
        AskLeads(cfg, s0, s, id, system.flights, fl, Serving(id, asking, system.log));
        asked := asking.(answer := Some(answer), phase := Answered);
        AnswerLeads(cfg, s0, Serving(id, asking, system.log), id, system.flights, asking, answer,
                    Serving(id, asked, system.log));
      } else {
        asked := fl.(asked := Some(|s.events|), phase := Done);
        AskLeads(cfg, s0, s, id, system.flights, fl,
                 Serving(id, asked, system.log + [(id, HandleFailure(cfg, AgentUnavailable))]));
      }
    }

    /** ServeHTTP once the Agent has answered. */
    method HandleAnswer(input: EvaluationRequest, now: Time, answer: Answer,
                        ghost id: nat, ghost fl: Flight, ghost s0: System)
      returns (ghost end: Flight, ghost t: Terminal)
      requires Sound() && Leads(cfg, s0, Serving(id, fl, system.log))
      requires fl == Flight(Evaluate(input), now, Answered, fl.lookup, fl.asked, Some(answer))
      modifies this`performed, cache, breaker
      ensures Sound() && Leads(cfg, s0, Serving(id, end, system.log + [(id, t)]))
      ensures ServedAs(Evaluate(input), now, answer, end) && performed == old(performed) + [t]
      ensures end == fl.(phase := Done) && breaker.history == old(breaker.history) + [ReportOf(end)]
    {
      if answer.Failed? {
        ReportFailure(now, answer.kind, id, fl, s0);
        t := HandleFailure(cfg, answer.kind);
        performed := performed + [HandleFailure(cfg, answer.kind)];
        end := fl.(phase := Done);
        return;
      }
      end, t := HandleResponse(input, now, answer.response, id, fl, s0);
    }

    /** ServeHTTP once the Agent has sent a valid response. */
    method HandleResponse(input: EvaluationRequest, now: Time, response: EvaluationResponse,
                          ghost id: nat, ghost fl: Flight, ghost s0: System)
      returns (ghost end: Flight, ghost t: Terminal)
      requires Sound() && Leads(cfg, s0, Serving(id, fl, system.log))
      requires fl == Flight(Evaluate(input), now, Answered, fl.lookup, fl.asked, Some(Response(response)))
      modifies this`performed, cache, breaker
      ensures Sound() && Leads(cfg, s0, Serving(id, end, system.log + [(id, t)]))
      ensures ServedAs(Evaluate(input), now, Response(response), end) && performed == old(performed) + [t]
      ensures end == fl.(phase := Done) && breaker.history == old(breaker.history) + [Event.Success]
    {
      ReportSuccess(response, id, fl, s0);
      end := fl.(phase := Done);
      if response.decision == Error {
        t := HandleFailure(cfg, AgentUnavailable);
        performed := performed + [HandleFailure(cfg, AgentUnavailable)];
        return;
      }
      StoreDecision(input, response, now, id, fl.(phase := Storing), s0);
      t := HandleDecision(cfg, response);
      performed := performed + [HandleDecision(cfg, response)];
    }

    /** m.breaker.failure as a step. */
    method ReportFailure(now: Time, kind: AgentErrorKind, ghost id: nat, ghost fl: Flight, ghost s0: System)
      requires Sound() && Leads(cfg, s0, Serving(id, fl, system.log))
      requires fl.intake.Evaluate? && fl.now == now && fl.phase == Answered && fl.answer == Some(Failed(kind))
      modifies breaker
      ensures Sound() && Leads(cfg, s0, Serving(id, fl.(phase := Done), system.log + [(id, HandleFailure(cfg, kind))]))
      ensures breaker.history == old(breaker.history) + [Event.Failure(now)]
    {
      ghost var s := Serving(id, fl, system.log);
      breaker.Failure(now);
      FailureLeads(cfg, s0, s, id, system.flights, fl, kind,
                   Serving(id, fl.(phase := Done), system.log + [(id, HandleFailure(cfg, kind))]));
    }

    /** m.breaker.success as a step; an "error" decision ends the request here. */
    method ReportSuccess(response: EvaluationResponse, ghost id: nat, ghost fl: Flight, ghost s0: System)
      requires Sound() && Leads(cfg, s0, Serving(id, fl, system.log))
      requires fl.intake.Evaluate? && fl.phase == Answered && fl.answer == Some(Response(response))
      modifies breaker
      ensures Sound() && breaker.history == old(breaker.history) + [Event.Success]
      ensures response.decision == Error ==>
                Leads(cfg, s0, Serving(id, fl.(phase := Done),
                                       system.log + [(id, HandleFailure(cfg, AgentUnavailable))]))
      ensures response.decision != Error ==> Leads(cfg, s0, Serving(id, fl.(phase := Storing), system.log))
    {
      ghost var s := Serving(id, fl, system.log);
      breaker.Success();
      if response.decision == Error {
        SuccessLeads(cfg, s0, s, id, system.flights, fl, response,
                     Serving(id, fl.(phase := Done), system.log + [(id, HandleFailure(cfg, AgentUnavailable))]));
      } else {
        SuccessLeads(cfg, s0, s, id, system.flights, fl, response, Serving(id, fl.(phase := Storing), system.log));
      }
    }

    /** m.cache.put as a step. */
    method StoreDecision(input: EvaluationRequest, response: EvaluationResponse, now: Time,
                         ghost id: nat, ghost fl: Flight, ghost s0: System)
      requires Sound() && Leads(cfg, s0, Serving(id, fl, system.log))
      requires fl.intake == Evaluate(input) && fl.now == now && fl.phase == Storing
      requires fl.answer == Some(Response(response))
      modifies cache
      ensures Sound()
      ensures Leads(cfg, s0, Serving(id, fl.(phase := Done), system.log + [(id, HandleDecision(cfg, response))]))
    {
      ghost var s := Serving(id, fl, system.log);
      cache.Put(input, response, now);
      StoreLeads(cfg, s0, s, id, system.flights, fl, response,
                 Serving(id, fl.(phase := Done), system.log + [(id, HandleDecision(cfg, response))]));
    }
  }

  /** The final record of a request; the only answer it can hold is the Agent's. */
  ghost predicate ServedAs(intake: Intake, now: Time, answer: Answer, fl: Flight) {
    && fl.intake == intake && fl.now == now && fl.phase == Done
    && (fl.answer == None || fl.answer == Some(answer))
  }

  ghost function ActionsIn(log: Log): (r: seq<Terminal>)
    ensures |r| == |log|
  {
    seq(|log|, k requires 0 <= k < |log| => log[k].1)
  }

  lemma ActionsInAppend(log: Log, id: nat, t: Terminal)
    ensures ActionsIn(log + [(id, t)]) == ActionsIn(log) + [t]
  {}

  /** A reachable state, its requests served in turn, and the actions performed in it. */
  ghost predicate Consistent(cfg: Config, s: System, performed: seq<Terminal>, arrived: nat) {
    && Reachable(cfg, s) && ActionsIn(s.log) == performed
    && InTurn(cfg.settings, s.flights, arrived, s.events)
  }

  lemma NextIsNew(cfg: Config, s: System, performed: seq<Terminal>, arrived: nat)
    requires Consistent(cfg, s, performed, arrived)
    ensures arrived !in s.flights
  {}

  /** A request served from a consistent state leaves a consistent one, and has earned
      its action. */
  lemma Concluded(cfg: Config, s: System, performed: seq<Terminal>, id: nat, fl: Flight, t: Terminal, s': System)
    requires Consistent(cfg, s, performed, id) && Leads(cfg, s, s')
    requires s'.flights == s.flights[id := fl] && s'.log == s.log + [(id, t)]
    requires Accounted(cfg.settings, s.events, fl, s'.events)
    ensures Consistent(cfg, s', performed + [t], id + 1)
    ensures Earned(cfg, s'.ops, s'.events, fl, t)
  {
    ActionsInAppend(s.log, id, t);
    OneMoreInTurn(cfg.settings, s.flights, id, s.events, fl, s'.events);
    LeadsThrough(cfg, START, s, s');
    LastActionIsEarned(cfg, s, s', id, t);
  }

  lemma LastActionIsEarned(cfg: Config, s: System, s': System, id: nat, t: Terminal)
    requires Reachable(cfg, s') && s'.log == s.log + [(id, t)]
    ensures id in s'.flights && Earned(cfg, s'.ops, s'.events, s'.flights[id], t)
  {
    ActionsAppend(s.log, id, t, id);
    PipelineResults.ActionIsEarned(cfg, s', id, t);
  }

  // ---------------------------------------------------------------------
  // Each call is a step
  // ---------------------------------------------------------------------

  /** The state in which this request, next to those before it, stands as fl. */
  ghost predicate Stands(s: System, id: nat, others: map<nat, Flight>, fl: Flight) {
    s.flights == others[id := fl] && fl.intake.Evaluate?
  }

  lemma Moved(s: System, id: nat, others: map<nat, Flight>, fl: Flight, fl': Flight)
    requires Stands(s, id, others, fl)
    ensures s.flights[id := fl'] == others[id := fl']
  {}

  lemma TurnedAway(cfg: Config, s: System, id: nat, intake: Intake, now: Time, s': System)
    requires id !in s.flights && !intake.Evaluate?
    requires s' == s.(flights := s.flights[id := Flight(intake, now, Done, None, None, None)],
                      log := s.log + [(id, Turnaway(cfg, intake))])
    ensures Leads(cfg, s, s')
  {
    LeadsNowhere(cfg, s);
    assert ArriveStep(cfg, s, id, intake, now, s');
    LeadsOn(cfg, s, s, Arrive(id, intake, now), s');
  }

  lemma Begin(cfg: Config, s: System, id: nat, fl: Flight, s': System)
    requires id !in s.flights && fl.intake.Evaluate? && fl == Flight(fl.intake, fl.now, Captured, None, None, None)
    requires s' == s.(flights := s.flights[id := fl])
    ensures Leads(cfg, s, s')
  {
    LeadsNowhere(cfg, s);
    assert ArriveStep(cfg, s, id, fl.intake, fl.now, s');
    LeadsOn(cfg, s, s, Arrive(id, fl.intake, fl.now), s');
  }

  lemma LookUpLeads(cfg: Config, s0: System, s: System, id: nat, others: map<nat, Flight>, fl: Flight,
                    hit: Option<EvaluationResponse>, s': System)
    requires Leads(cfg, s0, s) && Stands(s, id, others, fl) && fl.phase == Captured
    requires GetStep(cfg.limits, s.ledger, Key(cfg, fl), fl.intake.input.requestID, fl.now, hit, s'.ledger)
    requires s' == s.(ledger := s'.ledger,
                      ops := s.ops + [Op.Get(Key(cfg, fl), fl.intake.input.requestID, fl.now, hit)],
                      ledgers := s.ledgers + [s'.ledger], flights := s'.flights, log := s'.log)
    requires s'.flights == others[id := fl.(lookup := Some(|s.ops|), phase := if hit.Some? then Done else Missed)]
    requires s'.log == if hit.Some? then s.log + [(id, HandleDecision(cfg, hit.value))] else s.log
    ensures Leads(cfg, s0, s')
  {
    Moved(s, id, others, fl, s'.flights[id]);
    LookUpAlone(cfg, s, id, fl, hit, s');
    LeadsOn(cfg, s0, s, LookUp(id), s');
  }

  lemma LookUpAlone(cfg: Config, s: System, id: nat, fl: Flight, hit: Option<EvaluationResponse>, s': System)
    requires InPhase(s, id, Captured) && s.flights[id] == fl
    requires GetStep(cfg.limits, s.ledger, Key(cfg, fl), fl.intake.input.requestID, fl.now, hit, s'.ledger)
    requires s' == s.(ledger := s'.ledger,
                      ops := s.ops + [Op.Get(Key(cfg, fl), fl.intake.input.requestID, fl.now, hit)],
                      ledgers := s.ledgers + [s'.ledger], flights := s'.flights, log := s'.log)
    requires s'.flights == s.flights[id := fl.(lookup := Some(|s.ops|), phase := if hit.Some? then Done else Missed)]
    requires s'.log == if hit.Some? then s.log + [(id, HandleDecision(cfg, hit.value))] else s.log
    ensures LookUpStep(cfg, s, id, s')
  {}

  lemma AskLeads(cfg: Config, s0: System, s: System, id: nat, others: map<nat, Flight>, fl: Flight, s': System)
    requires Leads(cfg, s0, s) && Stands(s, id, others, fl) && fl.phase == Missed
    requires s' == s.(breaker := AfterAllow(s.breaker, fl.now), events := s.events + [Event.Allow(fl.now)],
                      flights := s'.flights, log := s'.log)
    requires s'.flights == others[id := fl.(asked := Some(|s.events|),
                                            phase := if Admits(s.breaker, fl.now) then Asking else Done)]
    requires s'.log == if Admits(s.breaker, fl.now) then s.log
                       else s.log + [(id, HandleFailure(cfg, AgentUnavailable))]
    ensures Leads(cfg, s0, s')
  {
    Moved(s, id, others, fl, s'.flights[id]);
    assert AskStep(cfg, s, id, s');
    LeadsOn(cfg, s0, s, Ask(id), s');
  }

  lemma AnswerLeads(cfg: Config, s0: System, s: System, id: nat, others: map<nat, Flight>, fl: Flight,
                    answer: Answer, s': System)
    requires Leads(cfg, s0, s) && Stands(s, id, others, fl) && fl.phase == Asking
    requires ValidAnswer(fl.intake.input.requestID, answer)
    requires s' == s.(flights := others[id := fl.(answer := Some(answer), phase := Answered)])
    ensures Leads(cfg, s0, s')
  {
    Moved(s, id, others, fl, s'.flights[id]);
    assert AnswerStep(cfg, s, id, answer, s');
    LeadsOn(cfg, s0, s, AgentAnswers(id, answer), s');
  }

  lemma FailureLeads(cfg: Config, s0: System, s: System, id: nat, others: map<nat, Flight>, fl: Flight,
                     kind: AgentErrorKind, s': System)
    requires Leads(cfg, s0, s) && Stands(s, id, others, fl)
    requires fl.phase == Answered && fl.answer == Some(Failed(kind))
    requires s' == s.(breaker := AfterFailure(cfg.settings, s.breaker, fl.now),
                      events := s.events + [Event.Failure(fl.now)],
                      flights := others[id := fl.(phase := Done)], log := s.log + [(id, HandleFailure(cfg, kind))])
    ensures Leads(cfg, s0, s')
  {
    Moved(s, id, others, fl, s'.flights[id]);
    assert ReportStep(cfg, s, id, s');
    LeadsOn(cfg, s0, s, Report(id), s');
  }

  lemma SuccessLeads(cfg: Config, s0: System, s: System, id: nat, others: map<nat, Flight>, fl: Flight,
                     r: EvaluationResponse, s': System)
    requires Leads(cfg, s0, s) && Stands(s, id, others, fl)
    requires fl.phase == Answered && fl.answer == Some(Response(r))
    requires s' == s.(breaker := CLOSED, events := s.events + [Event.Success],
                      flights := s'.flights, log := s'.log)
    requires s'.flights == others[id := fl.(phase := if r.decision == Error then Done else Storing)]
    requires s'.log == if r.decision == Error then s.log + [(id, HandleFailure(cfg, AgentUnavailable))] else s.log
    ensures Leads(cfg, s0, s')
  {
    Moved(s, id, others, fl, s'.flights[id]);
    assert ReportStep(cfg, s, id, s');
    LeadsOn(cfg, s0, s, Report(id), s');
  }

  lemma StoreLeads(cfg: Config, s0: System, s: System, id: nat, others: map<nat, Flight>, fl: Flight,
                   r: EvaluationResponse, s': System)
    requires Leads(cfg, s0, s) && Stands(s, id, others, fl)
    requires fl.phase == Storing && fl.answer == Some(Response(r))
    requires PutStep(cfg.limits, s.ledger, Key(cfg, fl), r, fl.now, s'.ledger)
    requires s' == s.(ledger := s'.ledger, ops := s.ops + [Op.Put(Key(cfg, fl), r, fl.now)],
                      ledgers := s.ledgers + [s'.ledger], flights := s'.flights, log := s'.log)
    requires s'.flights == others[id := fl.(phase := Done)] && s'.log == s.log + [(id, HandleDecision(cfg, r))]
    ensures Leads(cfg, s0, s')
  {
    Moved(s, id, others, fl, s'.flights[id]);
    StoreAlone(cfg, s, id, fl, r, s');
    LeadsOn(cfg, s0, s, Store(id), s');
  }

  lemma StoreAlone(cfg: Config, s: System, id: nat, fl: Flight, r: EvaluationResponse, s': System)
    requires InPhase(s, id, Storing) && s.flights[id] == fl && fl.answer == Some(Response(r))
    requires PutStep(cfg.limits, s.ledger, Key(cfg, fl), r, fl.now, s'.ledger)
    requires s' == s.(ledger := s'.ledger, ops := s.ops + [Op.Put(Key(cfg, fl), r, fl.now)],
                      ledgers := s.ledgers + [s'.ledger], flights := s'.flights, log := s'.log)
    requires s'.flights == s.flights[id := fl.(phase := Done)] && s'.log == s.log + [(id, HandleDecision(cfg, r))]
    ensures StoreStep(cfg, s, id, s')
  {}
}

/** What a breaker hears when requests are served one after the other, and the storm bound
    in terms of those requests (cache.go, lines 206-238, middleware.go, lines 93-107). */
module SerialRuns {
  import opened Agent
  import opened CacheRuns
  import opened CircuitBreakers
  import opened Pipeline

  ghost function ReportOf(fl: Flight): Event {
    if fl.answer.Some? && fl.answer.value.Response? then Event.Success else Event.Failure(fl.now)
  }

  /** One request's part: nothing if the cache served it, else its admission test and, if
      admitted, its report. */
  ghost function Heard(s: Settings, h: seq<Event>, fl: Flight): seq<Event> {
    if fl.asked.None? then []
    else if Admits(Replay(s, h), fl.now) then [Event.Allow(fl.now), ReportOf(fl)]
    else [Event.Allow(fl.now)]
  }

  /** The Agent was asked exactly if the breaker admitted the request. */
  ghost predicate Accounted(s: Settings, h: seq<Event>, fl: Flight, h': seq<Event>) {
    && h' == h + Heard(s, h, fl)
    && (fl.answer.Some? <==> fl.asked.Some? && Admits(Replay(s, h), fl.now))
  }

  lemma AccountedAdmitted(s: Settings, h: seq<Event>, fl: Flight, h': seq<Event>)
    requires fl.asked.Some? && fl.answer.Some? && Admits(Replay(s, h), fl.now)
    requires h' == h + [Event.Allow(fl.now)] + [ReportOf(fl)]
    ensures Accounted(s, h, fl, h')
  {
    assert h' == h + [Event.Allow(fl.now), ReportOf(fl)];
  }

  lemma AccountedRefused(s: Settings, h: seq<Event>, fl: Flight, h': seq<Event>)
    requires fl.asked.Some? && fl.answer.None? && !Admits(Replay(s, h), fl.now)
    requires h' == h + [Event.Allow(fl.now)]
    ensures Accounted(s, h, fl, h')
  {}

  lemma AccountedServed(s: Settings, h: seq<Event>, fl: Flight)
    requires fl.asked.None? && fl.answer.None?
    ensures Accounted(s, h, fl, h)
  {
    assert h + [] == h;
  }

  /** The breaker heard the requests 0 to n - 1 in turn. */
  ghost predicate HeardInTurn(s: Settings, flights: map<nat, Flight>, n: nat, h: seq<Event>) {
    if n == 0 then h == []
    else
      && n - 1 in flights
      && exists h0 {:trigger Accounted(s, h0, flights[n - 1], h)} ::
           HeardInTurn(s, flights, n - 1, h0) && Accounted(s, h0, flights[n - 1], h)
  }

  ghost function Below(n: nat): (r: set<nat>)
    ensures forall id :: id in r <==> 0 <= id < n
  {
    if n == 0 then {} else Below(n - 1) + {n - 1}
  }

  /** And these are all the requests so far. */
  ghost predicate InTurn(s: Settings, flights: map<nat, Flight>, n: nat, h: seq<Event>) {
    flights.Keys == Below(n) && HeardInTurn(s, flights, n, h)
  }

  lemma {:induction false} HeardBefore(s: Settings, flights: map<nat, Flight>, more: map<nat, Flight>, n: nat,
                                       h: seq<Event>)
    requires forall id :: 0 <= id < n ==> id in flights && id in more && more[id] == flights[id]
    requires HeardInTurn(s, flights, n, h)
    ensures HeardInTurn(s, more, n, h)
    decreases n
  {
    if n > 0 {
      var h0 :| HeardInTurn(s, flights, n - 1, h0) && Accounted(s, h0, flights[n - 1], h);
      HeardBefore(s, flights, more, n - 1, h0);
    }
  }

  lemma OneMoreInTurn(s: Settings, flights: map<nat, Flight>, n: nat, h: seq<Event>, fl: Flight, h': seq<Event>)
    requires InTurn(s, flights, n, h) && Accounted(s, h, fl, h')
    ensures InTurn(s, flights[n := fl], n + 1, h')
  {
    HeardBefore(s, flights, flights[n := fl], n, h);
    assert flights[n := fl].Keys == Below(n + 1);
    assert flights[n := fl][n + 1 - 1] == fl;
  }

  // ---------------------------------------------------------------------
  // A storm
  // ---------------------------------------------------------------------

  /** The stamps of the requests that reached the breaker. */
  ghost function Stamps(flights: map<nat, Flight>, n: nat): seq<Time>
    requires forall id :: 0 <= id < n ==> id in flights
  {
    if n == 0 then []
    else Stamps(flights, n - 1) + if flights[n - 1].asked.Some? then [flights[n - 1].now] else []
  }

  /** The requests stamped in a window that were put to the Agent. */
  ghost function AskedWithin(flights: map<nat, Flight>, n: nat, start: Time, width: nat): set<nat>
    requires forall id :: 0 <= id < n ==> id in flights
  {
    set id: nat | id < n && flights[id].answer.Some? && start <= flights[id].now <= start + width
  }

  /** The Agent answered no request. */
  ghost predicate AllFailed(flights: map<nat, Flight>) {
    forall id :: id in flights ==> flights[id].answer.None? || flights[id].answer.value.Failed?
  }

  /** Requests that reached the breaker are stamped in the order they were served. */
  ghost predicate StampedInOrder(flights: map<nat, Flight>) {
    forall j, k :: j in flights && k in flights && j < k && flights[j].asked.Some? && flights[k].asked.Some?
                   ==> flights[j].now <= flights[k].now
  }

  lemma {:induction false} FailuresAreAStorm(s: Settings, flights: map<nat, Flight>, n: nat, h: seq<Event>)
    requires (forall id :: 0 <= id < n ==> id in flights) && AllFailed(flights) && HeardInTurn(s, flights, n, h)
    ensures h == Storm(s, Stamps(flights, n))
    decreases n
  {
    if n > 0 {
      var h0 :| HeardInTurn(s, flights, n - 1, h0) && Accounted(s, h0, flights[n - 1], h);
      FailuresAreAStorm(s, flights, n - 1, h0);
      FailureHeard(s, Stamps(flights, n - 1), flights[n - 1]);
    }
  }

  lemma FailureHeard(s: Settings, times: seq<Time>, fl: Flight)
    requires fl.answer.None? || fl.answer.value.Failed?
    ensures var h := Storm(s, times);
            h + Heard(s, h, fl) == Storm(s, times + if fl.asked.Some? then [fl.now] else [])
  {
    if fl.asked.Some? {
      StormGrows(s, times, fl.now);
    } else {
      assert times + [] == times;
    }
  }

  lemma StormGrows(s: Settings, times: seq<Time>, now: Time)
    ensures var h := Storm(s, times);
            && Storm(s, times + [now]) ==
               h + (if Admits(Replay(s, h), now) then [Event.Allow(now), Event.Failure(now)] else [Event.Allow(now)])
            && Calls(s, times + [now]) ==
               if Admits(Replay(s, h), now) then Calls(s, times) + [now] else Calls(s, times)
  {
    assert (times + [now])[..|times|] == times;
  }

  lemma {:induction false} StampsInOrder(flights: map<nat, Flight>, n: nat)
    requires (forall id :: 0 <= id < n ==> id in flights) && StampedInOrder(flights)
    ensures Nondecreasing(Stamps(flights, n))
    ensures forall t :: t in Stamps(flights, n) ==>
              exists id :: 0 <= id < n && flights[id].asked.Some? && flights[id].now == t
  {
    if n > 0 {
      StampsInOrder(flights, n - 1);
      var before := Stamps(flights, n - 1);
      forall k | 0 <= k < |before| && flights[n - 1].asked.Some? ensures before[k] <= flights[n - 1].now {
        assert before[k] in before;
      }
    }
  }

  lemma InWindowGrows(c: seq<Time>, x: Time, start: Time, width: nat)
    ensures |InWindow(c + [x], start, width)| ==
            |InWindow(c, start, width)| + if start <= x <= start + width then 1 else 0
  {
    var all, before := InWindow(c + [x], start, width), InWindow(c, start, width);
    assert all == before + if start <= x <= start + width then {|c|} else {};
  }

  /** The Agent calls of the storm are the requests put to the Agent. */
  lemma {:induction false} CallsAreAsked(s: Settings, flights: map<nat, Flight>, n: nat, h: seq<Event>,
                                         start: Time, width: nat)
    requires (forall id :: 0 <= id < n ==> id in flights) && AllFailed(flights) && HeardInTurn(s, flights, n, h)
    ensures |InWindow(Calls(s, Stamps(flights, n)), start, width)| == |AskedWithin(flights, n, start, width)|
    decreases n
  {
    if n > 0 {
      var h0 :| HeardInTurn(s, flights, n - 1, h0) && Accounted(s, h0, flights[n - 1], h);
      CallsAreAsked(s, flights, n - 1, h0, start, width);
      FailuresAreAStorm(s, flights, n - 1, h0);
      NextIsCounted(s, flights, n, h0, h, start, width);
    }
  }

  lemma NextIsCounted(s: Settings, flights: map<nat, Flight>, n: nat, h: seq<Event>, h': seq<Event>,
                      start: Time, width: nat)
    requires n > 0 && forall id :: 0 <= id < n ==> id in flights
    requires h == Storm(s, Stamps(flights, n - 1)) && Accounted(s, h, flights[n - 1], h')
    requires |InWindow(Calls(s, Stamps(flights, n - 1)), start, width)| == |AskedWithin(flights, n - 1, start, width)|
    ensures |InWindow(Calls(s, Stamps(flights, n)), start, width)| == |AskedWithin(flights, n, start, width)|
  {
    CallsGrow(s, Stamps(flights, n - 1), h, flights[n - 1], h', start, width);
    AskedGrows(flights, n, start, width);
  }

  lemma CallsGrow(s: Settings, times: seq<Time>, h: seq<Event>, fl: Flight, h': seq<Event>, start: Time, width: nat)
    requires h == Storm(s, times) && Accounted(s, h, fl, h')
    ensures var times' := times + if fl.asked.Some? then [fl.now] else [];
            |InWindow(Calls(s, times'), start, width)| ==
            |InWindow(Calls(s, times), start, width)|
            + if fl.answer.Some? && start <= fl.now <= start + width then 1 else 0
  {
    if fl.asked.Some? {
      StormGrows(s, times, fl.now);
      InWindowGrows(Calls(s, times), fl.now, start, width);
    } else {
      assert times + [] == times;
    }
  }

  lemma AskedGrows(flights: map<nat, Flight>, n: nat, start: Time, width: nat)
    requires n > 0 && forall id :: 0 <= id < n ==> id in flights
    ensures |AskedWithin(flights, n, start, width)| ==
            |AskedWithin(flights, n - 1, start, width)|
            + if flights[n - 1].answer.Some? && start <= flights[n - 1].now <= start + width then 1 else 0
  {
    var last := flights[n - 1].answer.Some? && start <= flights[n - 1].now <= start + width;
    assert AskedWithin(flights, n, start, width) ==
           AskedWithin(flights, n - 1, start, width) + if last then {n - 1} else {};
  }

  /** While the Agent answers nothing, a window of any width sees a bounded number of
      requests put to it. */
  lemma FailingRequestsAreBounded(s: Settings, flights: map<nat, Flight>, n: nat, h: seq<Event>,
                                  start: Time, width: nat)
    requires ValidSettings(s) && InTurn(s, flights, n, h) && AllFailed(flights) && StampedInOrder(flights)
    ensures |AskedWithin(flights, n, start, width)| <= s.failureThreshold + width / s.openDuration
  {
    StampsInOrder(flights, n);
    StormBound(s, Stamps(flights, n), start, width);
    CallsAreAsked(s, flights, n, h, start, width);
  }
}

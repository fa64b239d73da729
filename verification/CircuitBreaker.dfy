/** The circuit breaker in front of the Agent (cache.go, lines 193-238): three fields
    whose whole content is a fold of the reported history. */
module CircuitBreakers {
  import opened CacheRuns

  datatype Settings = Settings(failureThreshold: nat, openDuration: nat)

  /** The bounds validateConfig enforces, as far as the breaker needs them. */
  ghost predicate ValidSettings(s: Settings) {
    s.failureThreshold >= 1 && s.openDuration >= 1
  }

  /** The three fields; openUntil is zero when the zero time is stored. */
  datatype Breaker = Breaker(failures: nat, openUntil: Time, probe: bool)

  const CLOSED := Breaker(0, 0, false)

  ghost function Admits(b: Breaker, now: Time): bool {
    b.openUntil == 0 || (b.openUntil <= now && !b.probe)
  }

  ghost function AfterAllow(b: Breaker, now: Time): Breaker {
    if b.openUntil != 0 && Admits(b, now) then b.(probe := true) else b
  }

  ghost function AfterFailure(s: Settings, b: Breaker, now: Time): Breaker {
    var failures := b.failures + 1;
    Breaker(
      failures,
      if b.probe || failures >= s.failureThreshold then now + s.openDuration else b.openUntil,
      false)
  }

  class CircuitBreaker {
    const settings: Settings
    var failures: nat
    var openUntil: Time
    var probe: bool
    /** Every admission test and report, in the order the lock was taken. */
    ghost var history: seq<Event>

    ghost function Fields(): Breaker
      reads this
    {
      Breaker(failures, openUntil, probe)
    }

    ghost predicate Valid()
      reads this
    {
      ValidSettings(settings) && Fields() == Replay(settings, history)
    }

    constructor (settings: Settings)
      requires ValidSettings(settings)
      ensures Valid() && this.settings == settings && history == [] && Fields() == CLOSED
    {
      this.settings := settings;
      failures, openUntil, probe := 0, 0, false;
      history := [];
    }

    method Allow(now: Time) returns (admitted: bool)
      requires Valid()
      modifies this
      ensures Valid()
      ensures admitted == Admits(old(Fields()), now)
      ensures Fields() == AfterAllow(old(Fields()), now)
      ensures history == old(history) + [Event.Allow(now)]
    {
      history := history + [Event.Allow(now)];
      if openUntil == 0 {
        return true;
      }
      if now < openUntil {
        return false;
      }
      if probe {
        return false;
      }
      probe := true;
      return true;
    }

    method Success()
      requires Valid()
      modifies this
      ensures Valid() && Fields() == CLOSED
      ensures history == old(history) + [Event.Success]
    {
      history := history + [Event.Success];
      failures := 0;
      openUntil := 0;
      probe := false;
    }

    method Failure(now: Time)
      requires Valid()
      modifies this
      ensures Valid() && Fields() == AfterFailure(settings, old(Fields()), now)
      ensures history == old(history) + [Event.Failure(now)]
    {
      history := history + [Event.Failure(now)];
      failures := failures + 1;
      if probe || failures >= settings.failureThreshold {
        openUntil := now + settings.openDuration;
      }
      probe := false;
    }
  }

  // ---------------------------------------------------------------------
  // Arbitrary interleavings of admissions and reports
  // ---------------------------------------------------------------------

  /** Timestamps are those the callers bring; nothing orders them. */
  datatype Event = Allow(now: Time) | Success | Failure(now: Time)

  ghost function Apply(s: Settings, b: Breaker, e: Event): Breaker {
    match e
    case Allow(now) => AfterAllow(b, now)
    case Success => CLOSED
    case Failure(now) => AfterFailure(s, b, now)
  }

  ghost function Replay(s: Settings, h: seq<Event>): Breaker {
    if h == [] then CLOSED else Apply(s, Replay(s, h[..|h| - 1]), h[|h| - 1])
  }

  lemma ReplayAppends(s: Settings, h: seq<Event>, e: Event)
    ensures Replay(s, h + [e]) == Apply(s, Replay(s, h), e)
  {
    assert (h + [e])[..|h|] == h;
  }

  /** Position of the last success, plus one. */
  ghost function SinceSuccess(h: seq<Event>): (n: nat)
    ensures n <= |h|
    ensures forall k :: n <= k < |h| ==> !h[k].Success?
    ensures n > 0 ==> h[n - 1].Success?
  {
    if h == [] then 0
    else if h[|h| - 1].Success? then |h|
    else SinceSuccess(h[..|h| - 1])
  }

  /** Positions of the failures reported since the last success. */
  ghost function FailuresSinceSuccess(h: seq<Event>): set<nat> {
    set k: nat | SinceSuccess(h) <= k < |h| && h[k].Failure?
  }

  ghost predicate LastFailure(h: seq<Event>, k: int) {
    && 0 <= k < |h| && h[k].Failure?
    && forall j :: k < j < |h| ==> !h[j].Failure?
  }

  ghost predicate IsOpen(b: Breaker) {
    b.openUntil != 0
  }

  ghost predicate AdmittedAt(s: Settings, h: seq<Event>, k: int) {
    0 <= k < |h| && h[k].Allow? && Admits(Replay(s, h[..k]), h[k].now)
  }

  ghost predicate IsReport(e: Event) {
    e.Success? || e.Failure?
  }

  /** No outcome is reported at positions [m, n). */
  ghost predicate Quiet(h: seq<Event>, m: int, n: int) {
    forall k :: 0 <= m <= k < n <= |h| ==> !IsReport(h[k])
  }

  /** A request let through by the open breaker and followed by no report. */
  ghost predicate PendingProbe(s: Settings, h: seq<Event>, k: int) {
    AdmittedAt(s, h, k) && IsOpen(Replay(s, h[..k])) && Quiet(h, k + 1, |h|)
  }

  /** In every interleaving the fields are read off the history: failures counts the
      failures since the last success; the breaker is open exactly when that count has
      reached the threshold, and then openUntil is the last reported failure's time
      plus openDuration; probe says that an open-state admission awaits the next report.
      So probe implies open and the extra disjunct in failure decides nothing. */
  lemma {:induction false} BreakerIsFoldOfHistory(s: Settings, h: seq<Event>)
    requires ValidSettings(s)
    ensures var b := Replay(s, h);
            && b.failures == |FailuresSinceSuccess(h)|
            && (IsOpen(b) <==> b.failures >= s.failureThreshold)
            && OpenSince(s, h, b)
            && (b.probe <==> ProbePending(s, h))
            && (b.probe ==> IsOpen(b))
  {
    if h == [] {
      assert FailuresSinceSuccess(h) == {};
    } else {
      var g, e := h[..|h| - 1], h[|h| - 1];
      assert h == g + [e];
      BreakerIsFoldOfHistory(s, g);
      CountStep(h);
      OpenStep(s, g, e, Replay(s, g));
      ProbeStep(s, g, e);
    }
  }

  lemma CountStep(h: seq<Event>)
    requires h != []
    ensures var g, e := h[..|h| - 1], h[|h| - 1];
            |FailuresSinceSuccess(h)| ==
            match e
            case Success => 0
            case Failure(_) => |FailuresSinceSuccess(g)| + 1
            case Allow(_) => |FailuresSinceSuccess(g)|
  {
    var g, e := h[..|h| - 1], h[|h| - 1];
    match e
    case Success =>
      assert FailuresSinceSuccess(h) == {};
    case Failure(_) =>
      assert FailuresSinceSuccess(h) == FailuresSinceSuccess(g) + {|g|};
    case Allow(_) =>
      assert FailuresSinceSuccess(h) == FailuresSinceSuccess(g);
  }

  /** When open, openUntil is openDuration after the last reported failure. */
  ghost predicate OpenSince(s: Settings, h: seq<Event>, b: Breaker) {
    IsOpen(b) ==> exists k :: LastFailure(h, k) && b.openUntil == h[k].now + s.openDuration
  }

  lemma OpenStep(s: Settings, g: seq<Event>, e: Event, b: Breaker)
    requires ValidSettings(s) && OpenSince(s, g, b)
    requires (IsOpen(b) <==> b.failures >= s.failureThreshold) && (b.probe ==> IsOpen(b))
    ensures OpenSince(s, g + [e], Apply(s, b, e))
  {
    var h := g + [e];
    if e.Failure? {
      assert LastFailure(h, |g|);
    } else if IsOpen(b) {
      var k :| LastFailure(g, k) && b.openUntil == g[k].now + s.openDuration;
      assert LastFailure(h, k);
    }
  }

  ghost predicate ProbePending(s: Settings, h: seq<Event>) {
    exists k :: PendingProbe(s, h, k)
  }

  /** Appending a report settles every probe; appending an admission test settles none. */
  lemma PendingAcross(s: Settings, g: seq<Event>, e: Event, k: int)
    requires 0 <= k < |g|
    ensures PendingProbe(s, g + [e], k) <==> PendingProbe(s, g, k) && !IsReport(e)
  {
    var h := g + [e];
    assert h[..k] == g[..k];
    assert Quiet(h, k + 1, |h|) <==> Quiet(g, k + 1, |g|) && !IsReport(e) by {
      assert forall j :: k + 1 <= j < |g| ==> h[j] == g[j];
      assert h[|g|] == e;
    }
  }

  lemma ProbeStep(s: Settings, g: seq<Event>, e: Event)
    requires Replay(s, g).probe <==> ProbePending(s, g)
    requires Replay(s, g).probe ==> IsOpen(Replay(s, g))
    ensures Replay(s, g + [e]).probe <==> ProbePending(s, g + [e])
  {
    var h, b := g + [e], Replay(s, g);
    ReplayAppends(s, g, e);
    assert h[..|g|] == g && h[|g|] == e;
    forall k | 0 <= k < |g| ensures PendingProbe(s, h, k) <==> PendingProbe(s, g, k) && !IsReport(e) {
      PendingAcross(s, g, e, k);
    }
    assert PendingProbe(s, h, |g|) <==> e.Allow? && Admits(b, e.now) && IsOpen(b);
    if ProbePending(s, g) && !IsReport(e) {
      var k :| PendingProbe(s, g, k);
      assert PendingProbe(s, h, k);
    }
  }

  /** Without a report in between, the fields other than probe stand still. */
  lemma {:induction false} QuietKeepsOpen(s: Settings, h: seq<Event>, m: nat, n: nat)
    requires m <= n <= |h| && Quiet(h, m, n)
    ensures Replay(s, h[..n]).openUntil == Replay(s, h[..m]).openUntil
    ensures Replay(s, h[..m]).probe ==> Replay(s, h[..n]).probe
    decreases n - m
  {
    if m < n {
      QuietKeepsOpen(s, h, m, n - 1);
      assert h[..n][..n - 1] == h[..n - 1];
      assert !IsReport(h[n - 1]);
    }
  }

  /** Between two outcome reports an open breaker admits at most one request, and none
      before openUntil. */
  lemma AtMostOneAdmissionBetweenReports(s: Settings, h: seq<Event>, m: nat, i: nat, j: nat)
    requires m <= i < j < |h| && Quiet(h, m, j) && IsOpen(Replay(s, h[..m]))
    requires AdmittedAt(s, h, i)
    ensures h[i].now >= Replay(s, h[..m]).openUntil
    ensures !AdmittedAt(s, h, j)
  {
    QuietKeepsOpen(s, h, m, i);
    assert h[..i + 1][..i] == h[..i];
    QuietKeepsOpen(s, h, m, j);
    QuietKeepsOpen(s, h, i + 1, j);
  }

  /** Once no open-state admission is pending, any request that comes late enough is
      let through. */
  lemma NoPendingProbeMeansAdmission(s: Settings, h: seq<Event>, now: Time)
    requires ValidSettings(s) && !ProbePending(s, h)
    ensures Admits(Replay(s, h), now) <==> now >= Replay(s, h).openUntil
  {
    BreakerIsFoldOfHistory(s, h);
  }

  // ---------------------------------------------------------------------
  // The storm bound
  // ---------------------------------------------------------------------

  /** One request after another, each admitted call failing and reporting with the
      timestamp it was admitted under. */
  ghost function Storm(s: Settings, times: seq<Time>): seq<Event> {
    if times == [] then []
    else
      var h := Storm(s, times[..|times| - 1]);
      var now := times[|times| - 1];
      if Admits(Replay(s, h), now) then h + [Event.Allow(now), Event.Failure(now)] else h + [Event.Allow(now)]
  }

  /** The timestamps of the Agent calls such a run makes. */
  ghost function Calls(s: Settings, times: seq<Time>): seq<Time> {
    if times == [] then []
    else
      var before := times[..|times| - 1];
      var now := times[|times| - 1];
      if Admits(Replay(s, Storm(s, before)), now) then Calls(s, before) + [now] else Calls(s, before)
  }

  ghost predicate Nondecreasing(times: seq<Time>) {
    forall i, j :: 0 <= i < j < |times| ==> times[i] <= times[j]
  }

  /** The breaker after a storm whose calls were c: every call counted as a failure,
      and the last one opened it once there were enough. */
  ghost predicate StormState(s: Settings, c: seq<Time>, b: Breaker) {
    && b.failures == |c| && !b.probe
    && b.openUntil == (if |c| >= s.failureThreshold && c != [] then c[|c| - 1] + s.openDuration else 0)
  }

  /** The first failureThreshold calls are free, every later one waits out openDuration. */
  ghost predicate Spaced(s: Settings, c: seq<Time>) {
    && Nondecreasing(c)
    && forall i :: 1 <= i && s.failureThreshold <= i < |c| ==> c[i] >= c[i - 1] + s.openDuration
  }

  lemma StormStep(s: Settings, c: seq<Time>, b: Breaker, now: Time)
    requires ValidSettings(s) && StormState(s, c, b) && Spaced(s, c)
    requires forall i :: 0 <= i < |c| ==> c[i] <= now
    ensures Admits(b, now) ==> Spaced(s, c + [now])
    ensures Admits(b, now) ==> StormState(s, c + [now], AfterFailure(s, AfterAllow(b, now), now))
    ensures !Admits(b, now) ==> AfterAllow(b, now) == b
  {}

  lemma {:induction false} StormShape(s: Settings, times: seq<Time>)
    requires ValidSettings(s) && Nondecreasing(times)
    ensures StormState(s, Calls(s, times), Replay(s, Storm(s, times)))
    ensures Spaced(s, Calls(s, times))
    ensures forall i :: 0 <= i < |Calls(s, times)| ==> times != [] && Calls(s, times)[i] <= times[|times| - 1]
  {
    if times != [] {
      var before, now := times[..|times| - 1], times[|times| - 1];
      StormShape(s, before);
      var h, c := Storm(s, before), Calls(s, before);
      ReplayAppends(s, h, Event.Allow(now));
      ReplayAppends(s, h + [Event.Allow(now)], Event.Failure(now));
      assert h + [Event.Allow(now)] + [Event.Failure(now)] == h + [Event.Allow(now), Event.Failure(now)];
      StormStep(s, c, Replay(s, h), now);
    }
  }

  /** The positions of the calls that fall into a window. */
  ghost function InWindow(c: seq<Time>, start: Time, width: nat): set<nat> {
    set i: nat | i < |c| && start <= c[i] <= start + width
  }

  lemma {:induction false} Spread(s: Settings, c: seq<Time>, lo: nat, hi: nat)
    requires ValidSettings(s) && lo <= hi < |c| && lo + 1 >= s.failureThreshold
    requires Spaced(s, c)
    ensures c[hi] >= c[lo] + (hi - lo) * s.openDuration
    decreases hi - lo
  {
    if lo < hi {
      Spread(s, c, lo, hi - 1);
      assert (hi - lo) * s.openDuration == (hi - 1 - lo) * s.openDuration + s.openDuration;
    }
  }

  lemma {:induction false} RangeSize(lo: nat, hi: nat, all: set<nat>)
    requires forall i :: i in all ==> lo <= i < hi
    requires lo <= hi
    ensures |all| <= hi - lo
    decreases hi - lo
  {
    if lo < hi {
      RangeSize(lo, hi - 1, all - {hi - 1});
    } else {
      assert all == {};
    }
  }

  lemma DivideBound(k: nat, d: nat, w: nat)
    requires d >= 1 && k * d <= w
    ensures k <= w / d
  {
    var q := w / d;
    assert w == q * d + w % d;
    assert k * d < q * d + d == (q + 1) * d;
    CancelFactor(k, q + 1, d);
  }

  lemma CancelFactor(a: nat, b: nat, d: nat)
    requires d >= 1 && a * d < b * d
    ensures a < b
  {}

  /** In any sequential run from a fresh breaker, under a clock that never runs
      backwards and with every call failing, a window of length width sees at most
      failureThreshold + width / openDuration Agent calls. */
  lemma StormBound(s: Settings, times: seq<Time>, start: Time, width: nat)
    requires ValidSettings(s) && Nondecreasing(times)
    ensures |InWindow(Calls(s, times), start, width)| <= s.failureThreshold + width / s.openDuration
  {
    var c := Calls(s, times);
    StormShape(s, times);
    var all := InWindow(c, start, width);
    if all != {} {
      var lo, hi := WindowEnds(c, all);
      RangeSize(lo, hi + 1, all);
      var from := if lo + 1 >= s.failureThreshold then lo else s.failureThreshold - 1;
      if from <= hi {
        Spread(s, c, from, hi);
        assert (hi - from) * s.openDuration <= width;
        DivideBound(hi - from, s.openDuration, width);
      } else {
        DivideBound(0, s.openDuration, width);
      }
    } else {
      DivideBound(0, s.openDuration, width);
    }
  }

  lemma {:induction false} WindowEnds(c: seq<Time>, all: set<nat>) returns (lo: nat, hi: nat)
    requires all != {} && forall i :: i in all ==> i < |c|
    ensures lo in all && hi in all && forall i :: i in all ==> lo <= i <= hi
    decreases |all|
  {
    var x :| x in all;
    if all == {x} {
      lo, hi := x, x;
    } else {
      var rest := all - {x};
      assert all == rest + {x};
      var l, h := WindowEnds(c, rest);
      lo, hi := if x < l then x else l, if x > h then x else h;
      forall i | i in all ensures lo <= i <= hi {
        assert i == x || i in rest;
      }
    }
  }
}

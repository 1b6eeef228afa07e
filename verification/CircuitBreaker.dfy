/**
 The circuit breaker of one upstream, proved against the log of everything
 recorded on it, with no failure ever forgotten.
 */
module CircuitBreaker {
  import opened Wrappers
  import opened Times

  /** The constructor takes any three numbers. */
  datatype Params = Params(window: real, threshold: int, openTimeout: real)

  datatype Mode = Closed | Open | HalfOpen

  datatype Breaker = Breaker(failures: seq<real>, mode: Mode, openedAt: Option<real>)

  const FRESH := Breaker([], Closed, None)

  /** `Reopen` is `transition_to_open`, which nothing in the gateway calls. */
  datatype Event = Failed(at: real) | Succeeded | Reset | Probe(at: real) | Reopen(at: real)

  /** The times later than `since`, in order. */
  function Later(times: seq<real>, since: real): seq<real>
    decreases |times|
  {
    if times == [] then []
    else Later(times[..|times| - 1], since)
         + if times[|times| - 1] > since then [times[|times| - 1]] else []
  }

  function Fail(p: Params, b: Breaker, now: real): Breaker {
    var failures := Later(b.failures, now - p.window) + [now];
    if |failures| >= p.threshold && b.mode == Closed then Breaker(failures, Open, Some(now))
    else b.(failures := failures)
  }

  /** The answer of `can_proceed`. */
  predicate Admits(p: Params, b: Breaker, now: real) {
    b.mode == Open ==> b.openedAt.Some? && now - b.openedAt.value >= p.openTimeout
  }

  function Step(p: Params, b: Breaker, e: Event): Breaker {
    match e
    case Failed(now) => Fail(p, b, now)
    case Succeeded => FRESH
    case Reset => FRESH
    case Probe(now) => if b.mode == Open && Admits(p, b, now) then b.(mode := HalfOpen) else b
    case Reopen(now) => if b.mode == HalfOpen then b.(mode := Open, openedAt := Some(now)) else b
  }

  function Run(p: Params, log: seq<Event>): Breaker
    decreases |log|
  {
    if log == [] then FRESH else Step(p, Run(p, log[..|log| - 1]), log[|log| - 1])
  }

  // ----- the specification: failures since the last success or reset, never pruned -----

  function Failures(log: seq<Event>): seq<real>
    decreases |log|
  {
    if log == [] then [] else Recorded(Failures(log[..|log| - 1]), log[|log| - 1])
  }

  function Recorded(fs: seq<real>, e: Event): seq<real> {
    match e
    case Failed(at) => fs + [at]
    case Succeeded => []
    case Reset => []
    case Probe(_) => fs
    case Reopen(_) => fs
  }

  /** Failure `i` makes up the threshold within the window that ends at it. */
  predicate Trips(p: Params, fs: seq<real>, i: int)
    requires 0 <= i < |fs|
  {
    After(fs[..i], fs[i] - p.window) + 1 >= p.threshold
  }

  ghost predicate NeverTrips(p: Params, fs: seq<real>) {
    forall i :: 0 <= i < |fs| ==> !Trips(p, fs, i)
  }

  ghost predicate FirstTrip(p: Params, fs: seq<real>, i: nat) {
    i < |fs| && Trips(p, fs, i) && NeverTrips(p, fs[..i])
  }

  /** When the breaker first tripped, as a function of its failures. */
  function Tripped(p: Params, fs: seq<real>): Option<real>
    decreases |fs|
  {
    if fs == [] then None
    else
      var earlier := Tripped(p, fs[..|fs| - 1]);
      if earlier.Some? then earlier
      else if Trips(p, fs, |fs| - 1) then Some(fs[|fs| - 1])
      else None
  }

  lemma TripsInPrefix(p: Params, fs: seq<real>, n: nat, i: nat)
    requires i < n <= |fs|
    ensures Trips(p, fs[..n], i) <==> Trips(p, fs, i)
  {
    assert fs[..n][..i] == fs[..i];
  }

  /** `Tripped` is the time of the first failure that trips. */
  lemma {:induction false} TrippedIs(p: Params, fs: seq<real>) returns (i: nat)
    ensures Tripped(p, fs).None? ==> NeverTrips(p, fs)
    ensures Tripped(p, fs).Some? ==> FirstTrip(p, fs, i) && Tripped(p, fs).value == fs[i]
    decreases |fs|
  {
    i := 0;
    if fs != [] {
      var n := |fs| - 1;
      i := TrippedIs(p, fs[..n]);
      if Tripped(p, fs[..n]).Some? {
        TripsInPrefix(p, fs, n, i);
        assert fs[..n][..i] == fs[..i];
      } else {
        forall j | 0 <= j < n ensures !Trips(p, fs, j) { TripsInPrefix(p, fs, n, j); }
        i := n;
      }
    }
  }

  // ----- time -----

  predicate Timed(e: Event) { e.Failed? || e.Probe? || e.Reopen? }

  /** The latest time in the log, or the start. */
  function Clock(log: seq<Event>, start: real): real
    decreases |log|
  {
    if log == [] then start
    else if Timed(log[|log| - 1]) then log[|log| - 1].at
    else Clock(log[..|log| - 1], start)
  }

  /** The clock never goes back. */
  predicate Orderly(log: seq<Event>, start: real)
    decreases |log|
  {
    log == []
    || (var before := log[..|log| - 1];
        Orderly(before, start) && (Timed(log[|log| - 1]) ==> log[|log| - 1].at >= Clock(before, start)))
  }

  lemma {:induction false} FailuresUpToClock(log: seq<Event>, start: real)
    requires Orderly(log, start)
    ensures UpTo(Failures(log), Clock(log, start))
    decreases |log|
  {
    if log != [] { FailuresUpToClock(log[..|log| - 1], start); }
  }

  // ----- pruning -----

  lemma {:induction false} LaterCounts(times: seq<real>, since: real)
    ensures |Later(times, since)| == After(times, since)
    decreases |times|
  {
    if times != [] { LaterCounts(times[..|times| - 1], since); }
  }

  lemma LaterSnoc(times: seq<real>, t: real, since: real)
    ensures Later(times + [t], since) == Later(times, since) + if t > since then [t] else []
  {
    assert (times + [t])[..|times|] == times;
  }

  /** What an earlier cutoff dropped, a later one would drop too. */
  lemma {:induction false} LaterTwice(times: seq<real>, a: real, b: real)
    requires a <= b
    ensures Later(Later(times, a), b) == Later(times, b)
    decreases |times|
  {
    if times != [] {
      var n := |times| - 1;
      LaterTwice(times[..n], a, b);
      if times[n] > a {
        LaterSnoc(Later(times[..n], a), times[n], b);
      } else {
        assert Later(times, a) == Later(times[..n], a) && Later(times, b) == Later(times[..n], b);
      }
    }
  }

  /** The failures a breaker keeps: the last one, and those in the window that ended at it. */
  function Kept(p: Params, fs: seq<real>): seq<real> {
    if fs == [] then []
    else Later(fs[..|fs| - 1], fs[|fs| - 1] - p.window) + [fs[|fs| - 1]]
  }

  lemma KeptLater(p: Params, fs: seq<real>, now: real)
    requires UpTo(fs, now)
    ensures Later(Kept(p, fs), now - p.window) == Later(fs, now - p.window)
  {
    if fs != [] {
      var n := |fs| - 1;
      assert fs == fs[..n] + [fs[n]];
      LaterSnoc(fs[..n], fs[n], now - p.window);
      LaterSnoc(Later(fs[..n], fs[n] - p.window), fs[n], now - p.window);
      LaterTwice(fs[..n], fs[n] - p.window, now - p.window);
    }
  }

  lemma KeptSnoc(p: Params, fs: seq<real>, now: real)
    requires UpTo(fs, now)
    ensures Kept(p, fs + [now]) == Later(Kept(p, fs), now - p.window) + [now]
    ensures |Kept(p, fs + [now])| >= p.threshold <==> Trips(p, fs + [now], |fs|)
  {
    KeptIs(p, fs, now);
    KeptLater(p, fs, now);
    LaterCounts(fs, now - p.window);
    assert (fs + [now])[..|fs|] == fs;
  }

  lemma KeptIs(p: Params, fs: seq<real>, now: real)
    ensures Kept(p, fs + [now]) == Later(fs, now - p.window) + [now]
  {
    assert (fs + [now])[..|fs|] == fs;
  }

  // ----- the breaker against its log -----

  /**
   A breaker mirrors the failures when it keeps exactly those that can still
   matter, and is closed, with no opening time, exactly until one of them
   makes up the threshold within its own window.
   */
  predicate Mirrors(p: Params, b: Breaker, fs: seq<real>) {
    && b.failures == Kept(p, fs)
    && (b.mode == Closed <==> Tripped(p, fs).None?)
    && (b.mode == Closed <==> b.openedAt.None?)
  }

  lemma FailKeepsMirror(p: Params, b: Breaker, fs: seq<real>, now: real)
    requires Mirrors(p, b, fs) && UpTo(fs, now)
    ensures Mirrors(p, Fail(p, b, now), fs + [now])
  {
    KeptSnoc(p, fs, now);
    TrippedSnoc(p, fs, now);
  }

  lemma TrippedSnoc(p: Params, fs: seq<real>, now: real)
    ensures Tripped(p, fs + [now]) == if Tripped(p, fs).Some? then Tripped(p, fs)
                                      else if Trips(p, fs + [now], |fs|) then Some(now)
                                      else None
  {
    assert (fs + [now])[..|fs|] == fs;
  }

  /** At every reachable state, the breaker mirrors its log. */
  lemma {:induction false} BreakerFollowsLog(p: Params, log: seq<Event>, start: real)
    requires Orderly(log, start)
    ensures Mirrors(p, Run(p, log), Failures(log))
    decreases |log|
  {
    if log != [] {
      var before, e := log[..|log| - 1], log[|log| - 1];
      BreakerFollowsLog(p, before, start);
      if e.Failed? {
        FailuresUpToClock(before, start);
        FailKeepsMirror(p, Run(p, before), Failures(before), e.at);
      }
    }
  }

  /** Closed exactly while no failure since the last success or reset was the threshold-th of its window. */
  lemma ClosedIff(p: Params, log: seq<Event>, start: real)
    requires Orderly(log, start)
    ensures Run(p, log).mode == Closed <==> NeverTrips(p, Failures(log))
  {
    BreakerFollowsLog(p, log, start);
    var i := TrippedIs(p, Failures(log));
    if Tripped(p, Failures(log)).Some? { assert Trips(p, Failures(log), i); }
  }

  predicate NoReopen(log: seq<Event>) {
    forall i :: 0 <= i < |log| ==> !log[i].Reopen?
  }

  /** As the gateway uses it, the breaker opens only at the failure that first trips it. */
  predicate OpenedByTrip(p: Params, b: Breaker, fs: seq<real>, now: real) {
    && b.openedAt == Tripped(p, fs)
    && (b.mode == HalfOpen && b.openedAt.Some? ==> now - b.openedAt.value >= p.openTimeout)
  }

  lemma FailKeepsOpened(p: Params, b: Breaker, fs: seq<real>, clock: real, now: real)
    requires Mirrors(p, b, fs) && OpenedByTrip(p, b, fs, clock) && UpTo(fs, now) && clock <= now
    ensures OpenedByTrip(p, Fail(p, b, now), fs + [now], now)
  {
    KeptSnoc(p, fs, now);
    TrippedSnoc(p, fs, now);
  }

  lemma {:induction false} OpenedAtFirstTrip(p: Params, log: seq<Event>, start: real)
    requires Orderly(log, start) && NoReopen(log)
    ensures OpenedByTrip(p, Run(p, log), Failures(log), Clock(log, start))
    decreases |log|
  {
    if log != [] {
      var before, e := log[..|log| - 1], log[|log| - 1];
      OpenedAtFirstTrip(p, before, start);
      BreakerFollowsLog(p, before, start);
      if e.Failed? {
        FailuresUpToClock(before, start);
        FailKeepsOpened(p, Run(p, before), Failures(before), Clock(before, start), e.at);
      }
    }
  }

  /**
   Who gets through is a function of the failures alone: a request at `now` is
   admitted exactly when no failure has tripped the breaker, or the timeout
   has passed since the first that did.  Requests let through in between, and
   failures after the trip, change nothing.
   */
  lemma AdmittedIff(p: Params, log: seq<Event>, start: real, now: real)
    requires Orderly(log, start) && NoReopen(log) && Clock(log, start) <= now
    ensures Admits(p, Run(p, log), now) <==> Recovered(p, Failures(log), now)
  {
    BreakerFollowsLog(p, log, start);
    OpenedAtFirstTrip(p, log, start);
  }

  predicate Recovered(p: Params, fs: seq<real>, now: real) {
    Tripped(p, fs).Some? ==> now - Tripped(p, fs).value >= p.openTimeout
  }

  lemma AdmittedWithoutReopen(p: Params, log: seq<Event>, start: real, now: real)
    requires Orderly(log, start) && Clock(log, start) <= now
    ensures NoReopen(log) ==> (Admits(p, Run(p, log), now) <==> Recovered(p, Failures(log), now))
  {
    if NoReopen(log) { AdmittedIff(p, log, start, now); }
  }

  /** A request let through after the breaker tripped, with neither success nor reset since. */
  predicate LetThrough(p: Params, log: seq<Event>, i: nat) {
    && i < |log| && log[i].Probe?
    && Tripped(p, Failures(log[..i])).Some?
    && log[i].at - Tripped(p, Failures(log[..i])).value >= p.openTimeout
    && forall j :: i < j < |log| ==> !log[j].Succeeded? && !log[j].Reset?
  }

  ghost predicate SomeLetThrough(p: Params, log: seq<Event>) {
    exists i: nat :: LetThrough(p, log, i)
  }

  lemma LetThroughSnoc(p: Params, log: seq<Event>, e: Event)
    ensures SomeLetThrough(p, log + [e])
       <==> (SomeLetThrough(p, log) && !e.Succeeded? && !e.Reset?) || LetThrough(p, log + [e], |log|)
  {
    forall i: nat | i < |log|
      ensures LetThrough(p, log + [e], i) <==> LetThrough(p, log, i) && !e.Succeeded? && !e.Reset?
    {
      assert (log + [e])[..i] == log[..i];
      if LetThrough(p, log + [e], i) {
        assert !(log + [e])[|log|].Succeeded? && !(log + [e])[|log|].Reset?;
        assert forall j :: i < j < |log| ==> log[j] == (log + [e])[j];
      }
    }
  }

  /**
   Half-open exactly when, since the last success or reset, the breaker tripped
   and a request was let through once the timeout had passed.
   */
  lemma {:induction false} HalfOpenIff(p: Params, log: seq<Event>, start: real)
    requires Orderly(log, start) && NoReopen(log)
    ensures Run(p, log).mode == HalfOpen <==> SomeLetThrough(p, log)
    decreases |log|
  {
    if log != [] {
      var before, e := log[..|log| - 1], log[|log| - 1];
      assert before + [e] == log;
      HalfOpenIff(p, before, start);
      LetThroughSnoc(p, before, e);
      assert log[..|before|] == before;
      BreakerFollowsLog(p, before, start);
      OpenedAtFirstTrip(p, before, start);
      ModeAfter(p, Run(p, before), e);
    }
  }

  lemma ModeAfter(p: Params, b: Breaker, e: Event)
    requires !e.Reopen?
    ensures Step(p, b, e).mode == HalfOpen <==>
            (b.mode == HalfOpen && !e.Succeeded? && !e.Reset?)
            || (b.mode == Open && e.Probe? && b.openedAt.Some? && e.at - b.openedAt.value >= p.openTimeout)
  {
  }

  /** `failure_count`. */
  function FailureCount(p: Params, b: Breaker, now: real): nat {
    |Later(b.failures, now - p.window)|
  }

  /** The count of failures is that of the whole log. */
  lemma FailureCountIsExact(p: Params, log: seq<Event>, start: real, now: real)
    requires Orderly(log, start) && Clock(log, start) <= now
    ensures FailureCount(p, Run(p, log), now) == After(Failures(log), now - p.window)
  {
    BreakerFollowsLog(p, log, start);
    FailuresUpToClock(log, start);
    KeptLater(p, Failures(log), now);
    LaterCounts(Failures(log), now - p.window);
  }

  // ----- from any state on -----

  function RunFrom(p: Params, b: Breaker, es: seq<Event>): Breaker
    decreases |es|
  {
    if es == [] then b else RunFrom(p, Step(p, b, es[0]), es[1..])
  }

  /** The answers given to the requests of a run. */
  function Answers(p: Params, b: Breaker, es: seq<Event>): seq<bool>
    decreases |es|
  {
    if es == [] then []
    else (if es[0].Probe? then [Admits(p, b, es[0].at)] else []) + Answers(p, Step(p, b, es[0]), es[1..])
  }

  predicate All(answers: seq<bool>, answer: bool) {
    forall i :: 0 <= i < |answers| ==> answers[i] == answer
  }

  predicate Undisturbed(es: seq<Event>) {
    forall i :: 0 <= i < |es| ==> !es[i].Succeeded? && !es[i].Reset?
  }

  /** Once open, every request is refused until the timeout, whatever failures arrive. */
  lemma {:induction false} OpenRefuses(p: Params, b: Breaker, es: seq<Event>)
    requires b.mode == Open && b.openedAt.Some? && Undisturbed(es)
    requires forall i :: 0 <= i < |es| && es[i].Probe? ==> es[i].at < b.openedAt.value + p.openTimeout
    ensures All(Answers(p, b, es), false)
    ensures RunFrom(p, b, es).mode == Open && RunFrom(p, b, es).openedAt == b.openedAt
    decreases |es|
  {
    if es != [] {
      var c := Step(p, b, es[0]);
      assert es[0] == es[..][0];
      assert c.mode == Open && c.openedAt == b.openedAt;
      OpenRefuses(p, c, es[1..]);
    }
  }

  /**
   Half-open, every request is admitted and no failure reopens the breaker: it
   stays half-open until a success, a reset or an explicit reopening.
   */
  lemma {:induction false} HalfOpenAdmits(p: Params, b: Breaker, es: seq<Event>)
    requires b.mode == HalfOpen && Undisturbed(es) && NoReopen(es)
    ensures All(Answers(p, b, es), true)
    ensures RunFrom(p, b, es).mode == HalfOpen && RunFrom(p, b, es).openedAt == b.openedAt
    decreases |es|
  {
    if es != [] {
      assert es[0] == es[..][0];
      HalfOpenAdmits(p, Step(p, b, es[0]), es[1..]);
    }
  }

  /** Reopened by hand, a half-open breaker refuses for the whole timeout again; any other is left alone. */
  lemma ReopenedRefuses(p: Params, b: Breaker, at: real, es: seq<Event>)
    requires Undisturbed(es) && forall i :: 0 <= i < |es| && es[i].Probe? ==> es[i].at < at + p.openTimeout
    ensures b.mode == HalfOpen ==> All(Answers(p, Step(p, b, Reopen(at)), es), false)
    ensures b.mode != HalfOpen ==> Step(p, b, Reopen(at)) == b
  {
    if b.mode == HalfOpen { OpenRefuses(p, Step(p, b, Reopen(at)), es); }
  }

  lemma RunSnoc(p: Params, log: seq<Event>, e: Event)
    ensures Run(p, log + [e]) == Step(p, Run(p, log), e)
  {
    assert (log + [e])[..|log|] == log;
  }

  /** After a success or a reset only what follows it counts. */
  lemma {:induction false} SuccessForgets(p: Params, before: seq<Event>, e: Event, after: seq<Event>)
    requires e.Succeeded? || e.Reset?
    ensures Run(p, before + [e] + after) == Run(p, after)
    decreases |after|
  {
    if after == [] {
      assert before + [e] + after == before + [e];
      RunSnoc(p, before, e);
    } else {
      var n := |after| - 1;
      SuccessForgets(p, before, e, after[..n]);
      assert before + [e] + after == (before + [e] + after[..n]) + [after[n]];
      RunSnoc(p, before + [e] + after[..n], after[n]);
    }
  }

  /** One more event: the log stays orderly, and the breaker takes one step. */
  lemma Extend(p: Params, log: seq<Event>, start: real, e: Event)
    requires Orderly(log, start) && (Timed(e) ==> e.at >= Clock(log, start))
    ensures Orderly(log + [e], start) && Run(p, log + [e]) == Step(p, Run(p, log), e)
    ensures Failures(log + [e]) == Recorded(Failures(log), e)
  {
    assert (log + [e])[..|log|] == log;
  }

  // ----- the class -----

  class CircuitBreaker {
    const params: Params
    var failures: seq<real>
    var mode: Mode
    var openedAt: Option<real>
    ghost var log: seq<Event>
    ghost const start: real

    ghost function Now(): Breaker
      reads this
    {
      Breaker(failures, mode, openedAt)
    }

    ghost predicate Valid()
      reads this
    {
      Orderly(log, start) && Now() == Run(params, log)
    }

    /** No event may come before the latest one. */
    ghost predicate Follows(now: real)
      reads this
    {
      now >= Clock(log, start)
    }

    constructor (params: Params, ghost start: real)
      ensures Valid() && this.params == params && this.start == start && log == [] && Now() == FRESH
    {
      this.params, this.start := params, start;
      failures, mode, openedAt, log := [], Closed, None, [];
    }

    method RecordSuccess()
      requires Valid()
      modifies this
      ensures Valid() && log == old(log) + [Succeeded] && Now() == FRESH
    {
      failures, mode, openedAt := [], Closed, None;
      Extend(params, log, start, Succeeded);
      log := log + [Succeeded];
    }

    method ResetNow()
      requires Valid()
      modifies this
      ensures Valid() && log == old(log) + [Reset] && Now() == FRESH
    {
      failures, mode, openedAt := [], Closed, None;
      Extend(params, log, start, Reset);
      log := log + [Reset];
    }

    method Recent(cutoff: real) returns (recent: seq<real>)
      ensures recent == Later(failures, cutoff)
    {
      recent := [];
      for i := 0 to |failures|
        invariant recent == Later(failures[..i], cutoff)
      {
        if failures[i] > cutoff { recent := recent + [failures[i]]; }
        assert failures[..i + 1][..i] == failures[..i];
      }
      assert failures[..|failures|] == failures;
    }

    /** Trips a closed breaker exactly when this failure makes up the threshold of the whole log. */
    method RecordFailure(now: real)
      requires Valid() && Follows(now)
      modifies this
      ensures Valid() && log == old(log) + [Failed(now)]
      ensures mode == Closed <==> NeverTrips(params, Failures(old(log)) + [now])
      ensures old(mode) != Closed ==> mode == old(mode) && openedAt == old(openedAt)
      ensures openedAt == if mode == Closed then None else if old(mode) == Closed then Some(now) else old(openedAt)
    {
      var recent := Recent(now - params.window);
      failures := recent + [now];
      if |failures| >= params.threshold && mode == Closed {
        mode, openedAt := Open, Some(now);
      }
      Extend(params, log, start, Failed(now));
      log := log + [Failed(now)];
      ClosedIff(params, log, start);
      BreakerFollowsLog(params, log, start);
    }

    /** Admits a request exactly when the log says so; may turn the breaker half-open. */
    method CanProceed(now: real) returns (allowed: bool)
      requires Valid() && Follows(now)
      modifies this
      ensures Valid() && log == old(log) + [Probe(now)]
      ensures allowed <==> Admits(params, old(Now()), now)
      ensures NoReopen(old(log)) ==> (allowed <==> Recovered(params, Failures(old(log)), now))
      ensures Now() == old(Now()).(mode := if allowed && old(mode) == Open then HalfOpen else old(mode))
    {
      AdmittedWithoutReopen(params, log, start, now);
      Extend(params, log, start, Probe(now));
      log := log + [Probe(now)];
      if mode == Closed { return true; }
      if mode == Open {
        if openedAt.None? { return false; }
        if now - openedAt.value >= params.openTimeout {
          mode := HalfOpen;
          return true;
        }
        return false;
      }
      return true;
    }

    method TransitionToOpen(now: real)
      requires Valid() && Follows(now)
      modifies this
      ensures Valid() && log == old(log) + [Reopen(now)]
      ensures Now() == if old(mode) == HalfOpen then old(Now()).(mode := Open, openedAt := Some(now)) else old(Now())
    {
      if mode == HalfOpen { mode, openedAt := Open, Some(now); }
      Extend(params, log, start, Reopen(now));
      log := log + [Reopen(now)];
    }

    method CountFailures(now: real) returns (count: nat)
      requires Valid() && Follows(now)
      ensures count == After(Failures(log), now - params.window)
    {
      FailureCountIsExact(params, log, start, now);
      count := 0;
      for i := 0 to |failures|
        invariant count == |Later(failures[..i], now - params.window)|
      {
        if failures[i] > now - params.window { count := count + 1; }
        assert failures[..i + 1][..i] == failures[..i];
      }
      assert failures[..|failures|] == failures;
    }
  }
}

/**
 The retry loop with exponential backoff, and what one forwarded request
 records on the circuit breaker of its upstream.
 */
module Retry {
  import opened Wrappers
  import CB = CircuitBreaker

  /**
   What one attempt comes to.  `TimedOut` is a timeout, `Unreached` a failed
   connection or a protocol error, `Broken` any other error of the HTTP
   library, `Escaped` anything else, a cancellation among it.
   */
  datatype Outcome = Response(status: int) | TimedOut | Unreached | Broken | Escaped

  datatype Params = Params(maxAttempts: int, base: real, jitter: real)

  const DEFAULTS := Params(3, 0.5, 0.3)

  /** The upstream, the random source and the event loop, attempt by attempt. */
  datatype World = World(attempt: nat -> Outcome, draw: nat -> nat, interrupted: nat -> bool)

  datatype End =
    | Delivered(outcome: Outcome)   // a response returned, or an error raised again
    | Interrupted                   // cancelled while sleeping
    | EmptyJitter                   // no number can be drawn below a bound that is not positive
    | NoAttempts                    // the error after the loop

  predicate RetryableStatus(status: int) {
    status in {429, 502, 503, 504}
  }

  predicate Retries(o: Outcome) {
    (o.Response? && RetryableStatus(o.status)) || o.TimedOut? || o.Unreached?
  }

  /** The bound of the jitter draw, in milliseconds. */
  function Spread(p: Params): int {
    (p.jitter * 1000.0).Floor
  }

  /** The random source answers below the bound it is given. */
  ghost predicate Fair(p: Params, w: World) {
    Spread(p) > 0 ==> forall k :: w.draw(k) < Spread(p)
  }

  function Pow2(n: nat): (r: nat)
    ensures r >= 1
  {
    if n == 0 then 1 else 2 * Pow2(n - 1)
  }

  function Delay(p: Params, w: World, k: nat): real {
    p.base * Pow2(k) as real + w.draw(k) as real / 1000.0
  }

  /** The sleep before attempt `n`. */
  function Slept(p: Params, w: World, n: nat): real {
    if n == 0 then 0.0 else Slept(p, w, n - 1) + Delay(p, w, n - 1)
  }

  /** The loop goes no further than attempt `k`. */
  predicate Stops(p: Params, w: World, k: nat) {
    !Retries(w.attempt(k)) || k >= p.maxAttempts - 1 || Spread(p) <= 0 || w.interrupted(k)
  }

  function EndAt(p: Params, w: World, k: nat): End {
    if !Retries(w.attempt(k)) || k >= p.maxAttempts - 1 then Delivered(w.attempt(k))
    else if Spread(p) <= 0 then EmptyJitter
    else Interrupted
  }

  /** The first attempt the loop stops at. */
  function Last(p: Params, w: World, k: nat): nat
    decreases p.maxAttempts - k
  {
    if Stops(p, w, k) then k else Last(p, w, k + 1)
  }

  function Loop(p: Params, w: World): End {
    if p.maxAttempts <= 0 then NoAttempts else EndAt(p, w, Last(p, w, 0))
  }

  function Calls(p: Params, w: World): nat {
    if p.maxAttempts <= 0 then 0 else Last(p, w, 0) + 1
  }

  lemma {:induction false} LastStops(p: Params, w: World, k: nat)
    requires k < p.maxAttempts
    ensures k <= Last(p, w, k) < p.maxAttempts && Stops(p, w, Last(p, w, k))
    ensures forall j :: k <= j < Last(p, w, k) ==> !Stops(p, w, j)
    decreases p.maxAttempts - k
  {
    if !Stops(p, w, k) { LastStops(p, w, k + 1); }
  }

  /** Every attempt before the last was retried; there are at most as many as allowed. */
  lemma CallsAreBounded(p: Params, w: World)
    ensures Calls(p, w) <= if p.maxAttempts > 0 then p.maxAttempts else 0
    ensures forall k :: 0 <= k < Calls(p, w) - 1 ==> Retries(w.attempt(k))
  {
    if p.maxAttempts > 0 {
      LastStops(p, w, 0);
      forall k | 0 <= k < Calls(p, w) - 1 ensures Retries(w.attempt(k)) { assert !Stops(p, w, k); }
    }
  }

  /** What the caller gets is the last attempt's outcome, and a retryable one only after every attempt. */
  lemma DeliveredIsLast(p: Params, w: World)
    requires Loop(p, w).Delivered?
    ensures Calls(p, w) > 0 && Loop(p, w).outcome == w.attempt(Calls(p, w) - 1)
    ensures Retries(Loop(p, w).outcome) ==> Calls(p, w) == p.maxAttempts
  {
    LastStops(p, w, 0);
  }

  /** When the loop ends otherwise. */
  lemma OtherEnds(p: Params, w: World)
    ensures Loop(p, w) == NoAttempts <==> p.maxAttempts <= 0
    ensures Loop(p, w) == EmptyJitter <==> p.maxAttempts > 1 && Retries(w.attempt(0)) && p.jitter < 0.001
    ensures Loop(p, w) == Interrupted ==> Calls(p, w) < p.maxAttempts && w.interrupted(Calls(p, w) - 1)
  {
    if p.maxAttempts > 0 {
      LastStops(p, w, 0);
      SpreadIsPositiveIff(p);
      if Spread(p) <= 0 { assert Stops(p, w, 0); }
    }
  }

  /** This outcome is tried again: too many requests, a gateway's own trouble, a timeout, a failed connection. */
  predicate TriedAgain(o: Outcome) {
    o.TimedOut? || o.Unreached?
    || (o.Response? && (o.status == 429 || o.status == 502 || o.status == 503 || o.status == 504))
  }

  /** A millisecond of jitter is what it takes for a number to be drawn. */
  lemma SpreadIsPositiveIff(p: Params)
    ensures Spread(p) > 0 <==> p.jitter >= 0.001
  {
    if p.jitter >= 0.001 { assert p.jitter * 1000.0 >= 1.0; }
  }

  /**
   Exactly which attempts are made: those within the number allowed before
   which every attempt came to something that is tried again, and every sleep
   could be drawn and was slept through.
   */
  lemma AttemptIsMadeIff(p: Params, w: World, k: nat)
    ensures k < Calls(p, w)
       <==> k < p.maxAttempts
            && forall j :: 0 <= j < k ==> TriedAgain(w.attempt(j)) && p.jitter >= 0.001 && !w.interrupted(j)
  {
    SpreadIsPositiveIff(p);
    if p.maxAttempts > 0 {
      LastStops(p, w, 0);
      if k < Calls(p, w) {
        forall j | 0 <= j < k ensures TriedAgain(w.attempt(j)) && Spread(p) > 0 && !w.interrupted(j) {
          assert !Stops(p, w, j);
        }
      } else if k < p.maxAttempts {
        assert Stops(p, w, Last(p, w, 0)) && Last(p, w, 0) < k;
      }
    }
  }

  // Bounds as running sums, so that only the two lemmas on closed forms multiply.

  function Backoff(base: real, n: nat): real {
    if n == 0 then 0.0 else 2.0 * Backoff(base, n - 1) + base
  }

  function Repeated(jitter: real, n: nat): real {
    if n == 0 then 0.0 else Repeated(jitter, n - 1) + jitter
  }

  lemma {:induction false} BackoffIs(base: real, n: nat)
    ensures Backoff(base, n) == base * (Pow2(n) - 1) as real
  {
    if n > 0 {
      BackoffIs(base, n - 1);
      Double(base, (Pow2(n - 1) - 1) as real);
    }
  }

  lemma Double(base: real, x: real)
    ensures base * (2.0 * x + 1.0) == 2.0 * (base * x) + base
  {
  }

  lemma {:induction false} RepeatedIs(jitter: real, n: nat)
    ensures Repeated(jitter, n) == n as real * jitter
  {
    if n > 0 {
      RepeatedIs(jitter, n - 1);
      OneMore(jitter, (n - 1) as real);
    }
  }

  lemma OneMore(jitter: real, x: real)
    ensures (x + 1.0) * jitter == x * jitter + jitter
  {
  }

  /** All the random milliseconds of `n` sleeps. */
  function Drawn(w: World, n: nat): nat {
    if n == 0 then 0 else Drawn(w, n - 1) + w.draw(n - 1)
  }

  /** `n` sleeps take the backoff, which doubles, and the milliseconds drawn. */
  lemma {:induction false} SleptIs(p: Params, w: World, n: nat)
    ensures Slept(p, w, n) == Backoff(p.base, n) + Drawn(w, n) as real / 1000.0
    ensures Slept(p, w, n) == p.base * (Pow2(n) - 1) as real + Drawn(w, n) as real / 1000.0
  {
    BackoffIs(p.base, n);
    if n > 0 {
      SleptIs(p, w, n - 1);
      BackoffIs(p.base, n - 1);
      OneMoreOf(p.base, Pow2(n - 1));
    }
  }

  /** `n` sleeps take at least the backoff and at most the backoff and the jitter. */
  lemma {:induction false} SleepIsBounded(p: Params, w: World, n: nat)
    requires Fair(p, w) && Spread(p) > 0
    ensures Backoff(p.base, n) <= Slept(p, w, n) <= Backoff(p.base, n) + Repeated(p.jitter, n)
  {
    if n > 0 {
      SleepIsBounded(p, w, n - 1);
      DelayIsBounded(p, w, n - 1);
    }
  }

  lemma DelayIsBounded(p: Params, w: World, k: nat)
    requires Fair(p, w) && Spread(p) > 0
    ensures Backoff(p.base, k) + p.base <= Delay(p, w, k) < Backoff(p.base, k) + p.base + p.jitter
  {
    BackoffIs(p.base, k);
    OneMoreOf(p.base, Pow2(k));
    DrawIsBelowJitter(p, w, k);
  }

  lemma OneMoreOf(base: real, n: nat)
    requires n >= 1
    ensures base * n as real == base * (n - 1) as real + base
  {
    assert n as real == (n - 1) as real + 1.0;
  }

  lemma DrawIsBelowJitter(p: Params, w: World, k: nat)
    requires Fair(p, w) && Spread(p) > 0
    ensures 0.0 <= w.draw(k) as real / 1000.0 < p.jitter
  {
  }

  lemma {:induction false} BoundsGrow(p: Params, a: nat, b: nat)
    requires a <= b && p.base >= 0.0 && p.jitter >= 0.0
    ensures 0.0 <= Backoff(p.base, a) <= Backoff(p.base, b) && Repeated(p.jitter, a) <= Repeated(p.jitter, b)
    decreases b
  {
    if a < b { BoundsGrow(p, a, b - 1); } else if a > 0 { BoundsGrow(p, a - 1, a - 1); }
  }

  lemma SpreadNeedsJitter(p: Params)
    requires Spread(p) > 0
    ensures p.jitter > 0.0
  {
  }

  lemma SleepStaysWithin(p: Params, w: World)
    requires Fair(p, w) && Spread(p) > 0 && p.base >= 0.0 && p.maxAttempts >= 1
    ensures Calls(p, w) >= 1
    ensures 0.0 <= Slept(p, w, Calls(p, w) - 1)
         <= Backoff(p.base, p.maxAttempts - 1) + Repeated(p.jitter, p.maxAttempts - 1)
  {
    LastStops(p, w, 0);
    SpreadNeedsJitter(p);
    SleepIsBounded(p, w, Calls(p, w) - 1);
    BoundsGrow(p, Calls(p, w) - 1, p.maxAttempts - 1);
  }

  /** The whole time slept, for a base that is not negative. */
  lemma TotalSleepIsBounded(p: Params, w: World)
    requires Fair(p, w) && Spread(p) > 0 && p.base >= 0.0 && p.maxAttempts >= 1
    ensures Calls(p, w) >= 1
    ensures 0.0 <= Slept(p, w, Calls(p, w) - 1)
         <= p.base * (Pow2(p.maxAttempts - 1) - 1) as real + (p.maxAttempts - 1) as real * p.jitter
  {
    SleepStaysWithin(p, w);
    BackoffIs(p.base, p.maxAttempts - 1);
    RepeatedIs(p.jitter, p.maxAttempts - 1);
  }

  /** With the defaults: three attempts and a little over two seconds of sleep at most. */
  lemma DefaultsAreBounded(w: World)
    requires Fair(DEFAULTS, w)
    ensures 1 <= Calls(DEFAULTS, w) <= 3
    ensures Slept(DEFAULTS, w, Calls(DEFAULTS, w) - 1) <= 2.1
    ensures Calls(DEFAULTS, w) == 3 ==> Slept(DEFAULTS, w, 2) >= 1.5
    ensures Calls(DEFAULTS, w) == 2 ==> Slept(DEFAULTS, w, 1) >= 0.5
  {
    SleptIs(DEFAULTS, w, 1);
    SleptIs(DEFAULTS, w, 2);
    CallsAreBounded(DEFAULTS, w);
    assert Pow2(2) == 2 * Pow2(1) && Pow2(1) == 2 * Pow2(0);
    TotalSleepIsBounded(DEFAULTS, w);
  }

  /** The loop as written. */
  method RetryWithBackoff(p: Params, w: World) returns (end: End, calls: nat, slept: real)
    ensures end == Loop(p, w) && calls == Calls(p, w)
    ensures slept == if calls == 0 then 0.0 else Slept(p, w, calls - 1)
  {
    var lastException: Option<Outcome> := None;
    calls, slept := 0, 0.0;
    var attempt := 0;
    while attempt < p.maxAttempts
      invariant attempt == calls <= if p.maxAttempts > 0 then p.maxAttempts else 0
      invariant slept == Slept(p, w, attempt)
      invariant attempt > 0 ==> p.maxAttempts > 1 && !Stops(p, w, attempt - 1)
      invariant attempt < p.maxAttempts ==> Last(p, w, 0) == Last(p, w, attempt)
      invariant attempt == 0 ==> lastException == None
    {
      var result := w.attempt(attempt);
      calls := calls + 1;
      if result.Response? {
        if !(RetryableStatus(result.status) && attempt < p.maxAttempts - 1) { return Delivered(result), calls, slept; }
      } else if result.TimedOut? || result.Unreached? {
        lastException := Some(result);
        if attempt >= p.maxAttempts - 1 { return Delivered(result), calls, slept; }
      } else {
        return Delivered(result), calls, slept;
      }
      if Spread(p) <= 0 { return EmptyJitter, calls, slept; }
      var delay := Delay(p, w, attempt);
      if w.interrupted(attempt) { return Interrupted, calls, slept; }
      slept := slept + delay;
      attempt := attempt + 1;
    }
    assert lastException == None;
    return NoAttempts, calls, slept;
  }

  // ----- one forwarded request -----

  datatype Reply =
    | Refused                    // 503, without a call
    | Answered(status: int)      // the upstream's own reply
    | GatewayTimeout             // 504
    | BadGateway                 // 502
    | Propagated                 // an exception the forwarding code does not catch

  function ReplyTo(end: End): Reply {
    match end
    case Delivered(Response(status)) => Answered(status)
    case Delivered(TimedOut) => GatewayTimeout
    case Delivered(Unreached) => BadGateway
    case Delivered(Broken) => BadGateway
    case Delivered(Escaped) => Propagated
    case Interrupted => Propagated
    case EmptyJitter => Propagated
    case NoAttempts => Propagated
  }

  /** What a reply says of the upstream: healthy, failing, or nothing. */
  function Verdict(r: Reply, now: real): seq<CB.Event> {
    match r
    case Answered(status) => [if status < 500 then CB.Succeeded else CB.Failed(now)]
    case GatewayTimeout => [CB.Failed(now)]
    case BadGateway => [CB.Failed(now)]
    case Refused => []
    case Propagated => []
  }

  /**
   `_forward_json`, and `_forward_stream` up to its first byte: a request that
   arrives at `arrived` and whose last attempt ends at `ended`.
   */
  method Forward(circuit: CB.CircuitBreaker, w: World, arrived: real, ended: real) returns (r: Reply, calls: nat)
    requires circuit.Valid() && circuit.Follows(arrived) && arrived <= ended
    modifies circuit
    ensures circuit.Valid()
    ensures circuit.log == old(circuit.log) + [CB.Probe(arrived)] + Verdict(r, ended)
    ensures r.Refused? <==> !CB.Admits(circuit.params, old(circuit.Now()), arrived)
    ensures r.Refused? ==> calls == 0
    ensures !r.Refused? ==> calls == Calls(DEFAULTS, w) && r == ReplyTo(Loop(DEFAULTS, w))
    ensures (circuit.Now(), r, calls) == Serve(circuit.params, old(circuit.Now()), Visit(w, arrived, ended))
  {
    var allowed := circuit.CanProceed(arrived);
    if !allowed { return Refused, 0; }
    var end, made, _ := RetryWithBackoff(DEFAULTS, w);
    calls := made;
    match end
    case Delivered(outcome) =>
      match outcome {
        case Response(status) =>
          if status < 500 { circuit.RecordSuccess(); } else { circuit.RecordFailure(ended); }
          r := Answered(status);
        case TimedOut =>
          circuit.RecordFailure(ended);
          r := GatewayTimeout;
        case Unreached =>
          circuit.RecordFailure(ended);
          r := BadGateway;
        case Broken =>
          circuit.RecordFailure(ended);
          r := BadGateway;
        case Escaped => r := Propagated;
      }
    case Interrupted => r := Propagated;
    case EmptyJitter => r := Propagated;
    case NoAttempts => r := Propagated;
  }

  /** The status a reply has, unless it is an exception going on. */
  function StatusOf(r: Reply): Option<int> {
    match r
    case Refused => Some(503)
    case Answered(status) => Some(status)
    case GatewayTimeout => Some(504)
    case BadGateway => Some(502)
    case Propagated => None
  }

  /**
   What the caller is told of an admitted request: the status of the last
   attempt's response, 504 if that timed out, 502 if it failed otherwise, and
   nothing of the gateway's own if something else ended it.
   */
  lemma ReplyIs(w: World)
    ensures Calls(DEFAULTS, w) > 0
    ensures
      var last, status := w.attempt(Calls(DEFAULTS, w) - 1), StatusOf(ReplyTo(Loop(DEFAULTS, w)));
      if TriedAgain(last) && Calls(DEFAULTS, w) < 3 then Loop(DEFAULTS, w) == Interrupted && status == None
      else match last
           case Response(s) => status == Some(s)
           case TimedOut => status == Some(504)
           case Unreached => status == Some(502)
           case Broken => status == Some(502)
           case Escaped => status == None
  {
    LastStops(DEFAULTS, w, 0);
    OtherEnds(DEFAULTS, w);
    CallsAreBounded(DEFAULTS, w);
  }

  /** An admitted request records exactly one verdict, unless it is cancelled or fails outside the HTTP library. */
  lemma OneVerdict(w: World, now: real)
    ensures
      var end, verdict := Loop(DEFAULTS, w), Verdict(ReplyTo(Loop(DEFAULTS, w)), now);
      && |verdict| == (if end == Interrupted || end == Delivered(Escaped) then 0 else 1)
      && (verdict == [CB.Succeeded] <==> end.Delivered? && end.outcome.Response? && end.outcome.status < 500)
      && (verdict != [] && verdict != [CB.Succeeded] ==> verdict == [CB.Failed(now)])
  {
    OtherEnds(DEFAULTS, w);
  }

  /** An upstream that answers "too many requests" to all three attempts is recorded as healthy. */
  lemma RateLimitedCountsAsHealthy(w: World, now: real)
    requires forall k :: w.attempt(k) == Response(429) && !w.interrupted(k)
    ensures Calls(DEFAULTS, w) == 3 && Verdict(ReplyTo(Loop(DEFAULTS, w)), now) == [CB.Succeeded]
  {
    OtherEnds(DEFAULTS, w);
    CallsAreBounded(DEFAULTS, w);
    LastStops(DEFAULTS, w, 0);
    DeliveredIsLast(DEFAULTS, w);
  }

  // ----- requests one after another -----

  datatype Visit = Visit(w: World, arrived: real, ended: real)

  function Serve(p: CB.Params, b: CB.Breaker, v: Visit): (CB.Breaker, Reply, nat) {
    var c := CB.Step(p, b, CB.Probe(v.arrived));
    if !CB.Admits(p, b, v.arrived) then (c, Refused, 0)
    else
      var r := ReplyTo(Loop(DEFAULTS, v.w));
      var verdict := Verdict(r, v.ended);
      (if verdict == [] then c else CB.Step(p, c, verdict[0]), r, Calls(DEFAULTS, v.w))
  }

  /** How many upstream calls a run of requests makes. */
  function CallsMade(p: CB.Params, b: CB.Breaker, vs: seq<Visit>): nat
    decreases |vs|
  {
    if vs == [] then 0 else Serve(p, b, vs[0]).2 + CallsMade(p, Serve(p, b, vs[0]).0, vs[1..])
  }

  /** Requests in turn between two times, each of which would fail if it were sent. */
  predicate AllFail(vs: seq<Visit>, from: real, to: real)
    decreases |vs|
  {
    vs == []
    || (from <= vs[0].arrived <= vs[0].ended <= to
        && Verdict(ReplyTo(Loop(DEFAULTS, vs[0].w)), vs[0].ended) == [CB.Failed(vs[0].ended)]
        && AllFail(vs[1..], vs[0].ended, to))
  }

  /** Open, with more than the rest of the stretch to wait. */
  predicate Shut(p: CB.Params, b: CB.Breaker, to: real) {
    b.mode == CB.Open && b.openedAt.Some? && to - b.openedAt.value < p.openTimeout
  }

  lemma {:induction false} ShutMakesNoCalls(p: CB.Params, b: CB.Breaker, vs: seq<Visit>, from: real, to: real)
    requires Shut(p, b, to) && AllFail(vs, from, to)
    ensures CallsMade(p, b, vs) == 0
    decreases |vs|
  {
    if vs != [] { ShutMakesNoCalls(p, b, vs[1..], vs[0].ended, to); }
  }

  /** The failures that stay in the window up to `to`. */
  function Live(p: CB.Params, b: CB.Breaker, to: real): nat {
    |CB.Later(b.failures, to - p.window)|
  }

  lemma FailureStaysLive(p: CB.Params, b: CB.Breaker, now: real, to: real)
    requires now <= to < now + p.window
    ensures Live(p, CB.Fail(p, b, now), to) == Live(p, b, to) + 1
  {
    StaysLater(b.failures, now - p.window, to - p.window, now);
  }

  lemma StaysLater(times: seq<real>, a: real, b: real, now: real)
    requires a <= b < now
    ensures |CB.Later(CB.Later(times, a) + [now], b)| == |CB.Later(times, b)| + 1
  {
    CB.LaterTwice(times, a, b);
    CB.LaterSnoc(CB.Later(times, a), now, b);
  }

  /** A failure in the stretch either leaves the breaker closed, one failure nearer its threshold, or shuts it. */
  lemma FailureTakesRoom(p: CB.Params, b: CB.Breaker, now: real, to: real)
    requires b.mode == CB.Closed && now <= to < now + p.window && to - now < p.openTimeout
    ensures
      var c := CB.Fail(p, b, now);
      if c.mode == CB.Closed then Room(p, c, to) + 1 == Room(p, b, to) else Shut(p, c, to)
  {
    var c := CB.Fail(p, b, now);
    FailureStaysLive(p, b, now, to);
    LiveAreKept(c.failures, to - p.window);
  }

  lemma {:induction false} LiveAreKept(times: seq<real>, since: real)
    ensures |CB.Later(times, since)| <= |times|
    decreases |times|
  {
    if times != [] { LiveAreKept(times[..|times| - 1], since); }
  }

  function Room(p: CB.Params, b: CB.Breaker, to: real): nat {
    if p.threshold > Live(p, b, to) then p.threshold - Live(p, b, to) else 1
  }

  lemma {:induction false} RoomForCalls(p: CB.Params, b: CB.Breaker, vs: seq<Visit>, from: real, to: real)
    requires b.mode == CB.Closed && AllFail(vs, from, to)
    requires to - from < p.window && to - from < p.openTimeout
    ensures CallsMade(p, b, vs) <= 3 * Room(p, b, to)
    decreases |vs|
  {
    if vs != [] {
      var v := vs[0];
      CallsAreBounded(DEFAULTS, v.w);
      var c := CB.Fail(p, b, v.ended);
      assert Serve(p, b, v).0 == c && Serve(p, b, v).2 <= 3;
      FailureTakesRoom(p, b, v.ended, to);
      if c.mode == CB.Closed {
        RoomForCalls(p, c, vs[1..], v.ended, to);
      } else {
        ShutMakesNoCalls(p, c, vs[1..], v.ended, to);
      }
    }
  }

  /**
   A dead upstream is shielded: while everything sent to it fails, in any
   stretch shorter than the window and the open timeout, requests in turn make
   at most three calls for each failure the threshold allows.
   */
  lemma DeadUpstreamIsShielded(p: CB.Params, b: CB.Breaker, vs: seq<Visit>, from: real, to: real)
    requires b.mode == CB.Closed && AllFail(vs, from, to) && p.threshold >= 1
    requires to - from < p.window && to - from < p.openTimeout
    ensures CallsMade(p, b, vs) <= 3 * p.threshold
  {
    RoomForCalls(p, b, vs, from, to);
  }
}

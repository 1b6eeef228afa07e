/**
 The sliding-window limiter, proved against the full, never pruned log of the
 calls it allowed.  Time is a real number of seconds.
 */
module RateLimiting {
  import opened Times

  /** `RateLimitConfig`: constructing one with a value that is not positive raises. */
  datatype ConfigValues = ConfigValues(maxRequests: int, windowSeconds: int, cleanupInterval: int)
  {
    predicate Accepted() { maxRequests > 0 && windowSeconds > 0 && cleanupInterval > 0 }
  }
  type Config = c: ConfigValues | c.Accepted() witness ConfigValues(100, 60, 300)

  /** Endpoint limits are not checked by the code: any two integers. */
  datatype Limits = Limits(maxRequests: int, window: int)

  datatype State = State(requests: map<string, seq<real>>, endpoints: map<string, Limits>, lastCleanup: real)

  function LimitsOf(c: Config, s: State, endpoint: string): Limits {
    if endpoint in s.endpoints then s.endpoints[endpoint] else Limits(c.maxRequests, c.windowSeconds)
  }

  function Key(identifier: string, endpoint: string): string {
    endpoint + ":" + identifier
  }

  function TimesAt(s: State, key: string): seq<real> {
    if key in s.requests then s.requests[key] else []
  }

  function Prune(times: seq<real>, cutoff: real): seq<real>
    decreases |times|
  {
    if times != [] && times[0] <= cutoff then Prune(times[1..], cutoff) else times
  }

  function Stale(times: seq<real>, cutoff: real): bool {
    times == [] || times[|times| - 1] < cutoff
  }

  function Cleanup(c: Config, s: State, now: real): State {
    if now - s.lastCleanup < c.cleanupInterval as real then s
    else
      var cutoff := now - c.windowSeconds as real;
      s.(requests := map k | k in s.requests && !Stale(s.requests[k], cutoff) :: s.requests[k],
         lastCleanup := now)
  }

  function With(s: State, key: string, times: seq<real>): State {
    s.(requests := s.requests[key := times])
  }

  /** The times a call looks at: its key's, without those that have left its window. */
  function InView(c: Config, s: State, identifier: string, endpoint: string, now: real): seq<real> {
    Prune(TimesAt(s, Key(identifier, endpoint)), now - LimitsOf(c, s, endpoint).window as real)
  }

  /** `is_allowed` below its cleanup. */
  function Decide(c: Config, s: State, identifier: string, endpoint: string, now: real): (State, bool) {
    var times, key := InView(c, s, identifier, endpoint, now), Key(identifier, endpoint);
    if |times| < LimitsOf(c, s, endpoint).maxRequests then (With(s, key, times + [now]), true)
    else (With(s, key, times), false)
  }

  /** `is_allowed`. */
  function Allow(c: Config, s: State, identifier: string, endpoint: string, now: real): (State, bool) {
    Decide(c, Cleanup(c, s, now), identifier, endpoint, now)
  }

  /** `get_remaining_requests`. */
  function Remaining(c: Config, s: State, identifier: string, endpoint: string, now: real): (State, nat) {
    var times, limit := InView(c, s, identifier, endpoint, now), LimitsOf(c, s, endpoint).maxRequests;
    (With(s, Key(identifier, endpoint), times), if limit > |times| then limit - |times| else 0)
  }

  /** `get_reset_time`. */
  function ResetTime(c: Config, s: State, identifier: string, endpoint: string, now: real): (State, real) {
    var limits, key := LimitsOf(c, s, endpoint), Key(identifier, endpoint);
    var times := TimesAt(s, key);
    (With(s, key, times), if times == [] then now else times[0] + limits.window as real)
  }

  // ----- the specification: a log of allowed calls -----

  datatype Admission = Admission(key: string, time: real)

  /** The times logged for one key. */
  function Logged(log: seq<Admission>, key: string): seq<real>
    decreases |log|
  {
    if log == [] then []
    else
      Logged(log[..|log| - 1], key) + if log[|log| - 1].key == key then [log[|log| - 1].time] else []
  }

  predicate Within(log: seq<Admission>, key: string, limits: Limits, now: real) {
    After(Logged(log, key), now - limits.window as real) < limits.maxRequests
  }

  // ----- pruning against the log -----

  predicate Sorted(times: seq<real>) {
    forall i, j :: 0 <= i < j < |times| ==> times[i] <= times[j]
  }

  /** Pruning drops the longest prefix of old times. */
  lemma {:induction false} PruneIs(times: seq<real>, cutoff: real) returns (n: nat)
    ensures n <= |times| && Prune(times, cutoff) == times[n..]
    ensures UpTo(times[..n], cutoff) && (n < |times| ==> times[n] > cutoff)
    decreases |times|
  {
    n := 0;
    if times != [] && times[0] <= cutoff {
      n := PruneIs(times[1..], cutoff);
      n := n + 1;
      assert forall i :: 0 < i < n ==> times[..n][i] == times[1..][..n - 1][i - 1];
    }
  }

  /** With times in order, what is left is exactly what counts. */
  lemma PruneCounts(times: seq<real>, cutoff: real)
    requires Sorted(times)
    ensures |Prune(times, cutoff)| == After(times, cutoff)
  {
    var n := PruneIs(times, cutoff);
    assert times == times[..n] + times[n..];
    AfterConcat(times[..n], times[n..], cutoff);
    AfterNone(times[..n], cutoff);
    AfterAll(times[n..], cutoff);
  }

  /** `kept` is `all`, in order, without some times that had left the window by `now`. */
  predicate Keeps(kept: seq<real>, all: seq<real>, now: real, window: real) {
    && Sorted(all) && UpTo(all, now) && |kept| <= |all|
    && kept == all[|all| - |kept|..]
    && UpTo(all[..|all| - |kept|], now - window)
  }

  lemma KeepsLonger(kept: seq<real>, all: seq<real>, before: real, now: real, window: real)
    requires Keeps(kept, all, before, window) && before <= now
    ensures Keeps(kept, all, now, window)
  {
  }

  /** Pruning leaves as many times as the log has in the window, and still keeps the log. */
  lemma PruneKeeps(kept: seq<real>, all: seq<real>, now: real, window: real)
    requires Keeps(kept, all, now, window)
    ensures Keeps(Prune(kept, now - window), all, now, window)
    ensures |Prune(kept, now - window)| == After(all, now - window)
  {
    var n := PruneIs(kept, now - window);
    SuffixKeeps(kept, all, now, window, n);
    CountKept(kept, all, now - window);
  }

  lemma SuffixKeeps(kept: seq<real>, all: seq<real>, now: real, window: real, n: nat)
    requires Keeps(kept, all, now, window) && n <= |kept| && UpTo(kept[..n], now - window)
    ensures Keeps(kept[n..], all, now, window)
  {
    var m := |all| - |kept|;
    assert kept[n..] == all[m + n..];
    assert all[..m + n] == all[..m] + kept[..n];
    UpToConcat(all[..m], kept[..n], now - window);
  }

  lemma UpToConcat(a: seq<real>, b: seq<real>, cutoff: real)
    requires UpTo(a, cutoff) && UpTo(b, cutoff)
    ensures UpTo(a + b, cutoff)
  {
  }

  lemma CountKept(kept: seq<real>, all: seq<real>, cutoff: real)
    requires Sorted(all) && |kept| <= |all| && kept == all[|all| - |kept|..] && UpTo(all[..|all| - |kept|], cutoff)
    ensures |Prune(kept, cutoff)| == After(all, cutoff)
  {
    var m := |all| - |kept|;
    PruneCounts(kept, cutoff);
    AfterNone(all[..m], cutoff);
    AfterSplit(all, m, cutoff);
  }

  lemma AfterSplit(all: seq<real>, m: nat, cutoff: real)
    requires m <= |all|
    ensures After(all, cutoff) == After(all[..m], cutoff) + After(all[m..], cutoff)
  {
    assert all == all[..m] + all[m..];
    AfterConcat(all[..m], all[m..], cutoff);
  }

  lemma AppendKeeps(kept: seq<real>, all: seq<real>, now: real, window: real)
    requires Keeps(kept, all, now, window)
    ensures Keeps(kept + [now], all + [now], now, window)
  {
    var m := |all| - |kept|;
    assert (all + [now])[m..] == all[m..] + [now];
    assert (all + [now])[..m] == all[..m];
  }

  /** What a call leaves at a key, whether it is logged or not. */
  lemma CallKeeps(kept: seq<real>, all: seq<real>, now: real, window: real, left: seq<real>)
    requires Keeps(kept, all, now, window) && left == Prune(kept, now - window)
    ensures |left| == After(all, now - window)
    ensures Keeps(left, all, now, window) && Keeps(left + [now], all + [now], now, window)
  {
    PruneKeeps(kept, all, now, window);
    AppendKeeps(left, all, now, window);
  }

  /** Nothing need be kept of a key whose last time is older than some wider window. */
  lemma ForgetKeeps(kept: seq<real>, all: seq<real>, now: real, window: real, cutoff: real)
    requires Keeps(kept, all, now, window) && Stale(kept, cutoff) && cutoff <= now - window
    ensures Keeps([], all, now, window)
  {
    var m := |all| - |kept|;
    assert all[|all|..] == [];
    forall i | 0 <= i < |all| ensures all[..|all|][i] <= now - window {
      if i < m { assert all[i] == all[..m][i]; } else { assert all[i] <= all[|all| - 1] == kept[|kept| - 1]; }
    }
  }

  // ----- the invariant -----

  /** The endpoint a key was made from, for endpoints without a colon. */
  function EndpointOf(key: string): string {
    if key == "" || key[0] == ':' then "" else [key[0]] + EndpointOf(key[1..])
  }

  lemma {:induction false} EndpointOfKey(identifier: string, endpoint: string)
    requires ':' !in endpoint
    ensures EndpointOf(Key(identifier, endpoint)) == endpoint
    decreases |endpoint|
  {
    var key := Key(identifier, endpoint);
    if endpoint != "" {
      assert key[1..] == Key(identifier, endpoint[1..]);
      EndpointOfKey(identifier, endpoint[1..]);
    }
  }

  /** The endpoint's window is no longer than the global one, by which cleanup goes. */
  predicate Narrow(c: Config, s: State, endpoint: string) {
    LimitsOf(c, s, endpoint).window <= c.windowSeconds
  }

  function Window(c: Config, s: State, key: string): real {
    LimitsOf(c, s, EndpointOf(key)).window as real
  }

  /** What the limiter keeps for the keys of one endpoint is the log, less what has left their window. */
  ghost predicate Faithful(c: Config, s: State, log: seq<Admission>, now: real, endpoint: string) {
    forall key :: EndpointOf(key) == endpoint ==> FaithfulAt(c, s, log, now, key)
  }

  predicate FaithfulAt(c: Config, s: State, log: seq<Admission>, now: real, key: string) {
    Keeps(TimesAt(s, key), Logged(log, key), now, Window(c, s, key))
  }

  lemma WaitingKeepsFaith(c: Config, s: State, log: seq<Admission>, before: real, now: real, key: string)
    requires FaithfulAt(c, s, log, before, key) && before <= now
    ensures FaithfulAt(c, s, log, now, key)
  {
    KeepsLonger(TimesAt(s, key), Logged(log, key), before, now, Window(c, s, key));
  }

  lemma CleanupIsInvisible(c: Config, s: State, log: seq<Admission>, now: real, key: string)
    requires FaithfulAt(c, s, log, now, key) && Narrow(c, s, EndpointOf(key))
    ensures FaithfulAt(c, Cleanup(c, s, now), log, now, key)
  {
    var t := Cleanup(c, s, now);
    if key in s.requests && key !in t.requests {
      ForgetKeeps(s.requests[key], Logged(log, key), now, Window(c, s, key), now - c.windowSeconds as real);
    }
  }

  lemma AgedAt(c: Config, s: State, log: seq<Admission>, before: real, now: real, key: string)
    requires FaithfulAt(c, s, log, before, key) && before <= now && Narrow(c, s, EndpointOf(key))
    ensures FaithfulAt(c, s, log, now, key) && FaithfulAt(c, Cleanup(c, s, now), log, now, key)
  {
    WaitingKeepsFaith(c, s, log, before, now, key);
    CleanupIsInvisible(c, s, log, now, key);
  }

  lemma LoggedSnoc(log: seq<Admission>, a: Admission, key: string)
    ensures Logged(log + [a], key) == Logged(log, key) + if a.key == key then [a.time] else []
  {
    assert (log + [a])[..|log|] == log;
  }

  // ----- exactness, call by call -----

  /** The log after a decision: calls that are allowed enter it. */
  function Entering(log: seq<Admission>, key: string, now: real, allowed: bool): seq<Admission> {
    if allowed then log + [Admission(key, now)] else log
  }

  function Enter(c: Config, s: State, log: seq<Admission>, identifier: string, endpoint: string, now: real)
    : seq<Admission>
  {
    Entering(log, Key(identifier, endpoint), now, Allow(c, s, identifier, endpoint, now).1)
  }

  /** At the call's own key: what pruning leaves is what the log counts. */
  lemma InViewIsExact(c: Config, s: State, log: seq<Admission>, identifier: string, endpoint: string, now: real)
    requires ':' !in endpoint && FaithfulAt(c, s, log, now, Key(identifier, endpoint))
    ensures
      var key, times := Key(identifier, endpoint), InView(c, s, identifier, endpoint, now);
      && |times| == After(Logged(log, key), now - LimitsOf(c, s, endpoint).window as real)
      && Keeps(times, Logged(log, key), now, Window(c, s, key))
      && Keeps(times + [now], Logged(log, key) + [now], now, Window(c, s, key))
  {
    var key, times := Key(identifier, endpoint), InView(c, s, identifier, endpoint, now);
    EndpointOfKey(identifier, endpoint);
    CallKeeps(TimesAt(s, key), Logged(log, key), now, Window(c, s, key), times);
  }

  /** Storing times that keep a key's log leaves the limiter faithful at that key. */
  lemma OwnKeyKeepsFaith(c: Config, s: State, more: seq<Admission>, now: real, key: string, times: seq<real>)
    requires Keeps(times, Logged(more, key), now, Window(c, s, key))
    ensures FaithfulAt(c, With(s, key, times), more, now, key)
  {
    assert TimesAt(With(s, key, times), key) == times;
    assert Window(c, With(s, key, times), key) == Window(c, s, key);
  }

  /** Whatever is stored at one key is nothing to another. */
  lemma OtherKeyKeepsFaith(c: Config, s: State, log: seq<Admission>, more: seq<Admission>, now: real,
                           key: string, times: seq<real>, k: string)
    requires k != key && FaithfulAt(c, s, log, now, k) && Logged(more, k) == Logged(log, k)
    ensures FaithfulAt(c, With(s, key, times), more, now, k)
  {
    assert TimesAt(With(s, key, times), k) == TimesAt(s, k);
    assert Window(c, With(s, key, times), k) == Window(c, s, k);
  }

  lemma DecisionIsExact(c: Config, s: State, log: seq<Admission>, identifier: string, endpoint: string, now: real)
    requires ':' !in endpoint && FaithfulAt(c, s, log, now, Key(identifier, endpoint))
    ensures Decide(c, s, identifier, endpoint, now).1
       <==> Within(log, Key(identifier, endpoint), LimitsOf(c, s, endpoint), now)
  {
    InViewIsExact(c, s, log, identifier, endpoint, now);
  }

  lemma EnteringLogs(log: seq<Admission>, key: string, now: real, allowed: bool, k: string)
    ensures Logged(Entering(log, key, now, allowed), k) == Logged(log, k) + if allowed && k == key then [now] else []
  {
    LoggedSnoc(log, Admission(key, now), k);
    assert Logged(log, k) + [] == Logged(log, k);
  }

  /** What a decision stores at its key. */
  function Stored(c: Config, s: State, identifier: string, endpoint: string, now: real): seq<real> {
    var times := InView(c, s, identifier, endpoint, now);
    if Decide(c, s, identifier, endpoint, now).1 then times + [now] else times
  }

  lemma DecideStores(c: Config, s: State, identifier: string, endpoint: string, now: real)
    ensures Decide(c, s, identifier, endpoint, now).0
         == With(s, Key(identifier, endpoint), Stored(c, s, identifier, endpoint, now))
  {
  }

  lemma StoredKeeps(c: Config, s: State, log: seq<Admission>, identifier: string, endpoint: string, now: real)
    requires ':' !in endpoint && FaithfulAt(c, s, log, now, Key(identifier, endpoint))
    ensures
      var key, allowed := Key(identifier, endpoint), Decide(c, s, identifier, endpoint, now).1;
      Keeps(Stored(c, s, identifier, endpoint, now), Logged(Entering(log, key, now, allowed), key), now,
            Window(c, s, key))
  {
    var key, allowed := Key(identifier, endpoint), Decide(c, s, identifier, endpoint, now).1;
    InViewIsExact(c, s, log, identifier, endpoint, now);
    EnteringLogs(log, key, now, allowed, key);
    assert !allowed ==> Logged(Entering(log, key, now, allowed), key) == Logged(log, key);
  }

  /** The decision, seen from any key. */
  lemma DecideAt(c: Config, s: State, log: seq<Admission>, identifier: string, endpoint: string, now: real, k: string)
    requires ':' !in endpoint && FaithfulAt(c, s, log, now, k)
    ensures
      var (t, allowed) := Decide(c, s, identifier, endpoint, now);
      FaithfulAt(c, t, Entering(log, Key(identifier, endpoint), now, allowed), now, k)
  {
    var key, stored := Key(identifier, endpoint), Stored(c, s, identifier, endpoint, now);
    var more := Entering(log, key, now, Decide(c, s, identifier, endpoint, now).1);
    DecideStores(c, s, identifier, endpoint, now);
    if k == key {
      StoredKeeps(c, s, log, identifier, endpoint, now);
      OwnKeyKeepsFaith(c, s, more, now, key, stored);
    } else {
      EnteringLogs(log, key, now, Decide(c, s, identifier, endpoint, now).1, k);
      assert Logged(log, k) + [] == Logged(log, k);
      OtherKeyKeepsFaith(c, s, log, more, now, key, stored, k);
    }
  }

  /** One call, seen from any key whose own window is narrow. */
  lemma AllowAt(c: Config, s: State, log: seq<Admission>, identifier: string, endpoint: string,
                before: real, now: real, k: string)
    requires before <= now && ':' !in endpoint
    requires FaithfulAt(c, s, log, before, k) && Narrow(c, s, EndpointOf(k))
    ensures k == Key(identifier, endpoint) ==>
              (Allow(c, s, identifier, endpoint, now).1 <==> Within(log, k, LimitsOf(c, s, endpoint), now))
    ensures FaithfulAt(c, Allow(c, s, identifier, endpoint, now).0,
                       Enter(c, s, log, identifier, endpoint, now), now, k)
  {
    AgedAt(c, s, log, before, now, k);
    if k == Key(identifier, endpoint) { DecisionIsExact(c, Cleanup(c, s, now), log, identifier, endpoint, now); }
    DecideAt(c, Cleanup(c, s, now), log, identifier, endpoint, now, k);
  }

  /** A call is allowed exactly when the whole log has fewer than the limit in the last window. */
  lemma AllowIsExact(c: Config, s: State, log: seq<Admission>, identifier: string, endpoint: string,
                     before: real, now: real)
    requires before <= now && ':' !in endpoint && Faithful(c, s, log, before, endpoint) && Narrow(c, s, endpoint)
    ensures Allow(c, s, identifier, endpoint, now).1
       <==> Within(log, Key(identifier, endpoint), LimitsOf(c, s, endpoint), now)
  {
    EndpointOfKey(identifier, endpoint);
    AllowAt(c, s, log, identifier, endpoint, before, now, Key(identifier, endpoint));
  }

  lemma RemainingAt(c: Config, s: State, log: seq<Admission>, identifier: string, endpoint: string,
                    before: real, now: real, k: string)
    requires before <= now && ':' !in endpoint && FaithfulAt(c, s, log, before, k)
    ensures FaithfulAt(c, Remaining(c, s, identifier, endpoint, now).0, log, now, k)
  {
    var key, times := Key(identifier, endpoint), InView(c, s, identifier, endpoint, now);
    WaitingKeepsFaith(c, s, log, before, now, k);
    if k == key {
      InViewIsExact(c, s, log, identifier, endpoint, now);
      OwnKeyKeepsFaith(c, s, log, now, key, times);
    } else {
      OtherKeyKeepsFaith(c, s, log, log, now, key, times, k);
    }
  }

  /** What is left is the limit less what the log has in the window; this needs no narrow window. */
  lemma RemainingIsExact(c: Config, s: State, log: seq<Admission>, identifier: string, endpoint: string,
                         before: real, now: real)
    requires before <= now && ':' !in endpoint && Faithful(c, s, log, before, endpoint)
    ensures
      var limits := LimitsOf(c, s, endpoint);
      var used := After(Logged(log, Key(identifier, endpoint)), now - limits.window as real);
      Remaining(c, s, identifier, endpoint, now).1 == if limits.maxRequests > used then limits.maxRequests - used else 0
  {
    EndpointOfKey(identifier, endpoint);
    WaitingKeepsFaith(c, s, log, before, now, Key(identifier, endpoint));
    InViewIsExact(c, s, log, identifier, endpoint, now);
  }

  /** So there is something left exactly when asking now would succeed. */
  lemma RemainingPredictsAllow(c: Config, s: State, log: seq<Admission>, identifier: string, endpoint: string,
                               before: real, now: real)
    requires before <= now && ':' !in endpoint && Faithful(c, s, log, before, endpoint) && Narrow(c, s, endpoint)
    ensures Remaining(c, s, identifier, endpoint, now).1 > 0 <==> Allow(c, s, identifier, endpoint, now).1
  {
    AllowIsExact(c, s, log, identifier, endpoint, before, now);
    RemainingIsExact(c, s, log, identifier, endpoint, before, now);
  }

  // ----- runs -----

  datatype Query =
    | IsAllowed(identifier: string, endpoint: string, now: real)
    | GetRemaining(identifier: string, endpoint: string, now: real)
    | GetReset(identifier: string, endpoint: string, now: real)

  function Serve(c: Config, s: State, q: Query): State {
    match q
    case IsAllowed(i, e, now) => Allow(c, s, i, e, now).0
    case GetRemaining(i, e, now) => Remaining(c, s, i, e, now).0
    case GetReset(i, e, now) => ResetTime(c, s, i, e, now).0
  }

  function ServeAll(c: Config, s: State, qs: seq<Query>): State
    decreases |qs|
  {
    if qs == [] then s else ServeAll(c, Serve(c, s, qs[0]), qs[1..])
  }

  /** The log of what was really allowed. */
  function EnterQuery(c: Config, s: State, log: seq<Admission>, q: Query): seq<Admission> {
    if q.IsAllowed? then Enter(c, s, log, q.identifier, q.endpoint, q.now) else log
  }

  function Entered(c: Config, s: State, log: seq<Admission>, qs: seq<Query>): seq<Admission>
    decreases |qs|
  {
    if qs == [] then log else Entered(c, Serve(c, s, qs[0]), EnterQuery(c, s, log, qs[0]), qs[1..])
  }

  /** The answers the limiter gives to the calls of a run on one endpoint. */
  function Answers(c: Config, s: State, qs: seq<Query>, endpoint: string): seq<bool>
    decreases |qs|
  {
    if qs == [] then []
    else
      (if CallsOn(qs[0], endpoint) then [Allow(c, s, qs[0].identifier, endpoint, qs[0].now).1] else [])
      + Answers(c, Serve(c, s, qs[0]), qs[1..], endpoint)
  }

  predicate CallsOn(q: Query, endpoint: string) {
    q.IsAllowed? && q.endpoint == endpoint
  }

  /** The answers a log with nothing ever dropped dictates, with no limiter in sight. */
  function Dictated(limits: Limits, log: seq<Admission>, qs: seq<Query>, endpoint: string): seq<bool>
    decreases |qs|
  {
    if qs == [] then []
    else if !CallsOn(qs[0], endpoint) then Dictated(limits, log, qs[1..], endpoint)
    else
      var key := Key(qs[0].identifier, endpoint);
      var allowed := Within(log, key, limits, qs[0].now);
      [allowed] + Dictated(limits, Entering(log, key, qs[0].now, allowed), qs[1..], endpoint)
  }

  /** The clock never goes back, and endpoints hold no colon. */
  predicate Orderly(qs: seq<Query>, since: real)
    decreases |qs|
  {
    qs == [] || (qs[0].now >= since && ':' !in qs[0].endpoint && Orderly(qs[1..], qs[0].now))
  }

  function Latest(qs: seq<Query>, since: real): real {
    if qs == [] then since else qs[|qs| - 1].now
  }

  /** A query keeps the limiter faithful for every endpoint with a narrow window, its own or another. */
  lemma ServeKeepsFaith(c: Config, s: State, log: seq<Admission>, q: Query, before: real, endpoint: string)
    requires Faithful(c, s, log, before, endpoint) && Narrow(c, s, endpoint) && before <= q.now && ':' !in q.endpoint
    ensures Faithful(c, Serve(c, s, q), EnterQuery(c, s, log, q), q.now, endpoint)
    ensures Serve(c, s, q).endpoints == s.endpoints
  {
    match q
    case IsAllowed(i, e, now) =>
      forall k | EndpointOf(k) == endpoint
        ensures FaithfulAt(c, Serve(c, s, q), EnterQuery(c, s, log, q), now, k) {
        AllowAt(c, s, log, i, e, before, now, k);
      }
    case GetRemaining(i, e, now) =>
      forall k | EndpointOf(k) == endpoint ensures FaithfulAt(c, Serve(c, s, q), log, now, k) {
        RemainingAt(c, s, log, i, e, before, now, k);
      }
    case GetReset(i, e, now) =>
      forall k | EndpointOf(k) == endpoint ensures FaithfulAt(c, Serve(c, s, q), log, now, k) {
        WaitingKeepsFaith(c, s, log, before, now, k);
        assert TimesAt(Serve(c, s, q), k) == TimesAt(s, k);
      }
  }

  /** What a query adds to the log of one key. */
  function Added(c: Config, s: State, q: Query, key: string): seq<real> {
    if q.IsAllowed? && Key(q.identifier, q.endpoint) == key && Allow(c, s, q.identifier, q.endpoint, q.now).1
    then [q.now] else []
  }

  lemma EnterQueryAdds(c: Config, s: State, log: seq<Admission>, q: Query, key: string)
    ensures Logged(EnterQuery(c, s, log, q), key) == Logged(log, key) + Added(c, s, q, key)
  {
    LoggedSnoc(log, Admission(Key(q.identifier, q.endpoint), q.now), key);
  }

  /** What other endpoints' calls enter is nothing to this one. */
  lemma OthersEnterNothing(c: Config, s: State, log: seq<Admission>, q: Query, k: string)
    requires ':' !in q.endpoint && EndpointOf(k) != q.endpoint
    ensures Logged(EnterQuery(c, s, log, q), k) == Logged(log, k)
  {
    EndpointOfKey(q.identifier, q.endpoint);
    EnterQueryAdds(c, s, log, q, k);
  }

  /**
   Over every run, pruning and cleanup are invisible to an endpoint with a
   narrow window: the limiter answers its calls as the full log does.
   */
  lemma {:induction false} LimiterFollowsLog(c: Config, s: State, log: seq<Admission>, qs: seq<Query>, since: real,
                                             endpoint: string)
    requires Faithful(c, s, log, since, endpoint) && Narrow(c, s, endpoint) && Orderly(qs, since)
    ensures Answers(c, s, qs, endpoint) == Dictated(LimitsOf(c, s, endpoint), log, qs, endpoint)
    decreases |qs|
  {
    if qs != [] {
      var q := qs[0];
      var t := Serve(c, s, q);
      ServeKeepsFaith(c, s, log, q, since, endpoint);
      if CallsOn(q, endpoint) {
        AllowIsExact(c, s, log, q.identifier, endpoint, since, q.now);
        LimiterFollowsLog(c, t, EnterQuery(c, s, log, q), qs[1..], q.now, endpoint);
      } else {
        forall k | EndpointOf(k) == endpoint ensures FaithfulAt(c, t, log, q.now, k) {
          if q.endpoint != endpoint { OthersEnterNothing(c, s, log, q, k); }
          assert FaithfulAt(c, t, EnterQuery(c, s, log, q), q.now, k);
        }
        LimiterFollowsLog(c, t, log, qs[1..], q.now, endpoint);
      }
    }
  }

  /** How many of `times` lie in `(from, to]`. */
  function Between(times: seq<real>, from: real, to: real): nat
    decreases |times|
  {
    if times == [] then 0
    else Between(times[..|times| - 1], from, to)
         + if from < times[|times| - 1] <= to then 1 else 0
  }

  /** How many lie in the window that ends at `to`. */
  function InWindow(times: seq<real>, limits: Limits, to: real): nat {
    Between(times, to - limits.window as real, to)
  }

  /** Every window of a key holds at most its limit. */
  ghost predicate NeverExceeds(times: seq<real>, limits: Limits) {
    forall to: real :: InWindow(times, limits, to) <= Bound(limits)
  }

  function Bound(limits: Limits): nat {
    if limits.maxRequests > 0 then limits.maxRequests else 0
  }

  lemma {:induction false} BetweenAtMostAfter(times: seq<real>, from: real, to: real)
    ensures Between(times, from, to) <= After(times, from)
    decreases |times|
  {
    if times != [] { BetweenAtMostAfter(times[..|times| - 1], from, to); }
  }

  lemma AdmittingKeepsBound(times: seq<real>, limits: Limits, now: real)
    requires NeverExceeds(times, limits) && UpTo(times, now)
    requires After(times, now - limits.window as real) < limits.maxRequests
    ensures NeverExceeds(times + [now], limits)
  {
    forall to: real ensures InWindow(times + [now], limits, to) <= Bound(limits) {
      var from := to - limits.window as real;
      assert (times + [now])[..|times|] == times;
      assert InWindow(times, limits, to) <= Bound(limits);
      if from < now <= to {
        BetweenAtMostAfter(times, from, to);
        AfterIsAntitone(times, now - limits.window as real, from);
      }
    }
  }

  lemma EnteringKeepsBound(c: Config, s: State, log: seq<Admission>, q: Query, since: real, key: string)
    requires Faithful(c, s, log, since, EndpointOf(key)) && Narrow(c, s, EndpointOf(key))
    requires since <= q.now && ':' !in q.endpoint && UpTo(Logged(log, key), since)
    requires NeverExceeds(Logged(log, key), LimitsOf(c, s, EndpointOf(key)))
    ensures NeverExceeds(Logged(EnterQuery(c, s, log, q), key), LimitsOf(c, s, EndpointOf(key)))
    ensures UpTo(Logged(EnterQuery(c, s, log, q), key), q.now)
  {
    var all := Logged(log, key);
    EnterQueryAdds(c, s, log, q, key);
    UpToSnoc(all, since, q.now);
    assert all + [] == all;
    if Added(c, s, q, key) != [] { AddingKeepsBound(c, s, log, q, since, key); }
  }

  lemma AddingKeepsBound(c: Config, s: State, log: seq<Admission>, q: Query, since: real, key: string)
    requires Faithful(c, s, log, since, EndpointOf(key)) && Narrow(c, s, EndpointOf(key))
    requires since <= q.now && ':' !in q.endpoint && UpTo(Logged(log, key), since)
    requires NeverExceeds(Logged(log, key), LimitsOf(c, s, EndpointOf(key)))
    requires Added(c, s, q, key) != []
    ensures NeverExceeds(Logged(log, key) + [q.now], LimitsOf(c, s, EndpointOf(key)))
  {
    AddedIsWithin(c, s, log, q, since, key);
    UpToSnoc(Logged(log, key), since, q.now);
    AdmittingKeepsBound(Logged(log, key), LimitsOf(c, s, EndpointOf(key)), q.now);
  }

  lemma AddedIsWithin(c: Config, s: State, log: seq<Admission>, q: Query, since: real, key: string)
    requires Faithful(c, s, log, since, EndpointOf(key)) && Narrow(c, s, EndpointOf(key))
    requires since <= q.now && ':' !in q.endpoint && Added(c, s, q, key) != []
    ensures Within(log, key, LimitsOf(c, s, EndpointOf(key)), q.now)
  {
    EndpointOfKey(q.identifier, q.endpoint);
    AllowIsExact(c, s, log, q.identifier, q.endpoint, since, q.now);
  }

  /** No window of a key's length ever holds more allowed calls than its limit. */
  lemma {:induction false} NoWindowExceeds(c: Config, s: State, log: seq<Admission>, qs: seq<Query>, since: real,
                                           key: string)
    requires Faithful(c, s, log, since, EndpointOf(key)) && Narrow(c, s, EndpointOf(key)) && Orderly(qs, since)
    requires UpTo(Logged(log, key), since) && NeverExceeds(Logged(log, key), LimitsOf(c, s, EndpointOf(key)))
    ensures NeverExceeds(Logged(Entered(c, s, log, qs), key), LimitsOf(c, s, EndpointOf(key)))
    decreases |qs|
  {
    if qs != [] {
      EnteringKeepsBound(c, s, log, qs[0], since, key);
      ServeKeepsFaith(c, s, log, qs[0], since, EndpointOf(key));
      NoWindowExceeds(c, Serve(c, s, qs[0]), EnterQuery(c, s, log, qs[0]), qs[1..], qs[0].now, key);
    }
  }

  // ----- reset time -----

  /** No key holds more times than its limit. */
  predicate Small(c: Config, s: State, key: string) {
    |TimesAt(s, key)| <= Bound(LimitsOf(c, s, EndpointOf(key)))
  }

  lemma ServeKeepsSmall(c: Config, s: State, q: Query, key: string)
    requires Small(c, s, key) && ':' !in q.endpoint
    ensures Small(c, Serve(c, s, q), key)
  {
    if Key(q.identifier, q.endpoint) == key {
      EndpointOfKey(q.identifier, q.endpoint);
      var t := if q.IsAllowed? then Cleanup(c, s, q.now) else s;
      var n := PruneIs(TimesAt(t, key), q.now - LimitsOf(c, s, q.endpoint).window as real);
      assert TimesAt(t, key) == TimesAt(s, key) || TimesAt(t, key) == [];
    } else {
      assert TimesAt(Serve(c, s, q), key) == TimesAt(s, key) || TimesAt(Serve(c, s, q), key) == [];
    }
  }

  /** Every run keeps an endpoint with a narrow window as the log says. */
  lemma {:induction false} RunKeepsFaith(c: Config, s: State, log: seq<Admission>, qs: seq<Query>, since: real,
                                         endpoint: string)
    requires Faithful(c, s, log, since, endpoint) && Narrow(c, s, endpoint) && Orderly(qs, since)
    ensures since <= Latest(qs, since)
    ensures Faithful(c, ServeAll(c, s, qs), Entered(c, s, log, qs), Latest(qs, since), endpoint)
    decreases |qs|
  {
    if qs != [] {
      ServeKeepsFaith(c, s, log, qs[0], since, endpoint);
      RunKeepsFaith(c, Serve(c, s, qs[0]), EnterQuery(c, s, log, qs[0]), qs[1..], qs[0].now, endpoint);
    }
  }

  /** And no more times at any key than its limit. */
  lemma {:induction false} RunKeepsSmall(c: Config, s: State, qs: seq<Query>, since: real, key: string)
    requires Orderly(qs, since) && Small(c, s, key)
    ensures Small(c, ServeAll(c, s, qs), key)
    decreases |qs|
  {
    if qs != [] {
      ServeKeepsSmall(c, s, qs[0], key);
      RunKeepsSmall(c, Serve(c, s, qs[0]), qs[1..], qs[0].now, key);
    }
  }

  /** What a refusal leaves: exactly as many times as the limit allows, in order, for a positive limit. */
  lemma AfterRefusal(c: Config, s: State, identifier: string, endpoint: string, refused: real)
    requires ':' !in endpoint
    requires Sorted(TimesAt(s, Key(identifier, endpoint))) && Small(c, s, Key(identifier, endpoint))
    requires !Allow(c, s, identifier, endpoint, refused).1
    ensures
      var t, key := Allow(c, s, identifier, endpoint, refused).0, Key(identifier, endpoint);
      Sorted(TimesAt(t, key)) && |TimesAt(t, key)| == Bound(LimitsOf(c, s, endpoint))
  {
    EndpointOfKey(identifier, endpoint);
    var key, s' := Key(identifier, endpoint), Cleanup(c, s, refused);
    var n := PruneIs(TimesAt(s', key), refused - LimitsOf(c, s, endpoint).window as real);
    assert TimesAt(Allow(c, s, identifier, endpoint, refused).0, key) == TimesAt(s', key)[n..];
  }

  /**
   After a refusal, with no calls in between, a later call is allowed exactly
   when its time has reached the reset time; a limit that is not positive
   never allows a call, and its reset time is only the time of asking.
   */
  lemma ResetAfterRefusal(c: Config, s: State, identifier: string, endpoint: string,
                          refused: real, asked: real, now: real)
    requires Narrow(c, s, endpoint) && refused <= now && ':' !in endpoint
    requires Sorted(TimesAt(s, Key(identifier, endpoint))) && Small(c, s, Key(identifier, endpoint))
    requires !Allow(c, s, identifier, endpoint, refused).1
    ensures
      var t := Allow(c, s, identifier, endpoint, refused).0;
      var u := ResetTime(c, t, identifier, endpoint, asked);
      if LimitsOf(c, s, endpoint).maxRequests > 0 then Allow(c, u.0, identifier, endpoint, now).1 <==> now >= u.1
      else !Allow(c, u.0, identifier, endpoint, now).1 && u.1 == asked
  {
    AfterRefusal(c, s, identifier, endpoint, refused);
    var limits, key := LimitsOf(c, s, endpoint), Key(identifier, endpoint);
    var t := Allow(c, s, identifier, endpoint, refused).0;
    var times := TimesAt(t, key);
    var u := ResetTime(c, t, identifier, endpoint, asked).0;
    var kept := TimesAt(Cleanup(c, u, now), key);
    assert TimesAt(u, key) == times;
    if times != [] {
      assert kept == times || (kept == [] && times[|times| - 1] < now - c.windowSeconds as real);
      PruneDropsFirst(times, now - limits.window as real);
    }
  }

  lemma PruneDropsFirst(times: seq<real>, cutoff: real)
    requires Sorted(times) && times != []
    ensures times[0] <= cutoff ==> |Prune(times, cutoff)| < |times|
    ensures times[0] > cutoff ==> Prune(times, cutoff) == times
    ensures times[|times| - 1] < cutoff ==> times[0] <= cutoff
  {
    var n := PruneIs(times[1..], cutoff);
  }

  /** What a reset time, asked for after a refusal, promises of a later call. */
  predicate PromiseKept(c: Config, endpoints: map<string, Limits>, started: real, qs: seq<Query>,
                        identifier: string, endpoint: string, refused: real, asked: real, now: real)
  {
    var s := ServeAll(c, State(map[], endpoints, started), qs);
    var t := Allow(c, s, identifier, endpoint, refused).0;
    var u := ResetTime(c, t, identifier, endpoint, asked);
    if LimitsOf(c, s, endpoint).maxRequests > 0 then Allow(c, u.0, identifier, endpoint, now).1 <==> now >= u.1
    else !Allow(c, u.0, identifier, endpoint, now).1 && u.1 == asked
  }

  /** The same at the end of every run of a fresh limiter. */
  lemma ResetTimeIsExact(c: Config, endpoints: map<string, Limits>, started: real, qs: seq<Query>,
                         identifier: string, endpoint: string, refused: real, asked: real, now: real)
    requires Orderly(qs, started) && Latest(qs, started) <= refused <= now && ':' !in endpoint
    requires Narrow(c, State(map[], endpoints, started), endpoint)
    requires !Allow(c, ServeAll(c, State(map[], endpoints, started), qs), identifier, endpoint, refused).1
    ensures PromiseKept(c, endpoints, started, qs, identifier, endpoint, refused, asked, now)
  {
    var s0, key := State(map[], endpoints, started), Key(identifier, endpoint);
    EndpointOfKey(identifier, endpoint);
    FreshIsFaithful(c, endpoints, started, endpoint);
    RunKeepsFaith(c, s0, [], qs, started, endpoint);
    RunKeepsSmall(c, s0, qs, started, key);
    ServeAllKeepsLimits(c, s0, qs);
    var s, log := ServeAll(c, s0, qs), Entered(c, s0, [], qs);
    assert FaithfulAt(c, s, log, Latest(qs, started), key);
    KeptIsSorted(TimesAt(s, key), Logged(log, key), Latest(qs, started), Window(c, s, key));
    ResetAfterRefusal(c, s, identifier, endpoint, refused, asked, now);
  }

  lemma FreshIsFaithful(c: Config, endpoints: map<string, Limits>, started: real, endpoint: string)
    ensures Faithful(c, State(map[], endpoints, started), [], started, endpoint)
  {
  }

  lemma KeptIsSorted(kept: seq<real>, all: seq<real>, now: real, window: real)
    requires Keeps(kept, all, now, window)
    ensures Sorted(kept)
  {
  }

  // ----- in the numbers given -----

  /**
   After a run of a fresh limiter, a key is held to `m` calls in `w` seconds:
   the decision, what remains, every window of the log, and the reset time after
   a refusal, which is when the m-th last call of the log leaves the window.
   */
  ghost predicate HeldTo(c: Config, endpoints: map<string, Limits>, started: real, qs: seq<Query>,
                         identifier: string, endpoint: string, now: real, m: int, w: int)
  {
    var s, key := ServeAll(c, State(map[], endpoints, started), qs), Key(identifier, endpoint);
    var times := Logged(Entered(c, State(map[], endpoints, started), [], qs), key);
    NeverExceeds(times, Limits(m, w)) && AnswersAs(c, s, times, identifier, endpoint, now, m, w)
  }

  ghost predicate AnswersAs(c: Config, s: State, times: seq<real>, identifier: string, endpoint: string, now: real,
                            m: int, w: int)
  {
    var (t, allowed) := Allow(c, s, identifier, endpoint, now);
    && (allowed <==> After(times, now - w as real) < m)
    && Remaining(c, s, identifier, endpoint, now).1 == LeftOver(m, times, now - w as real)
    && (!allowed && m > 0 ==> ResetsAs(c, t, times, identifier, endpoint, m, w))
  }

  /** The reset time is when the m-th last call of the log leaves the window. */
  ghost predicate ResetsAs(c: Config, t: State, times: seq<real>, identifier: string, endpoint: string,
                           m: nat, w: int)
  {
    m > 0 && m <= |times|
    && forall asked :: ResetTime(c, t, identifier, endpoint, asked).1 == times[|times| - m] + w as real
  }

  /** What `m` calls leave when those later than `since` are taken off. */
  function LeftOver(m: int, times: seq<real>, since: real): nat {
    if m > After(times, since) then m - After(times, since) else 0
  }

  lemma NarrowIsHeld(c: Config, endpoints: map<string, Limits>, started: real, qs: seq<Query>,
                     identifier: string, endpoint: string, now: real)
    requires Orderly(qs, started) && Latest(qs, started) <= now && ':' !in endpoint
    requires Narrow(c, State(map[], endpoints, started), endpoint)
    ensures
      var limits := LimitsOf(c, State(map[], endpoints, started), endpoint);
      HeldTo(c, endpoints, started, qs, identifier, endpoint, now, limits.maxRequests, limits.window)
  {
    var s0, key := State(map[], endpoints, started), Key(identifier, endpoint);
    EndpointOfKey(identifier, endpoint);
    FreshIsFaithful(c, endpoints, started, endpoint);
    RunKeepsFaith(c, s0, [], qs, started, endpoint);
    RunKeepsSmall(c, s0, qs, started, key);
    ServeAllKeepsLimits(c, s0, qs);
    NoWindowExceeds(c, s0, [], qs, started, key);
    AnsweredAs(c, ServeAll(c, s0, qs), Entered(c, s0, [], qs), identifier, endpoint, Latest(qs, started), now);
  }

  lemma AnsweredAs(c: Config, s: State, log: seq<Admission>, identifier: string, endpoint: string,
                   since: real, now: real)
    requires ':' !in endpoint && Narrow(c, s, endpoint) && since <= now
    requires Faithful(c, s, log, since, endpoint) && Small(c, s, Key(identifier, endpoint))
    ensures
      var limits := LimitsOf(c, s, endpoint);
      AnswersAs(c, s, Logged(log, Key(identifier, endpoint)), identifier, endpoint, now,
                limits.maxRequests, limits.window)
  {
    AllowIsExact(c, s, log, identifier, endpoint, since, now);
    RemainsAs(c, s, log, identifier, endpoint, since, now);
    if RefusedThough(c, s, identifier, endpoint, now) {
      RefusedReset(c, s, log, identifier, endpoint, since, now);
    }
  }

  /** A call is refused although the limit is positive. */
  predicate RefusedThough(c: Config, s: State, identifier: string, endpoint: string, now: real) {
    !Allow(c, s, identifier, endpoint, now).1 && LimitsOf(c, s, endpoint).maxRequests > 0
  }

  lemma RemainsAs(c: Config, s: State, log: seq<Admission>, identifier: string, endpoint: string,
                  since: real, now: real)
    requires ':' !in endpoint && since <= now && Faithful(c, s, log, since, endpoint)
    ensures
      var limits := LimitsOf(c, s, endpoint);
      Remaining(c, s, identifier, endpoint, now).1
      == LeftOver(limits.maxRequests, Logged(log, Key(identifier, endpoint)), now - limits.window as real)
  {
    RemainingIsExact(c, s, log, identifier, endpoint, since, now);
  }

  /** The reset time after a refusal, from the log. */
  lemma RefusedReset(c: Config, s: State, log: seq<Admission>, identifier: string, endpoint: string,
                     since: real, now: real)
    requires ':' !in endpoint && Narrow(c, s, endpoint) && since <= now && LimitsOf(c, s, endpoint).maxRequests > 0
    requires Faithful(c, s, log, since, endpoint) && Small(c, s, Key(identifier, endpoint))
    requires !Allow(c, s, identifier, endpoint, now).1
    ensures
      var times, limits := Logged(log, Key(identifier, endpoint)), LimitsOf(c, s, endpoint);
      ResetsAs(c, Allow(c, s, identifier, endpoint, now).0, times, identifier, endpoint,
               limits.maxRequests, limits.window)
  {
    var key := Key(identifier, endpoint);
    var t := Allow(c, s, identifier, endpoint, now).0;
    EndpointOfKey(identifier, endpoint);
    assert FaithfulAt(c, s, log, since, key);
    KeptIsSorted(TimesAt(s, key), Logged(log, key), since, Window(c, s, key));
    AfterRefusal(c, s, identifier, endpoint, now);
    ServeKeepsFaith(c, s, log, IsAllowed(identifier, endpoint, now), since, endpoint);
    assert FaithfulAt(c, t, log, now, key);
    assert TimesAt(t, key) == Logged(log, key)[|Logged(log, key)| - |TimesAt(t, key)|..];
  }

  /** An endpoint without limits of its own is held to those of the configuration, over every run. */
  lemma DefaultsHold(c: Config, endpoints: map<string, Limits>, started: real, qs: seq<Query>,
                     identifier: string, endpoint: string, now: real)
    requires Orderly(qs, started) && Latest(qs, started) <= now && ':' !in endpoint && endpoint !in endpoints
    ensures HeldTo(c, endpoints, started, qs, identifier, endpoint, now, c.maxRequests, c.windowSeconds)
    ensures Answers(c, State(map[], endpoints, started), qs, endpoint)
         == Dictated(Limits(c.maxRequests, c.windowSeconds), [], qs, endpoint)
  {
    NarrowIsHeld(c, endpoints, started, qs, identifier, endpoint, now);
    FreshIsFaithful(c, endpoints, started, endpoint);
    LimiterFollowsLog(c, State(map[], endpoints, started), [], qs, started, endpoint);
  }

  /** One with limits of its own, and a narrow window, is held to those. */
  lemma OwnLimitsHold(c: Config, endpoints: map<string, Limits>, started: real, qs: seq<Query>,
                      identifier: string, endpoint: string, now: real, m: int, w: int)
    requires Orderly(qs, started) && Latest(qs, started) <= now && ':' !in endpoint
    requires endpoint in endpoints && endpoints[endpoint] == Limits(m, w) && w <= c.windowSeconds
    ensures HeldTo(c, endpoints, started, qs, identifier, endpoint, now, m, w)
    ensures Answers(c, State(map[], endpoints, started), qs, endpoint)
         == Dictated(Limits(m, w), [], qs, endpoint)
  {
    NarrowIsHeld(c, endpoints, started, qs, identifier, endpoint, now);
    FreshIsFaithful(c, endpoints, started, endpoint);
    LimiterFollowsLog(c, State(map[], endpoints, started), [], qs, started, endpoint);
  }

  // ----- bursts -----

  function Many(t: real, n: nat): (r: seq<real>)
    ensures |r| == n && forall i :: 0 <= i < n ==> r[i] == t
  {
    seq(n, _ => t)
  }

  /** `n` calls at one time. */
  function Burst(identifier: string, endpoint: string, t: real, n: nat): seq<Query> {
    if n == 0 then [] else [IsAllowed(identifier, endpoint, t)] + Burst(identifier, endpoint, t, n - 1)
  }

  /** What a run adds to the log of one key. */
  function AddedIn(c: Config, s: State, qs: seq<Query>, key: string): seq<real>
    decreases |qs|
  {
    if qs == [] then [] else Added(c, s, qs[0], key) + AddedIn(c, Serve(c, s, qs[0]), qs[1..], key)
  }

  lemma Regroup(a: seq<real>, b: seq<real>, d: seq<real>)
    ensures a + b + d == a + (b + d)
  {
  }

  lemma {:induction false} EnteredAdds(c: Config, s: State, log: seq<Admission>, qs: seq<Query>, key: string)
    ensures Logged(Entered(c, s, log, qs), key) == Logged(log, key) + AddedIn(c, s, qs, key)
    decreases |qs|
  {
    if qs == [] {
      assert Logged(log, key) + [] == Logged(log, key);
    } else {
      var t := Serve(c, s, qs[0]);
      EnterQueryAdds(c, s, log, qs[0], key);
      EnteredAdds(c, t, EnterQuery(c, s, log, qs[0]), qs[1..], key);
      Regroup(Logged(log, key), Added(c, s, qs[0], key), AddedIn(c, t, qs[1..], key));
    }
  }

  /** A run from `s` ends in `t`, and adds `times` to the log of `key`. */
  predicate Leads(c: Config, s: State, qs: seq<Query>, key: string, t: State, times: seq<real>) {
    ServeAll(c, s, qs) == t && AddedIn(c, s, qs, key) == times
  }

  lemma {:induction false} LeadsOn(c: Config, s: State, qs: seq<Query>, key: string, t: State, times: seq<real>,
                                   rs: seq<Query>, u: State, more: seq<real>)
    requires Leads(c, s, qs, key, t, times) && Leads(c, t, rs, key, u, more)
    ensures Leads(c, s, qs + rs, key, u, times + more)
    decreases |qs|
  {
    if qs == [] {
      assert qs + rs == rs && [] + more == more;
    } else {
      assert (qs + rs)[0] == qs[0] && (qs + rs)[1..] == qs[1..] + rs;
      var first, s1 := Added(c, s, qs[0], key), Serve(c, s, qs[0]);
      LeadsOn(c, s1, qs[1..], key, t, AddedIn(c, s1, qs[1..], key), rs, u, more);
      Regroup(first, AddedIn(c, s1, qs[1..], key), more);
    }
  }

  lemma OneLeads(c: Config, s: State, q: Query, key: string)
    ensures Leads(c, s, [q], key, Serve(c, s, q), Added(c, s, q, key))
  {
    assert [q][1..] == [];
    assert Added(c, s, q, key) + [] == Added(c, s, q, key);
  }

  lemma OneThenRest(c: Config, s: State, q: Query, rs: seq<Query>, key: string, u: State, more: seq<real>)
    requires Leads(c, Serve(c, s, q), rs, key, u, more)
    ensures Leads(c, s, [q] + rs, key, u, Added(c, s, q, key) + more)
  {
    assert ([q] + rs)[0] == q && ([q] + rs)[1..] == rs;
  }

  /** No cleanup is due, and what the key holds stays in the window. */
  predicate Quiet(c: Config, s: State, identifier: string, endpoint: string, t: real, pre: seq<real>) {
    && t - s.lastCleanup < c.cleanupInterval as real
    && TimesAt(s, Key(identifier, endpoint)) == pre
    && LimitsOf(c, s, endpoint).window > 0
    && (pre != [] ==> pre[0] > t - LimitsOf(c, s, endpoint).window as real)
  }

  lemma OneIsAdmitted(c: Config, s: State, identifier: string, endpoint: string, t: real, pre: seq<real>)
    requires Quiet(c, s, identifier, endpoint, t, pre) && |pre| < LimitsOf(c, s, endpoint).maxRequests
    ensures
      var q, key := IsAllowed(identifier, endpoint, t), Key(identifier, endpoint);
      && Serve(c, s, q) == With(s, key, pre + [t]) && Added(c, s, q, key) == [t]
      && Quiet(c, Serve(c, s, q), identifier, endpoint, t, pre + [t])
  {
    assert Prune(pre, t - LimitsOf(c, s, endpoint).window as real) == pre;
    assert Cleanup(c, s, t) == s;
  }

  /** Where a burst leads that is allowed whole. */
  function Filled(s: State, identifier: string, endpoint: string, t: real, pre: seq<real>, n: nat): State {
    if n == 0 then s else With(s, Key(identifier, endpoint), pre + Many(t, n))
  }

  /** As many calls at one time as there is room for are all allowed. */
  lemma {:induction false} BurstIsAdmitted(c: Config, s: State, identifier: string, endpoint: string,
                                           t: real, pre: seq<real>, n: nat)
    requires Quiet(c, s, identifier, endpoint, t, pre) && |pre| + n <= LimitsOf(c, s, endpoint).maxRequests
    ensures Leads(c, s, Burst(identifier, endpoint, t, n), Key(identifier, endpoint),
                  Filled(s, identifier, endpoint, t, pre, n), Many(t, n))
    decreases n
  {
    var key := Key(identifier, endpoint);
    if n == 0 {
      assert Many(t, 0) == [];
    } else {
      var q := IsAllowed(identifier, endpoint, t);
      OneIsAdmitted(c, s, identifier, endpoint, t, pre);
      BurstIsAdmitted(c, Serve(c, s, q), identifier, endpoint, t, pre + [t], n - 1);
      OneThenRest(c, s, q, Burst(identifier, endpoint, t, n - 1), key,
                  Filled(Serve(c, s, q), identifier, endpoint, t, pre + [t], n - 1), Many(t, n - 1));
      FilledOneMore(s, identifier, endpoint, t, pre, n);
    }
  }

  lemma FilledOneMore(s: State, identifier: string, endpoint: string, t: real, pre: seq<real>, n: nat)
    requires n > 0
    ensures Filled(With(s, Key(identifier, endpoint), pre + [t]), identifier, endpoint, t, pre + [t], n - 1)
         == Filled(s, identifier, endpoint, t, pre, n)
    ensures [t] + Many(t, n - 1) == Many(t, n)
  {
    var key := Key(identifier, endpoint);
    assert [t] + Many(t, n - 1) == Many(t, n);
    assert pre + [t] + Many(t, n - 1) == pre + Many(t, n);
    WithTwice(s, key, pre + [t], pre + Many(t, n));
    if n == 1 { assert pre + [t] == pre + Many(t, n); }
  }

  lemma WithTwice(s: State, key: string, times: seq<real>, more: seq<real>)
    ensures With(With(s, key, times), key, more) == With(s, key, more)
  {
    assert s.requests[key := times][key := more] == s.requests[key := more];
  }

  lemma {:induction false} BurstIsOrderly(identifier: string, endpoint: string, t: real, n: nat, since: real)
    requires since <= t && ':' !in endpoint
    ensures Orderly(Burst(identifier, endpoint, t, n), since)
    ensures Latest(Burst(identifier, endpoint, t, n), since) == if n == 0 then since else t
    decreases n
  {
    if n > 0 {
      BurstIsOrderly(identifier, endpoint, t, n - 1, t);
      assert Burst(identifier, endpoint, t, n)[1..] == Burst(identifier, endpoint, t, n - 1);
    }
  }

  /** In a fresh limiter, a log that starts empty is what a run leads to. */
  lemma FreshLog(c: Config, s: State, qs: seq<Query>, key: string, t: State, times: seq<real>)
    requires Leads(c, s, qs, key, t, times)
    ensures Logged(Entered(c, s, [], qs), key) == times
  {
    EnteredAdds(c, s, [], qs, key);
    assert [] + times == times;
  }

  // ----- exactly which endpoints are limited exactly -----

  /** At the end of one run of a fresh limiter, the decision is the one the log of all allowed calls dictates. */
  predicate ExactAfter(c: Config, endpoints: map<string, Limits>, started: real, qs: seq<Query>,
                       identifier: string, endpoint: string, now: real)
  {
    var s0 := State(map[], endpoints, started);
    Allow(c, ServeAll(c, s0, qs), identifier, endpoint, now).1
    <==> Within(Entered(c, s0, [], qs), Key(identifier, endpoint), LimitsOf(c, s0, endpoint), now)
  }

  /** And so after every run with a clock that does not go back. */
  ghost predicate AlwaysExact(c: Config, endpoints: map<string, Limits>, endpoint: string) {
    forall started, qs, identifier, now :: Orderly(qs, started) && Latest(qs, started) <= now ==>
      ExactAfter(c, endpoints, started, qs, identifier, endpoint, now)
  }

  lemma NarrowIsExact(c: Config, endpoints: map<string, Limits>, started: real, qs: seq<Query>,
                      identifier: string, endpoint: string, now: real)
    requires Orderly(qs, started) && Latest(qs, started) <= now && ':' !in endpoint
    requires Narrow(c, State(map[], endpoints, started), endpoint)
    ensures ExactAfter(c, endpoints, started, qs, identifier, endpoint, now)
  {
    var s0, key := State(map[], endpoints, started), Key(identifier, endpoint);
    EndpointOfKey(identifier, endpoint);
    FreshIsFaithful(c, endpoints, started, endpoint);
    RunKeepsFaith(c, s0, [], qs, started, endpoint);
    ServeAllKeepsLimits(c, s0, qs);
    AllowIsExact(c, ServeAll(c, s0, qs), Entered(c, s0, [], qs), identifier, endpoint, Latest(qs, started), now);
  }

  lemma {:induction false} ServeAllKeepsLimits(c: Config, s: State, qs: seq<Query>)
    ensures ServeAll(c, s, qs).endpoints == s.endpoints
    decreases |qs|
  {
    if qs != [] { ServeAllKeepsLimits(c, Serve(c, s, qs[0]), qs[1..]); }
  }

  /**
   With a window longer than the global one, cleanup forgets live calls: a
   fresh limiter whose limit is used up at time 0 allows a call well inside the
   window.
   */
  lemma WideWindowForgets(c: Config, endpoints: map<string, Limits>, identifier: string, endpoint: string)
    returns (started: real, qs: seq<Query>, now: real)
    requires LimitsOf(c, State(map[], endpoints, 0.0), endpoint).window > c.windowSeconds && ':' !in endpoint
    requires LimitsOf(c, State(map[], endpoints, 0.0), endpoint).maxRequests > 0
    ensures Orderly(qs, started) && Latest(qs, started) <= now && Plainly(qs)
    ensures
      var s0, key := State(map[], endpoints, started), Key(identifier, endpoint);
      && Allow(c, ServeAll(c, s0, qs), identifier, endpoint, now).1
      && !Within(Entered(c, s0, [], qs), key, LimitsOf(c, s0, endpoint), now)
  {
    var limits, key := LimitsOf(c, State(map[], endpoints, 0.0), endpoint), Key(identifier, endpoint);
    var m := limits.maxRequests;
    now := c.windowSeconds as real + 0.5;
    started := if now < c.cleanupInterval as real then now - c.cleanupInterval as real else 0.0;
    qs := Burst(identifier, endpoint, 0.0, m);
    BurstIsOrderly(identifier, endpoint, 0.0, m, started);
    BurstIsPlain(identifier, endpoint, 0.0, m);
    UsedUp(c, endpoints, started, identifier, endpoint, now);
  }

  /** Used up at time 0, and cleaned up once that has left the global window but not the endpoint's. */
  lemma UsedUp(c: Config, endpoints: map<string, Limits>, started: real, identifier: string, endpoint: string,
               now: real)
    requires LimitsOf(c, State(map[], endpoints, started), endpoint).maxRequests > 0
    requires c.windowSeconds as real < now < LimitsOf(c, State(map[], endpoints, started), endpoint).window as real
    requires 0.0 - started < c.cleanupInterval as real <= now - started
    ensures
      var s0, key := State(map[], endpoints, started), Key(identifier, endpoint);
      var limits := LimitsOf(c, s0, endpoint);
      var qs := Burst(identifier, endpoint, 0.0, limits.maxRequests);
      && Allow(c, ServeAll(c, s0, qs), identifier, endpoint, now).1
      && !Within(Entered(c, s0, [], qs), key, limits, now)
  {
    var s0, key := State(map[], endpoints, started), Key(identifier, endpoint);
    var limits := LimitsOf(c, s0, endpoint);
    var m := limits.maxRequests;
    var qs, s, times := Burst(identifier, endpoint, 0.0, m), Filled(s0, identifier, endpoint, 0.0, [], m), Many(0.0, m);
    assert [] + times == times;
    BurstIsAdmitted(c, s0, identifier, endpoint, 0.0, [], m);
    FreshLog(c, s0, qs, key, s, times);
    StaleIsAllowed(c, s, identifier, endpoint, now);
    FullIsNotWithin(Entered(c, s0, [], qs), key, limits, now, times);
  }

  /** Every reset time after a refusal is kept to, whatever the run before, with a clock that does not go back. */
  ghost predicate AlwaysKept(c: Config, endpoints: map<string, Limits>, endpoint: string) {
    forall started, qs, identifier, refused, asked, now ::
      Orderly(qs, started) && Latest(qs, started) <= refused <= now
      && !Allow(c, ServeAll(c, State(map[], endpoints, started), qs), identifier, endpoint, refused).1 ==>
        PromiseKept(c, endpoints, started, qs, identifier, endpoint, refused, asked, now)
  }

  /** With a limit that is not positive, nothing is ever kept of a key, and nothing allowed. */
  lemma NeverAllowed(c: Config, endpoints: map<string, Limits>, started: real, qs: seq<Query>,
                     identifier: string, endpoint: string, refused: real, asked: real, now: real)
    requires Orderly(qs, started) && ':' !in endpoint
    requires LimitsOf(c, State(map[], endpoints, started), endpoint).maxRequests <= 0
    ensures PromiseKept(c, endpoints, started, qs, identifier, endpoint, refused, asked, now)
  {
    var s0, key := State(map[], endpoints, started), Key(identifier, endpoint);
    var s := ServeAll(c, s0, qs);
    EndpointOfKey(identifier, endpoint);
    RunKeepsSmall(c, s0, qs, started, key);
    ServeAllKeepsLimits(c, s0, qs);
    var t := Allow(c, s, identifier, endpoint, refused).0;
    assert TimesAt(Cleanup(c, s, refused), key) == [];
    assert TimesAt(t, key) == [] && t.endpoints == s.endpoints;
  }

  /**
   With a wider window the reset time comes too late: a limit used up at time 0
   is refused a call at once, told to wait a whole window, and allowed one
   before that, as soon as a cleanup has forgotten it.
   */
  lemma AllowedBeforeReset(c: Config, endpoints: map<string, Limits>, identifier: string, endpoint: string, asked: real)
    returns (started: real, qs: seq<Query>, now: real)
    requires LimitsOf(c, State(map[], endpoints, 0.0), endpoint).window > c.windowSeconds && ':' !in endpoint
    requires LimitsOf(c, State(map[], endpoints, 0.0), endpoint).maxRequests > 0
    ensures Orderly(qs, started) && Latest(qs, started) <= 0.0 <= now
    ensures
      var limits := LimitsOf(c, State(map[], endpoints, 0.0), endpoint);
      var s := ServeAll(c, State(map[], endpoints, started), qs);
      var t := Allow(c, s, identifier, endpoint, 0.0);
      var u := ResetTime(c, t.0, identifier, endpoint, asked);
      && !t.1 && u.1 == limits.window as real && now < u.1 && Allow(c, u.0, identifier, endpoint, now).1
  {
    var limits, key := LimitsOf(c, State(map[], endpoints, 0.0), endpoint), Key(identifier, endpoint);
    var m := limits.maxRequests;
    now := c.windowSeconds as real + 0.5;
    started := if now < c.cleanupInterval as real then now - c.cleanupInterval as real else 0.0;
    qs := Burst(identifier, endpoint, 0.0, m);
    BurstIsOrderly(identifier, endpoint, 0.0, m, started);
    var s0 := State(map[], endpoints, started);
    var s := Filled(s0, identifier, endpoint, 0.0, [], m);
    assert [] + Many(0.0, m) == Many(0.0, m);
    BurstIsAdmitted(c, s0, identifier, endpoint, 0.0, [], m);
    FullStays(c, s, identifier, endpoint, 0.0, Many(0.0, m));
    StaleIsAllowed(c, ResetTime(c, s, identifier, endpoint, asked).0, identifier, endpoint, now);
  }

  lemma FullStays(c: Config, s: State, identifier: string, endpoint: string, now: real, times: seq<real>)
    requires Quiet(c, s, identifier, endpoint, now, times) && Key(identifier, endpoint) in s.requests
    requires times != [] && |times| >= LimitsOf(c, s, endpoint).maxRequests
    ensures Allow(c, s, identifier, endpoint, now) == (s, false)
  {
    assert Cleanup(c, s, now) == s;
    assert Prune(times, now - LimitsOf(c, s, endpoint).window as real) == times;
    assert s.requests[Key(identifier, endpoint) := times] == s.requests;
  }

  /**
   The reset time is right, after every refusal of every run, exactly when the
   window is narrow or nothing is ever allowed.
   */
  lemma ResetTimeIsExactIff(c: Config, endpoints: map<string, Limits>, endpoint: string)
    requires ':' !in endpoint
    ensures
      var limits := LimitsOf(c, State(map[], endpoints, 0.0), endpoint);
      AlwaysKept(c, endpoints, endpoint) <==> limits.window <= c.windowSeconds || limits.maxRequests <= 0
  {
    var limits := LimitsOf(c, State(map[], endpoints, 0.0), endpoint);
    if limits.window <= c.windowSeconds || limits.maxRequests <= 0 {
      forall started, qs, identifier, refused, asked, now
        | Orderly(qs, started) && Latest(qs, started) <= refused <= now
          && !Allow(c, ServeAll(c, State(map[], endpoints, started), qs), identifier, endpoint, refused).1
        ensures PromiseKept(c, endpoints, started, qs, identifier, endpoint, refused, asked, now)
      {
        if limits.maxRequests <= 0 {
          NeverAllowed(c, endpoints, started, qs, identifier, endpoint, refused, asked, now);
        } else {
          ResetTimeIsExact(c, endpoints, started, qs, identifier, endpoint, refused, asked, now);
        }
      }
    } else {
      var started, qs, now := AllowedBeforeReset(c, endpoints, "", endpoint, 0.0);
      ServeAllKeepsLimits(c, State(map[], endpoints, started), qs);
      assert !PromiseKept(c, endpoints, started, qs, "", endpoint, 0.0, 0.0, now);
    }
  }

  lemma FullIsNotWithin(log: seq<Admission>, key: string, limits: Limits, now: real, times: seq<real>)
    requires Logged(log, key) == times && LaterThan(times, now - limits.window as real) && |times| >= limits.maxRequests
    ensures !Within(log, key, limits, now)
  {
    AfterAll(times, now - limits.window as real);
  }

  /** A key whose last time is older than the global window starts anew at a cleanup. */
  lemma StaleIsAllowed(c: Config, s: State, identifier: string, endpoint: string, now: real)
    requires Stale(TimesAt(s, Key(identifier, endpoint)), now - c.windowSeconds as real)
    requires now - s.lastCleanup >= c.cleanupInterval as real && LimitsOf(c, s, endpoint).maxRequests > 0
    ensures TimesAt(Cleanup(c, s, now), Key(identifier, endpoint)) == []
    ensures Allow(c, s, identifier, endpoint, now).1
  {
  }

  /** An endpoint is limited exactly, over all runs, if and only if its window is narrow or it never allows anything. */
  lemma ExactIffNarrow(c: Config, endpoints: map<string, Limits>, endpoint: string)
    requires ':' !in endpoint
    ensures
      var limits := LimitsOf(c, State(map[], endpoints, 0.0), endpoint);
      AlwaysExact(c, endpoints, endpoint) <==> limits.window <= c.windowSeconds || limits.maxRequests <= 0
  {
    var limits := LimitsOf(c, State(map[], endpoints, 0.0), endpoint);
    if limits.window <= c.windowSeconds || limits.maxRequests <= 0 {
      forall started, qs, identifier, now | Orderly(qs, started) && Latest(qs, started) <= now
        ensures ExactAfter(c, endpoints, started, qs, identifier, endpoint, now) {
        if limits.window <= c.windowSeconds {
          NarrowIsExact(c, endpoints, started, qs, identifier, endpoint, now);
        } else {
          ServeAllKeepsLimits(c, State(map[], endpoints, started), qs);
        }
      }
    } else {
      var started, qs, now := WideWindowForgets(c, endpoints, "", endpoint);
      assert !ExactAfter(c, endpoints, started, qs, "", endpoint, now);
    }
  }

  // ----- any clock -----

  predicate SuffixOf(kept: seq<real>, all: seq<real>) {
    |kept| <= |all| && kept == all[|all| - |kept|..]
  }

  lemma SuffixOfSuffix(kept: seq<real>, all: seq<real>, n: nat)
    requires SuffixOf(kept, all) && n <= |kept|
    ensures SuffixOf(kept[n..], all)
  {
    assert all[|all| - |kept|..][n..] == all[|all| - |kept| + n..];
  }

  lemma SuffixSnoc(kept: seq<real>, all: seq<real>, t: real)
    requires SuffixOf(kept, all)
    ensures SuffixOf(kept + [t], all + [t])
  {
    assert (all + [t])[|all| - |kept|..] == all[|all| - |kept|..] + [t];
  }

  /** What a query leaves at a key, before any call it adds. */
  function Left(c: Config, s: State, q: Query, key: string): seq<real> {
    var times := TimesAt(if q.IsAllowed? then Cleanup(c, s, q.now) else s, key);
    if Key(q.identifier, q.endpoint) == key && !q.GetReset?
    then Prune(times, q.now - LimitsOf(c, s, q.endpoint).window as real) else times
  }

  lemma ServedTimes(c: Config, s: State, q: Query, key: string)
    ensures TimesAt(Serve(c, s, q), key) == Left(c, s, q, key) + Added(c, s, q, key)
  {
    var left := Left(c, s, q, key);
    assert left + [] == left;
  }

  lemma PruneKeepsSuffix(kept: seq<real>, all: seq<real>, cutoff: real)
    requires SuffixOf(kept, all)
    ensures SuffixOf(Prune(kept, cutoff), all)
  {
    var n := PruneIs(kept, cutoff);
    SuffixOfSuffix(kept, all, n);
  }

  lemma LeftIsSuffix(c: Config, s: State, all: seq<real>, q: Query, key: string)
    requires SuffixOf(TimesAt(s, key), all)
    ensures SuffixOf(Left(c, s, q, key), all)
  {
    CleanupKeepsSuffix(c, s, all, q.now, key);
    PruneKeepsSuffix(TimesAt(if q.IsAllowed? then Cleanup(c, s, q.now) else s, key), all,
                     q.now - LimitsOf(c, s, q.endpoint).window as real);
  }

  lemma CleanupKeepsSuffix(c: Config, s: State, all: seq<real>, now: real, key: string)
    requires SuffixOf(TimesAt(s, key), all)
    ensures SuffixOf(TimesAt(Cleanup(c, s, now), key), all)
  {
    assert TimesAt(Cleanup(c, s, now), key) == TimesAt(s, key) || TimesAt(Cleanup(c, s, now), key) == [];
  }

  /** Whatever the clock does and however wide the windows, what is kept of a key is a suffix of its log. */
  lemma {:induction false} KeptIsSuffix(c: Config, s: State, log: seq<Admission>, qs: seq<Query>, key: string)
    requires SuffixOf(TimesAt(s, key), Logged(log, key))
    ensures SuffixOf(TimesAt(ServeAll(c, s, qs), key), Logged(Entered(c, s, log, qs), key))
    decreases |qs|
  {
    if qs != [] {
      var all, left := Logged(log, key), Left(c, s, qs[0], key);
      EnterQueryAdds(c, s, log, qs[0], key);
      ServedTimes(c, s, qs[0], key);
      LeftIsSuffix(c, s, all, qs[0], key);
      SuffixSnoc(left, all, qs[0].now);
      assert all + [] == all && left + [] == left;
      KeptIsSuffix(c, Serve(c, s, qs[0]), EnterQuery(c, s, log, qs[0]), qs[1..], key);
    }
  }

  /** Logged calls still in the window that are no longer kept. */
  function Lost(kept: seq<real>, all: seq<real>, cutoff: real): nat
    requires |kept| <= |all|
  {
    After(all[..|all| - |kept|], cutoff)
  }

  /** Calls that have left the window but are counted, behind one that has not. */
  function Hidden(kept: seq<real>, cutoff: real): int {
    |Prune(kept, cutoff)| - After(kept, cutoff)
  }

  /** No kept time that has left the window stands behind one that has not. */
  predicate InOrder(kept: seq<real>, cutoff: real) {
    forall i, j :: 0 <= i < j < |kept| && kept[i] > cutoff ==> kept[j] > cutoff
  }

  lemma LaterBehindIff(kept: seq<real>, cutoff: real, n: nat)
    requires n <= |kept| && UpTo(kept[..n], cutoff) && (n < |kept| ==> kept[n] > cutoff)
    ensures LaterThan(kept[n..], cutoff) <==> InOrder(kept, cutoff)
  {
    assert forall k :: 0 <= k < n ==> kept[k] == kept[..n][k] <= cutoff;
    assert forall k :: n <= k < |kept| ==> kept[k] == kept[n..][k - n];
    if InOrder(kept, cutoff) {
      forall k | 0 <= k < |kept| - n ensures kept[n..][k] > cutoff {
        assert k > 0 ==> kept[n + k] > cutoff;
      }
    }
  }

  /** Nothing is hidden exactly when the kept times are in order to that extent. */
  lemma HiddenIff(kept: seq<real>, cutoff: real)
    ensures Hidden(kept, cutoff) >= 0
    ensures Hidden(kept, cutoff) == 0 <==> InOrder(kept, cutoff)
  {
    var n := PruneIs(kept, cutoff);
    assert kept == kept[..n] + kept[n..];
    AfterConcat(kept[..n], kept[n..], cutoff);
    AfterNone(kept[..n], cutoff);
    AfterAllIff(kept[n..], cutoff);
    LaterBehindIff(kept, cutoff, n);
  }

  /** Nothing is lost exactly when every logged time that is not kept has left the window. */
  lemma LostIff(kept: seq<real>, all: seq<real>, cutoff: real)
    requires |kept| <= |all|
    ensures Lost(kept, all, cutoff) == 0 <==> UpTo(all[..|all| - |kept|], cutoff)
  {
    AfterNoneIff(all[..|all| - |kept|], cutoff);
  }

  /** The log's calls in the window are those lost and those kept. */
  lemma LostOrKept(kept: seq<real>, all: seq<real>, cutoff: real)
    requires SuffixOf(kept, all)
    ensures After(all, cutoff) == Lost(kept, all, cutoff) + After(kept, cutoff)
  {
    AfterSplit(all, |all| - |kept|, cutoff);
  }

  /** The times a decision at `now` finds, once it has cleaned up. */
  function Found(c: Config, s: State, identifier: string, endpoint: string, now: real): seq<real> {
    TimesAt(Cleanup(c, s, now), Key(identifier, endpoint))
  }

  /** How many calls a decision counts. */
  function Counted(kept: seq<real>, all: seq<real>, cutoff: real): int
    requires |kept| <= |all|
  {
    After(all, cutoff) - Lost(kept, all, cutoff) + Hidden(kept, cutoff)
  }

  /** One decision, in terms of the times it finds and the log. */
  lemma DecisionIs(c: Config, s: State, log: seq<Admission>, identifier: string, endpoint: string, now: real)
    requires SuffixOf(TimesAt(s, Key(identifier, endpoint)), Logged(log, Key(identifier, endpoint)))
    ensures SuffixOf(Found(c, s, identifier, endpoint, now), Logged(log, Key(identifier, endpoint)))
    ensures
      var all, limits := Logged(log, Key(identifier, endpoint)), LimitsOf(c, s, endpoint);
      Allow(c, s, identifier, endpoint, now).1
      <==> Counted(Found(c, s, identifier, endpoint, now), all, now - limits.window as real) < limits.maxRequests
  {
    var key := Key(identifier, endpoint);
    var cutoff := now - LimitsOf(c, s, endpoint).window as real;
    CleanupKeepsSuffix(c, s, Logged(log, key), now, key);
    LostOrKept(Found(c, s, identifier, endpoint, now), Logged(log, key), cutoff);
    assert InView(c, Cleanup(c, s, now), identifier, endpoint, now)
        == Prune(Found(c, s, identifier, endpoint, now), cutoff);
  }

  /**
   A call the log would allow is refused only where an old time hides behind a
   live one, and one the log would refuse is allowed only where a live call has
   been dropped.
   */
  predicate ErrsOnlySo(allowed: bool, right: bool, kept: seq<real>, all: seq<real>, cutoff: real)
    requires |kept| <= |all|
  {
    && (!allowed && right ==> !InOrder(kept, cutoff))
    && (allowed && !right ==> !UpTo(all[..|all| - |kept|], cutoff))
  }

  /** Which way a decision can be wrong, after any run under any clock and any windows. */
  lemma WrongDecisions(c: Config, endpoints: map<string, Limits>, started: real, qs: seq<Query>,
                       identifier: string, endpoint: string, now: real)
    ensures
      var s0, key := State(map[], endpoints, started), Key(identifier, endpoint);
      var s, log, limits := ServeAll(c, s0, qs), Entered(c, s0, [], qs), LimitsOf(c, s0, endpoint);
      var kept := Found(c, s, identifier, endpoint, now);
      && SuffixOf(kept, Logged(log, key))
      && ErrsOnlySo(Allow(c, s, identifier, endpoint, now).1, Within(log, key, limits, now),
                    kept, Logged(log, key), now - limits.window as real)
  {
    var s0 := State(map[], endpoints, started);
    KeptIsSuffix(c, s0, [], qs, Key(identifier, endpoint));
    ServeAllKeepsLimits(c, s0, qs);
    WrongDecision(c, ServeAll(c, s0, qs), Entered(c, s0, [], qs), identifier, endpoint, now);
  }

  lemma WrongDecision(c: Config, s: State, log: seq<Admission>, identifier: string, endpoint: string, now: real)
    requires SuffixOf(TimesAt(s, Key(identifier, endpoint)), Logged(log, Key(identifier, endpoint)))
    ensures
      var key, limits := Key(identifier, endpoint), LimitsOf(c, s, endpoint);
      var kept := Found(c, s, identifier, endpoint, now);
      && SuffixOf(kept, Logged(log, key))
      && ErrsOnlySo(Allow(c, s, identifier, endpoint, now).1, Within(log, key, limits, now),
                    kept, Logged(log, key), now - limits.window as real)
  {
    var kept, all := Found(c, s, identifier, endpoint, now), Logged(log, Key(identifier, endpoint));
    var limits := LimitsOf(c, s, endpoint);
    DecisionIs(c, s, log, identifier, endpoint, now);
    Miscounts(kept, all, now - limits.window as real, limits.maxRequests);
  }

  /** Counting too many needs a hidden time, counting too few a lost one. */
  lemma Miscounts(kept: seq<real>, all: seq<real>, cutoff: real, max: int)
    requires |kept| <= |all|
    ensures ErrsOnlySo(Counted(kept, all, cutoff) < max, After(all, cutoff) < max, kept, all, cutoff)
  {
    HiddenIff(kept, cutoff);
    LostIff(kept, all, cutoff);
  }

  // ----- exactly how steady the clock must be -----

  function Later(a: real, b: real): real { if a < b then b else a }

  /** No reading falls short of the highest before it by more than `d`; endpoints hold no colon. */
  predicate FallsBack(qs: seq<Query>, highest: real, d: real)
    decreases |qs|
  {
    qs == []
    || (qs[0].now >= highest - d && ':' !in qs[0].endpoint && FallsBack(qs[1..], Later(highest, qs[0].now), d))
  }

  /** The highest reading of a run. */
  function Highest(qs: seq<Query>, highest: real): real
    decreases |qs|
  {
    if qs == [] then highest else Highest(qs[1..], Later(highest, qs[0].now))
  }

  /** Every decision agrees with the log after every run of a clock that falls back by at most `d`. */
  ghost predicate ExactWithin(c: Config, endpoints: map<string, Limits>, endpoint: string, d: real) {
    forall started, qs, identifier, now :: FallsBack(qs, started, d) && now >= Highest(qs, started) - d ==>
      ExactAfter(c, endpoints, started, qs, identifier, endpoint, now)
  }

  lemma {:induction false} FallingByNothing(qs: seq<Query>, since: real)
    ensures FallsBack(qs, since, 0.0) <==> Orderly(qs, since)
    ensures Orderly(qs, since) ==> Highest(qs, since) == Latest(qs, since) >= since
    decreases |qs|
  {
    if qs != [] && qs[0].now >= since {
      FallingByNothing(qs[1..], qs[0].now);
      assert Latest(qs, since) == Latest(qs[1..], qs[0].now);
    }
  }

  lemma {:induction false} FallingByMore(qs: seq<Query>, highest: real, d: real, e: real)
    requires FallsBack(qs, highest, d) && d <= e
    ensures FallsBack(qs, highest, e)
    decreases |qs|
  {
    if qs != [] { FallingByMore(qs[1..], Later(highest, qs[0].now), d, e); }
  }

  lemma {:induction false} FallsBackOn(qs: seq<Query>, rs: seq<Query>, highest: real, d: real)
    requires FallsBack(qs, highest, d) && FallsBack(rs, Highest(qs, highest), d)
    ensures FallsBack(qs + rs, highest, d) && Highest(qs + rs, highest) == Highest(rs, Highest(qs, highest))
    decreases |qs|
  {
    if qs == [] {
      assert qs + rs == rs;
    } else {
      assert (qs + rs)[0] == qs[0] && (qs + rs)[1..] == qs[1..] + rs;
      FallsBackOn(qs[1..], rs, Later(highest, qs[0].now), d);
    }
  }

  lemma OneFallsBack(q: Query, highest: real, d: real)
    requires ':' !in q.endpoint && q.now >= highest - d
    ensures FallsBack([q], highest, d) && Highest([q], highest) == Later(highest, q.now)
  {
    var rest := [q][1..];
    assert rest == [];
    assert FallsBack(rest, Later(highest, q.now), d);
    assert Highest(rest, Later(highest, q.now)) == Later(highest, q.now);
  }

  /** Under any clock, no logged time is above the highest reading. */
  lemma {:induction false} LoggedUpToHighest(c: Config, s: State, log: seq<Admission>, qs: seq<Query>, highest: real,
                                             key: string)
    requires UpTo(Logged(log, key), highest)
    ensures UpTo(Logged(Entered(c, s, log, qs), key), Highest(qs, highest))
    decreases |qs|
  {
    if qs != [] {
      var q := qs[0];
      EnterQueryAdds(c, s, log, q, key);
      UpToLater(Logged(log, key), highest, Added(c, s, q, key), q.now);
      LoggedUpToHighest(c, Serve(c, s, q), EnterQuery(c, s, log, q), qs[1..], Later(highest, q.now), key);
    }
  }

  lemma UpToLater(times: seq<real>, highest: real, more: seq<real>, now: real)
    requires UpTo(times, highest) && UpTo(more, now)
    ensures UpTo(times + more, Later(highest, now))
  {
  }

  lemma UpToSuffix(kept: seq<real>, all: seq<real>, cutoff: real)
    requires SuffixOf(kept, all) && UpTo(all, cutoff)
    ensures UpTo(kept, cutoff)
  {
  }

  /** A window no longer than what the clock falls short of never holds a call: all is allowed, and rightly. */
  lemma EmptyWindowIsExact(c: Config, endpoints: map<string, Limits>, started: real, qs: seq<Query>,
                           identifier: string, endpoint: string, now: real)
    requires Highest(qs, started) <= now - LimitsOf(c, State(map[], endpoints, started), endpoint).window as real
    ensures ExactAfter(c, endpoints, started, qs, identifier, endpoint, now)
  {
    var s0, key := State(map[], endpoints, started), Key(identifier, endpoint);
    var s, log := ServeAll(c, s0, qs), Entered(c, s0, [], qs);
    var cutoff := now - LimitsOf(c, s0, endpoint).window as real;
    ServeAllKeepsLimits(c, s0, qs);
    KeptIsSuffix(c, s0, [], qs, key);
    LoggedUpToHighest(c, s0, [], qs, started, key);
    AllOutOfWindow(c, s, log, identifier, endpoint, now);
  }

  lemma AllOutOfWindow(c: Config, s: State, log: seq<Admission>, identifier: string, endpoint: string, now: real)
    requires SuffixOf(TimesAt(s, Key(identifier, endpoint)), Logged(log, Key(identifier, endpoint)))
    requires UpTo(Logged(log, Key(identifier, endpoint)), now - LimitsOf(c, s, endpoint).window as real)
    ensures Allow(c, s, identifier, endpoint, now).1
       <==> Within(log, Key(identifier, endpoint), LimitsOf(c, s, endpoint), now)
  {
    var key, cutoff := Key(identifier, endpoint), now - LimitsOf(c, s, endpoint).window as real;
    CleanupKeepsSuffix(c, s, Logged(log, key), now, key);
    UpToSuffix(Found(c, s, identifier, endpoint, now), Logged(log, key), cutoff);
    OldIsAllowed(c, s, identifier, endpoint, now);
    AfterNone(Logged(log, key), cutoff);
  }

  lemma OldIsAllowed(c: Config, s: State, identifier: string, endpoint: string, now: real)
    requires UpTo(Found(c, s, identifier, endpoint, now), now - LimitsOf(c, s, endpoint).window as real)
    ensures Allow(c, s, identifier, endpoint, now).1 <==> 0 < LimitsOf(c, s, endpoint).maxRequests
  {
    PruneAll(Found(c, s, identifier, endpoint, now), now - LimitsOf(c, s, endpoint).window as real);
  }

  /** With a window that is not positive, every call of a burst finds the window empty. */
  lemma {:induction false} EmptyWindowBurst(c: Config, s: State, identifier: string, endpoint: string, t: real, n: nat)
    returns (u: State)
    requires LimitsOf(c, s, endpoint).window <= 0 && LimitsOf(c, s, endpoint).maxRequests > 0
    requires t - s.lastCleanup < c.cleanupInterval as real && UpTo(TimesAt(s, Key(identifier, endpoint)), t)
    ensures Leads(c, s, Burst(identifier, endpoint, t, n), Key(identifier, endpoint), u, Many(t, n))
    ensures u.endpoints == s.endpoints && UpTo(TimesAt(u, Key(identifier, endpoint)), t)
    ensures u.lastCleanup == s.lastCleanup
    decreases n
  {
    if n == 0 {
      u := s;
      assert Many(t, 0) == [];
    } else {
      var q, key := IsAllowed(identifier, endpoint, t), Key(identifier, endpoint);
      PruneAll(TimesAt(s, key), t - LimitsOf(c, s, endpoint).window as real);
      assert Cleanup(c, s, t) == s;
      assert Serve(c, s, q) == With(s, key, [] + [t]) && Added(c, s, q, key) == [t];
      u := EmptyWindowBurst(c, Serve(c, s, q), identifier, endpoint, t, n - 1);
      OneThenRest(c, s, q, Burst(identifier, endpoint, t, n - 1), key, u, Many(t, n - 1));
      assert [t] + Many(t, n - 1) == Many(t, n);
    }
  }

  /** A whole limit at time 0, and a question once that has left the window. */
  function UseUpAndAsk(identifier: string, endpoint: string, limits: Limits): seq<Query>
    requires limits.maxRequests > 0
  {
    Burst(identifier, endpoint, 0.0, limits.maxRequests)
    + [GetRemaining(identifier, endpoint, Later(0.0, limits.window as real))]
  }

  lemma UseUpAndAskLeads(c: Config, s0: State, identifier: string, endpoint: string) returns (s2: State)
    requires s0.requests == map[] && s0.lastCleanup == 0.0 && LimitsOf(c, s0, endpoint).maxRequests > 0
    ensures
      var limits := LimitsOf(c, s0, endpoint);
      Leads(c, s0, UseUpAndAsk(identifier, endpoint, limits), Key(identifier, endpoint), s2,
            Many(0.0, limits.maxRequests))
    ensures TimesAt(s2, Key(identifier, endpoint)) == []
  {
    var limits, key := LimitsOf(c, s0, endpoint), Key(identifier, endpoint);
    var m := limits.maxRequests;
    if limits.window > 0 {
      s2 := BurstThenAsked(c, s0, identifier, endpoint, 0.0);
    } else {
      var s1 := EmptyWindowBurst(c, s0, identifier, endpoint, 0.0, m);
      var asked := GetRemaining(identifier, endpoint, 0.0);
      PruneAll(TimesAt(s1, key), 0.0 - limits.window as real);
      s2 := With(s1, key, []);
      OneLeads(c, s1, asked, key);
      LeadsOn(c, s0, Burst(identifier, endpoint, 0.0, m), key, s1, Many(0.0, m), [asked], s2, []);
      assert Many(0.0, m) + [] == Many(0.0, m);
    }
  }

  lemma UseUpAndAskFallsBack(identifier: string, endpoint: string, limits: Limits, d: real)
    requires limits.maxRequests > 0 && d >= 0.0 && ':' !in endpoint
    ensures FallsBack(UseUpAndAsk(identifier, endpoint, limits), 0.0, d)
    ensures Highest(UseUpAndAsk(identifier, endpoint, limits), 0.0) == Later(0.0, limits.window as real)
  {
    var burst := Burst(identifier, endpoint, 0.0, limits.maxRequests);
    var asked := GetRemaining(identifier, endpoint, Later(0.0, limits.window as real));
    BurstIsOrderly(identifier, endpoint, 0.0, limits.maxRequests, 0.0);
    FallingByNothing(burst, 0.0);
    FallingByMore(burst, 0.0, 0.0, d);
    OneFallsBack(asked, 0.0, d);
    FallsBackOn(burst, [asked], 0.0, d);
  }

  /**
   However little a clock falls back, if it is more than the window falls short
   of zero: a limit used up at time 0 is dropped by a later question, and a call
   read at an earlier time is allowed with the whole limit still in its window.
   */
  lemma EarlierCallIsAllowed(c: Config, endpoints: map<string, Limits>, identifier: string, endpoint: string, d: real)
    requires LimitsOf(c, State(map[], endpoints, 0.0), endpoint).maxRequests > 0 && ':' !in endpoint
    requires d > 0.0 && d + LimitsOf(c, State(map[], endpoints, 0.0), endpoint).window as real > 0.0
    ensures
      var s0, key := State(map[], endpoints, 0.0), Key(identifier, endpoint);
      var limits := LimitsOf(c, s0, endpoint);
      var qs, now := UseUpAndAsk(identifier, endpoint, limits), Later(0.0, limits.window as real) - d;
      && FallsBack(qs, 0.0, d) && now >= Highest(qs, 0.0) - d
      && Allow(c, ServeAll(c, s0, qs), identifier, endpoint, now).1
      && !Within(Entered(c, s0, [], qs), key, limits, now)
  {
    var limits := LimitsOf(c, State(map[], endpoints, 0.0), endpoint);
    UseUpAndAskFallsBack(identifier, endpoint, limits, d);
    UsedUpIsAllowed(c, State(map[], endpoints, 0.0), identifier, endpoint, Later(0.0, limits.window as real) - d);
  }

  lemma UsedUpIsAllowed(c: Config, s0: State, identifier: string, endpoint: string, now: real)
    requires s0.requests == map[] && s0.lastCleanup == 0.0 && LimitsOf(c, s0, endpoint).maxRequests > 0
    requires now - LimitsOf(c, s0, endpoint).window as real < 0.0
    ensures
      var limits := LimitsOf(c, s0, endpoint);
      var qs := UseUpAndAsk(identifier, endpoint, limits);
      && Allow(c, ServeAll(c, s0, qs), identifier, endpoint, now).1
      && !Within(Entered(c, s0, [], qs), Key(identifier, endpoint), limits, now)
  {
    var key, limits := Key(identifier, endpoint), LimitsOf(c, s0, endpoint);
    var qs, times := UseUpAndAsk(identifier, endpoint, limits), Many(0.0, limits.maxRequests);
    var s2 := UseUpAndAskLeads(c, s0, identifier, endpoint);
    ServeAllKeepsLimits(c, s0, qs);
    FreshLog(c, s0, qs, key, s2, times);
    FullIsNotWithin(Entered(c, s0, [], qs), key, limits, now, times);
    EmptyIsAllowed(c, s2, identifier, endpoint, now);
  }

  lemma EmptyIsAllowed(c: Config, s: State, identifier: string, endpoint: string, now: real)
    requires TimesAt(s, Key(identifier, endpoint)) == [] && LimitsOf(c, s, endpoint).maxRequests > 0
    ensures Allow(c, s, identifier, endpoint, now).1
  {
    assert TimesAt(Cleanup(c, s, now), Key(identifier, endpoint)) == [];
  }

  /**
   Exactly which clocks an endpoint can stand.  Every decision agrees with the
   log, after every run of a clock that falls back by at most `d`, if and only
   if the endpoint never allows anything, or its window is empty even so, or
   the clock does not fall back and the window is no longer than the global one.
   */
  lemma ExactWithinIff(c: Config, endpoints: map<string, Limits>, endpoint: string, d: real)
    requires ':' !in endpoint && d >= 0.0
    ensures
      var limits := LimitsOf(c, State(map[], endpoints, 0.0), endpoint);
      ExactWithin(c, endpoints, endpoint, d)
      <==> limits.maxRequests <= 0 || d + limits.window as real <= 0.0
           || (d == 0.0 && limits.window <= c.windowSeconds)
  {
    var limits := LimitsOf(c, State(map[], endpoints, 0.0), endpoint);
    if limits.maxRequests <= 0 || d + limits.window as real <= 0.0 || (d == 0.0 && limits.window <= c.windowSeconds) {
      forall started, qs, identifier, now | FallsBack(qs, started, d) && now >= Highest(qs, started) - d
        ensures ExactAfter(c, endpoints, started, qs, identifier, endpoint, now) {
        StandsTheClock(c, endpoints, started, qs, identifier, endpoint, now, d);
      }
    } else if d > 0.0 {
      EarlierCallIsAllowed(c, endpoints, "", endpoint, d);
      assert !ExactAfter(c, endpoints, 0.0, UseUpAndAsk("", endpoint, limits), "", endpoint,
                         Later(0.0, limits.window as real) - d);
    } else {
      var started, qs, now := WideWindowForgets(c, endpoints, "", endpoint);
      FallingByNothing(qs, started);
      assert !ExactAfter(c, endpoints, started, qs, "", endpoint, now);
    }
  }

  lemma StandsTheClock(c: Config, endpoints: map<string, Limits>, started: real, qs: seq<Query>,
                       identifier: string, endpoint: string, now: real, d: real)
    requires ':' !in endpoint && d >= 0.0 && FallsBack(qs, started, d) && now >= Highest(qs, started) - d
    requires
      var limits := LimitsOf(c, State(map[], endpoints, started), endpoint);
      limits.maxRequests <= 0 || d + limits.window as real <= 0.0 || (d == 0.0 && limits.window <= c.windowSeconds)
    ensures ExactAfter(c, endpoints, started, qs, identifier, endpoint, now)
  {
    var s0 := State(map[], endpoints, started);
    var limits := LimitsOf(c, s0, endpoint);
    if limits.maxRequests <= 0 {
      ServeAllKeepsLimits(c, s0, qs);
    } else if d + limits.window as real <= 0.0 {
      EmptyWindowIsExact(c, endpoints, started, qs, identifier, endpoint, now);
    } else {
      FallingByNothing(qs, started);
      NarrowIsExact(c, endpoints, started, qs, identifier, endpoint, now);
    }
  }

  // ----- and for the two queries the gateway makes -----

  /** Calls and reset times only: nothing asks for the remaining requests. */
  predicate Plainly(qs: seq<Query>) {
    forall q :: q in qs ==> !q.GetRemaining?
  }

  /** Every decision agrees with the log after every such run of a clock that falls back by at most `d`. */
  ghost predicate ExactPlainly(c: Config, endpoints: map<string, Limits>, endpoint: string, d: real) {
    forall started, qs, identifier, now ::
      Plainly(qs) && FallsBack(qs, started, d) && now >= Highest(qs, started) - d ==>
        ExactAfter(c, endpoints, started, qs, identifier, endpoint, now)
  }

  // With a limit of one and a window that is not negative, a key holds the last
  // time of its log, or nothing once a cleanup has found that stale.

  /** All that can be missing left the global window before the highest reading. */
  predicate HoldsLast(kept: seq<real>, all: seq<real>, stale: real) {
    Sorted(all) && (if kept == [] then UpTo(all, stale) else all != [] && kept == [all[|all| - 1]])
  }

  lemma HoldsLastAfterCleanup(c: Config, s: State, all: seq<real>, now: real, key: string, before: real, stale: real)
    requires HoldsLast(TimesAt(s, key), all, before) && before <= stale && now - c.windowSeconds as real <= stale
    ensures HoldsLast(TimesAt(s, key), all, stale)
    ensures HoldsLast(TimesAt(Cleanup(c, s, now), key), all, stale)
  {
  }

  /** A decision on what a key holds: right, and what it leaves holds the last time again. */
  lemma DecidesByLast(kept: seq<real>, all: seq<real>, stale: real, now: real, window: int)
    requires HoldsLast(kept, all, stale) && stale <= now - window as real && window >= 0
    ensures
      var allowed := |Prune(kept, now - window as real)| < 1;
      && (allowed <==> After(all, now - window as real) < 1)
      && (allowed ==> Prune(kept, now - window as real) == [] && Sorted(all + [now]))
      && (!allowed ==> Prune(kept, now - window as real) == kept)
  {
    var cutoff := now - window as real;
    AfterNoneIff(all, cutoff);
    assert kept != [] ==> kept[1..] == [];
    assert UpTo(all, cutoff) <==> Prune(kept, cutoff) == [];
  }

  /** The endpoint allows one call in a window that stays within the global one, however far the clock falls back. */
  predicate OneAtATime(c: Config, s: State, endpoint: string, d: real) {
    var limits := LimitsOf(c, s, endpoint);
    limits.maxRequests == 1 && limits.window >= 0 && d + limits.window as real <= c.windowSeconds as real
  }

  lemma DecisionByLast(c: Config, s: State, log: seq<Admission>, identifier: string, endpoint: string, now: real,
                       highest: real, d: real)
    requires OneAtATime(c, s, endpoint, d) && d >= 0.0 && now >= highest - d
    requires HoldsLast(TimesAt(s, Key(identifier, endpoint)), Logged(log, Key(identifier, endpoint)),
                       highest - c.windowSeconds as real)
    ensures
      var key := Key(identifier, endpoint);
      var (t, allowed) := Allow(c, s, identifier, endpoint, now);
      && (allowed <==> Within(log, key, LimitsOf(c, s, endpoint), now))
      && HoldsLast(TimesAt(t, key), Logged(log, key) + (if allowed then [now] else []),
                   Later(highest, now) - c.windowSeconds as real)
  {
    var key, w := Key(identifier, endpoint), LimitsOf(c, s, endpoint).window;
    var all, stale := Logged(log, key), Later(highest, now) - c.windowSeconds as real;
    HoldsLastAfterCleanup(c, s, all, now, key, highest - c.windowSeconds as real, stale);
    DecidesByLast(TimesAt(Cleanup(c, s, now), key), all, stale, now, w);
    assert all + [] == all;
  }

  lemma QueryHoldsLast(c: Config, s: State, log: seq<Admission>, q: Query, identifier: string, endpoint: string,
                       highest: real, d: real)
    requires OneAtATime(c, s, endpoint, d) && d >= 0.0 && q.now >= highest - d && !q.GetRemaining?
    requires ':' !in endpoint && ':' !in q.endpoint
    requires HoldsLast(TimesAt(s, Key(identifier, endpoint)), Logged(log, Key(identifier, endpoint)),
                       highest - c.windowSeconds as real)
    ensures HoldsLast(TimesAt(Serve(c, s, q), Key(identifier, endpoint)),
                      Logged(EnterQuery(c, s, log, q), Key(identifier, endpoint)),
                      Later(highest, q.now) - c.windowSeconds as real)
  {
    EnterQueryAdds(c, s, log, q, Key(identifier, endpoint));
    if q.IsAllowed? && Key(q.identifier, q.endpoint) == Key(identifier, endpoint) {
      KeysAreDistinct(q.identifier, q.endpoint, identifier, endpoint);
      DecisionByLast(c, s, log, identifier, endpoint, q.now, highest, d);
    } else {
      OtherQueryHoldsLast(c, s, Logged(log, Key(identifier, endpoint)), q, Key(identifier, endpoint), highest);
    }
  }

  /** A query for another key, or for a reset time, at most sets off a cleanup. */
  lemma OtherQueryHoldsLast(c: Config, s: State, all: seq<real>, q: Query, key: string, highest: real)
    requires !q.GetRemaining? && (q.IsAllowed? ==> Key(q.identifier, q.endpoint) != key)
    requires HoldsLast(TimesAt(s, key), all, highest - c.windowSeconds as real)
    ensures HoldsLast(TimesAt(Serve(c, s, q), key), all + Added(c, s, q, key),
                      Later(highest, q.now) - c.windowSeconds as real)
  {
    var g := c.windowSeconds as real;
    ServedTimes(c, s, q, key);
    assert Left(c, s, q, key) + [] == Left(c, s, q, key) && all + [] == all;
    HoldsLastAfterCleanup(c, s, all, q.now, key, highest - g, Later(highest, q.now) - g);
  }

  lemma {:induction false} RunHoldsLast(c: Config, s: State, log: seq<Admission>, qs: seq<Query>,
                                        identifier: string, endpoint: string, highest: real, d: real)
    requires OneAtATime(c, s, endpoint, d) && d >= 0.0 && ':' !in endpoint
    requires Plainly(qs) && FallsBack(qs, highest, d)
    requires HoldsLast(TimesAt(s, Key(identifier, endpoint)), Logged(log, Key(identifier, endpoint)),
                       highest - c.windowSeconds as real)
    ensures HoldsLast(TimesAt(ServeAll(c, s, qs), Key(identifier, endpoint)),
                      Logged(Entered(c, s, log, qs), Key(identifier, endpoint)),
                      Highest(qs, highest) - c.windowSeconds as real)
    decreases |qs|
  {
    if qs != [] {
      QueryHoldsLast(c, s, log, qs[0], identifier, endpoint, highest, d);
      RunHoldsLast(c, Serve(c, s, qs[0]), EnterQuery(c, s, log, qs[0]), qs[1..], identifier, endpoint,
                   Later(highest, qs[0].now), d);
    }
  }

  /** With a limit of one, then, plain runs are exact as long as cleanup cannot reach into the window. */
  lemma OneIsExact(c: Config, endpoints: map<string, Limits>, started: real, qs: seq<Query>,
                   identifier: string, endpoint: string, now: real, d: real)
    requires OneAtATime(c, State(map[], endpoints, started), endpoint, d) && d >= 0.0 && ':' !in endpoint
    requires Plainly(qs) && FallsBack(qs, started, d) && now >= Highest(qs, started) - d
    ensures ExactAfter(c, endpoints, started, qs, identifier, endpoint, now)
  {
    var s0 := State(map[], endpoints, started);
    RunHoldsLast(c, s0, [], qs, identifier, endpoint, started, d);
    ServeAllKeepsLimits(c, s0, qs);
    DecisionByLast(c, ServeAll(c, s0, qs), Entered(c, s0, [], qs), identifier, endpoint, now, Highest(qs, started), d);
  }

  // Where it fails: for limits of at least two, and for one.

  /** A whole limit at time 0, and a call once that has left the window. */
  function UseUpAndCall(identifier: string, endpoint: string, limits: Limits): seq<Query>
    requires limits.maxRequests > 0
  {
    Burst(identifier, endpoint, 0.0, limits.maxRequests)
    + [IsAllowed(identifier, endpoint, Later(0.0, limits.window as real))]
  }

  /** A call that finds everything out of its window is allowed and leaves itself alone, and no cleanup due. */
  lemma CallAlone(c: Config, s: State, identifier: string, endpoint: string, t: real)
    requires UpTo(TimesAt(s, Key(identifier, endpoint)), t - LimitsOf(c, s, endpoint).window as real)
    requires LimitsOf(c, s, endpoint).maxRequests > 0 && s.lastCleanup <= t
    ensures
      var q, key := IsAllowed(identifier, endpoint, t), Key(identifier, endpoint);
      && TimesAt(Serve(c, s, q), key) == [t] && Added(c, s, q, key) == [t]
      && Serve(c, s, q).endpoints == s.endpoints && t - Serve(c, s, q).lastCleanup < c.cleanupInterval as real
  {
    var key := Key(identifier, endpoint);
    PruneAll(TimesAt(Cleanup(c, s, t), key), t - LimitsOf(c, s, endpoint).window as real);
    assert [] + [t] == [t];
  }

  lemma UsedUpAtZero(c: Config, s0: State, identifier: string, endpoint: string) returns (s1: State)
    requires s0.requests == map[] && s0.lastCleanup == 0.0 && LimitsOf(c, s0, endpoint).maxRequests > 0
    ensures
      var key, m := Key(identifier, endpoint), LimitsOf(c, s0, endpoint).maxRequests;
      && Leads(c, s0, Burst(identifier, endpoint, 0.0, m), key, s1, Many(0.0, m))
      && UpTo(TimesAt(s1, key), 0.0) && s1.endpoints == s0.endpoints && s1.lastCleanup == 0.0
  {
    if LimitsOf(c, s0, endpoint).window > 0 {
      s1 := BurstFills(c, s0, identifier, endpoint, 0.0);
    } else {
      s1 := EmptyWindowBurst(c, s0, identifier, endpoint, 0.0, LimitsOf(c, s0, endpoint).maxRequests);
    }
  }

  lemma UseUpAndCallLeads(c: Config, s0: State, identifier: string, endpoint: string) returns (s2: State)
    requires s0.requests == map[] && s0.lastCleanup == 0.0 && LimitsOf(c, s0, endpoint).maxRequests > 0
    ensures
      var limits, key := LimitsOf(c, s0, endpoint), Key(identifier, endpoint);
      var t := Later(0.0, limits.window as real);
      && Leads(c, s0, UseUpAndCall(identifier, endpoint, limits), key, s2, Many(0.0, limits.maxRequests) + [t])
      && TimesAt(s2, key) == [t] && s2.endpoints == s0.endpoints
      && t - s2.lastCleanup < c.cleanupInterval as real
  {
    var limits, key := LimitsOf(c, s0, endpoint), Key(identifier, endpoint);
    var q := IsAllowed(identifier, endpoint, Later(0.0, limits.window as real));
    var s1 := UsedUpAtZero(c, s0, identifier, endpoint);
    s2 := Serve(c, s1, q);
    CallAlone(c, s1, identifier, endpoint, q.now);
    OneLeads(c, s1, q, key);
    LeadsOn(c, s0, Burst(identifier, endpoint, 0.0, limits.maxRequests), key, s1, Many(0.0, limits.maxRequests),
            [q], s2, [q.now]);
  }

  lemma {:induction false} BurstIsPlain(identifier: string, endpoint: string, t: real, n: nat)
    ensures Plainly(Burst(identifier, endpoint, t, n))
    decreases n
  {
    if n > 0 { BurstIsPlain(identifier, endpoint, t, n - 1); }
  }

  lemma UseUpAndCallFallsBack(identifier: string, endpoint: string, limits: Limits, d: real)
    requires limits.maxRequests > 0 && d >= 0.0 && ':' !in endpoint
    ensures Plainly(UseUpAndCall(identifier, endpoint, limits))
    ensures FallsBack(UseUpAndCall(identifier, endpoint, limits), 0.0, d)
    ensures Highest(UseUpAndCall(identifier, endpoint, limits), 0.0) == Later(0.0, limits.window as real)
  {
    var burst := Burst(identifier, endpoint, 0.0, limits.maxRequests);
    var call := IsAllowed(identifier, endpoint, Later(0.0, limits.window as real));
    BurstIsOrderly(identifier, endpoint, 0.0, limits.maxRequests, 0.0);
    BurstIsPlain(identifier, endpoint, 0.0, limits.maxRequests);
    FallingByNothing(burst, 0.0);
    FallingByMore(burst, 0.0, 0.0, d);
    OneFallsBack(call, 0.0, d);
    FallsBackOn(burst, [call], 0.0, d);
  }

  /**
   For every limit of at least two, with calls alone: a limit used up at time 0
   is dropped by a call once that has left the window, which leaves room for a
   call read at an earlier time, with more than the limit in its window.
   */
  lemma EarlierPlainCallIsAllowed(c: Config, endpoints: map<string, Limits>, identifier: string, endpoint: string,
                                  d: real)
    requires LimitsOf(c, State(map[], endpoints, 0.0), endpoint).maxRequests >= 2 && ':' !in endpoint
    requires d > 0.0 && d + LimitsOf(c, State(map[], endpoints, 0.0), endpoint).window as real > 0.0
    ensures
      var s0, key := State(map[], endpoints, 0.0), Key(identifier, endpoint);
      var limits := LimitsOf(c, s0, endpoint);
      var qs, now := UseUpAndCall(identifier, endpoint, limits), Later(0.0, limits.window as real) - d;
      && Plainly(qs) && FallsBack(qs, 0.0, d) && now >= Highest(qs, 0.0) - d
      && Allow(c, ServeAll(c, s0, qs), identifier, endpoint, now).1
      && !Within(Entered(c, s0, [], qs), key, limits, now)
  {
    var s0, key := State(map[], endpoints, 0.0), Key(identifier, endpoint);
    var limits := LimitsOf(c, s0, endpoint);
    var qs, t := UseUpAndCall(identifier, endpoint, limits), Later(0.0, limits.window as real);
    var times := Many(0.0, limits.maxRequests) + [t];
    UseUpAndCallFallsBack(identifier, endpoint, limits, d);
    var s2 := UseUpAndCallLeads(c, s0, identifier, endpoint);
    FreshLog(c, s0, qs, key, s2, times);
    FullIsNotWithin(Entered(c, s0, [], qs), key, limits, t - d, times);
    FewAreAllowed(c, s2, identifier, endpoint, t - d);
  }

  lemma FewAreAllowed(c: Config, s: State, identifier: string, endpoint: string, now: real)
    requires |TimesAt(s, Key(identifier, endpoint))| < LimitsOf(c, s, endpoint).maxRequests
    ensures Allow(c, s, identifier, endpoint, now).1
  {
    var n := PruneIs(TimesAt(Cleanup(c, s, now), Key(identifier, endpoint)),
                     now - LimitsOf(c, s, endpoint).window as real);
  }

  lemma TwoLead(c: Config, s0: State, q: Query, r: Query, key: string)
    ensures
      var s1 := Serve(c, s0, q);
      Leads(c, s0, [q, r], key, Serve(c, s1, r), Added(c, s0, q, key) + Added(c, s1, r, key))
  {
    var s1 := Serve(c, s0, q);
    assert [q] + [r] == [q, r];
    OneLeads(c, s0, q, key);
    OneLeads(c, s1, r, key);
    LeadsOn(c, s0, [q], key, s1, Added(c, s0, q, key), [r], Serve(c, s1, r), Added(c, s1, r, key));
  }

  lemma TwoFallBack(q: Query, r: Query, started: real, d: real)
    requires !q.GetRemaining? && !r.GetRemaining? && ':' !in q.endpoint && ':' !in r.endpoint
    requires started <= q.now && q.now - d <= r.now && d >= 0.0
    ensures Plainly([q, r]) && FallsBack([q, r], started, d) && Highest([q, r], started) == Later(q.now, r.now)
  {
    OneFallsBack(q, started, d);
    OneFallsBack(r, q.now, d);
    FallsBackOn([q], [r], started, d);
    assert [q] + [r] == [q, r];
  }

  lemma FirstCall(c: Config, s0: State, identifier: string, endpoint: string)
    requires s0.requests == map[] && 0.0 - s0.lastCleanup < c.cleanupInterval as real
    requires LimitsOf(c, s0, endpoint).maxRequests > 0
    ensures
      var q, key := IsAllowed(identifier, endpoint, 0.0), Key(identifier, endpoint);
      Serve(c, s0, q) == With(s0, key, [0.0]) && Added(c, s0, q, key) == [0.0]
  {
    assert Cleanup(c, s0, 0.0) == s0;
    assert [] + [0.0] == [0.0];
  }

  /** A limit of one, for a window that is negative: a call at an earlier time hides one at a later. */
  lemma LowerCallHides(c: Config, endpoints: map<string, Limits>, identifier: string, endpoint: string, d: real)
    returns (qs: seq<Query>, now: real)
    requires LimitsOf(c, State(map[], endpoints, 0.0), endpoint).maxRequests == 1 && ':' !in endpoint
    requires LimitsOf(c, State(map[], endpoints, 0.0), endpoint).window < 0
    requires d + LimitsOf(c, State(map[], endpoints, 0.0), endpoint).window as real > 0.0
    ensures Plainly(qs) && FallsBack(qs, 0.0, d) && now >= Highest(qs, 0.0) - d
    ensures !ExactAfter(c, endpoints, 0.0, qs, identifier, endpoint, now)
  {
    var s0, key := State(map[], endpoints, 0.0), Key(identifier, endpoint);
    var limits := LimitsOf(c, s0, endpoint);
    var w := limits.window as real;
    var q, r := IsAllowed(identifier, endpoint, 0.0), IsAllowed(identifier, endpoint, w);
    qs, now := [q, r], Later(w + w, 0.0 - d);
    TwoFallBack(q, r, 0.0, d);
    FirstCall(c, s0, identifier, endpoint);
    var s1 := Serve(c, s0, q);
    var s2 := Serve(c, s1, r);
    OldIsDropped(c, s1, identifier, endpoint, w);
    TwoLead(c, s0, q, r, key);
    FreshLog(c, s0, qs, key, s2, [0.0] + [w]);
    OldIsDropped(c, s2, identifier, endpoint, now);
    OneStillLive(Entered(c, s0, [], qs), key, limits, now, [0.0], [w]);
  }

  /** With no cleanup due, a limit of one allows a call at `t` when the one time kept is out of its window. */
  lemma OldIsDropped(c: Config, s: State, identifier: string, endpoint: string, t: real)
    requires t - s.lastCleanup < c.cleanupInterval as real && LimitsOf(c, s, endpoint).maxRequests == 1
    requires UpTo(TimesAt(s, Key(identifier, endpoint)), t - LimitsOf(c, s, endpoint).window as real)
    ensures
      var q, key := IsAllowed(identifier, endpoint, t), Key(identifier, endpoint);
      && Allow(c, s, identifier, endpoint, t).1
      && Serve(c, s, q) == With(s, key, [t]) && Added(c, s, q, key) == [t]
  {
    assert Cleanup(c, s, t) == s;
    PruneAll(TimesAt(s, Key(identifier, endpoint)), t - LimitsOf(c, s, endpoint).window as real);
    assert [] + [t] == [t];
  }

  lemma OneStillLive(log: seq<Admission>, key: string, limits: Limits, now: real, live: seq<real>, rest: seq<real>)
    requires limits.maxRequests == 1 && Logged(log, key) == live + rest
    requires live != [] && LaterThan(live, now - limits.window as real)
    ensures !Within(log, key, limits, now)
  {
    AfterConcat(live, rest, now - limits.window as real);
    AfterAll(live, now - limits.window as real);
  }

  /**
   A limit of one, if the window and what the clock falls back together pass the
   global window: a call for somebody else sets off a cleanup, and a call read
   before it is allowed although the one forgotten is in its window.
   */
  lemma CleanedUpByAnother(c: Config, endpoints: map<string, Limits>, identifier: string, other: string,
                           endpoint: string, d: real)
    returns (started: real, qs: seq<Query>, now: real)
    requires LimitsOf(c, State(map[], endpoints, 0.0), endpoint).maxRequests == 1
    requires ':' !in endpoint && other != identifier && d >= 0.0
    requires d + LimitsOf(c, State(map[], endpoints, 0.0), endpoint).window as real > c.windowSeconds as real
    ensures Plainly(qs) && FallsBack(qs, started, d) && now >= Highest(qs, started) - d
    ensures !ExactAfter(c, endpoints, started, qs, identifier, endpoint, now)
  {
    var limits, key := LimitsOf(c, State(map[], endpoints, 0.0), endpoint), Key(identifier, endpoint);
    var t := (d + limits.window as real + c.windowSeconds as real) / 2.0;
    started := if t < c.cleanupInterval as real then t - c.cleanupInterval as real else 0.0;
    var s0 := State(map[], endpoints, started);
    var q, r := IsAllowed(identifier, endpoint, 0.0), IsAllowed(other, endpoint, t);
    qs, now := [q, r], t - d;
    TwoFallBack(q, r, started, d);
    FirstCall(c, s0, identifier, endpoint);
    KeysAreDistinct(identifier, endpoint, other, endpoint);
    var s1 := Serve(c, s0, q);
    ForgottenFor(c, s1, other, endpoint, t, key);
    TwoLead(c, s0, q, r, key);
    FreshLog(c, s0, qs, key, Serve(c, s1, r), [0.0] + []);
    OneStillLive(Entered(c, s0, [], qs), key, limits, now, [0.0], []);
    FewAreAllowed(c, Serve(c, s1, r), identifier, endpoint, now);
  }

  /** A call for one key, when a cleanup is due, forgets another whose last time is stale. */
  lemma ForgottenFor(c: Config, s: State, other: string, endpoint: string, t: real, key: string)
    requires t - s.lastCleanup >= c.cleanupInterval as real && Key(other, endpoint) != key
    requires Stale(TimesAt(s, key), t - c.windowSeconds as real)
    ensures
      var r := IsAllowed(other, endpoint, t);
      TimesAt(Serve(c, s, r), key) == [] && Added(c, s, r, key) == [] && Serve(c, s, r).endpoints == s.endpoints
  {
  }

  /**
   Exactly which clocks an endpoint can stand in the gateway, which makes calls
   and asks for reset times only: as in `ExactWithinIff`, and with a limit of
   one as long as cleanup cannot reach into its window.
   */
  lemma ExactPlainlyIff(c: Config, endpoints: map<string, Limits>, endpoint: string, d: real)
    requires ':' !in endpoint && d >= 0.0
    ensures
      var s0 := State(map[], endpoints, 0.0);
      var limits := LimitsOf(c, s0, endpoint);
      ExactPlainly(c, endpoints, endpoint, d)
      <==> limits.maxRequests <= 0 || d + limits.window as real <= 0.0
           || (d == 0.0 && limits.window <= c.windowSeconds) || OneAtATime(c, s0, endpoint, d)
  {
    var s0 := State(map[], endpoints, 0.0);
    var limits := LimitsOf(c, s0, endpoint);
    if limits.maxRequests <= 0 || d + limits.window as real <= 0.0 || (d == 0.0 && limits.window <= c.windowSeconds) {
      ExactWithinIff(c, endpoints, endpoint, d);
    } else if OneAtATime(c, s0, endpoint, d) {
      forall started, qs, identifier, now
        | Plainly(qs) && FallsBack(qs, started, d) && now >= Highest(qs, started) - d
        ensures ExactAfter(c, endpoints, started, qs, identifier, endpoint, now)
      {
        OneIsExact(c, endpoints, started, qs, identifier, endpoint, now, d);
      }
    } else {
      FailsPlainly(c, endpoints, endpoint, d);
    }
  }

  lemma FailsPlainly(c: Config, endpoints: map<string, Limits>, endpoint: string, d: real)
    requires ':' !in endpoint && d >= 0.0
    requires
      var s0 := State(map[], endpoints, 0.0);
      var limits := LimitsOf(c, s0, endpoint);
      && limits.maxRequests > 0 && d + limits.window as real > 0.0
      && (d > 0.0 || limits.window > c.windowSeconds) && !OneAtATime(c, s0, endpoint, d)
    ensures !ExactPlainly(c, endpoints, endpoint, d)
  {
    var limits := LimitsOf(c, State(map[], endpoints, 0.0), endpoint);
    if limits.maxRequests == 1 && limits.window < 0 {
      var qs, now := LowerCallHides(c, endpoints, "", endpoint, d);
      assert !ExactAfter(c, endpoints, 0.0, qs, "", endpoint, now);
    } else if limits.maxRequests == 1 {
      var started, qs, now := CleanedUpByAnother(c, endpoints, "", "a", endpoint, d);
      assert !ExactAfter(c, endpoints, started, qs, "", endpoint, now);
    } else if d > 0.0 {
      EarlierPlainCallIsAllowed(c, endpoints, "", endpoint, d);
      assert !ExactAfter(c, endpoints, 0.0, UseUpAndCall("", endpoint, limits), "", endpoint,
                         Later(0.0, limits.window as real) - d);
    } else {
      var started, qs, now := WideWindowForgets(c, endpoints, "", endpoint);
      FallingByNothing(qs, started);
      assert !ExactAfter(c, endpoints, started, qs, "", endpoint, now);
    }
  }

  // ----- what a clock that goes back can do, for every limit -----

  /**
   Hidden calls, for every limit of at least two: one call at `a`, then all the
   rest at an earlier `b`.  Once `b` has left the window, a call is refused
   although `a` alone is in it.
   */
  lemma ClockGoingBackRefuses(c: Config, endpoints: map<string, Limits>, identifier: string, endpoint: string,
                              a: real, b: real, now: real)
    requires LimitsOf(c, State(map[], endpoints, a), endpoint).maxRequests >= 2
    requires b <= now - LimitsOf(c, State(map[], endpoints, a), endpoint).window as real < a <= now
    requires now - a < c.cleanupInterval as real
    ensures
      var s0, key := State(map[], endpoints, a), Key(identifier, endpoint);
      var limits := LimitsOf(c, s0, endpoint);
      var qs := OneThenEarlier(identifier, endpoint, a, b, limits.maxRequests);
      var log := Entered(c, s0, [], qs);
      && |Logged(log, key)| == limits.maxRequests
      && After(Logged(log, key), now - limits.window as real) == 1
      && Within(log, key, limits, now) && !Allow(c, ServeAll(c, s0, qs), identifier, endpoint, now).1
  {
    OneIsLive(c, State(map[], endpoints, a), identifier, endpoint, a, b, now);
    HiddenIsRefused(c, State(map[], endpoints, a), identifier, endpoint, a, b, now);
  }

  lemma HiddenIsRefused(c: Config, s0: State, identifier: string, endpoint: string, a: real, b: real, now: real)
    requires s0.requests == map[] && s0.lastCleanup == a && LimitsOf(c, s0, endpoint).maxRequests >= 2
    requires b <= now - LimitsOf(c, s0, endpoint).window as real < a <= now
    requires now - a < c.cleanupInterval as real
    ensures
      var qs := OneThenEarlier(identifier, endpoint, a, b, LimitsOf(c, s0, endpoint).maxRequests);
      !Allow(c, ServeAll(c, s0, qs), identifier, endpoint, now).1
  {
    var s2 := OneThenEarlierLeads(c, s0, identifier, endpoint, a, b);
    var times := [a] + Many(b, LimitsOf(c, s0, endpoint).maxRequests - 1);
    assert Quiet(c, s2, identifier, endpoint, now, times);
    FullIsRefused(c, s2, identifier, endpoint, now, times);
  }

  lemma OneIsLive(c: Config, s0: State, identifier: string, endpoint: string, a: real, b: real, now: real)
    requires s0.requests == map[] && s0.lastCleanup == a && LimitsOf(c, s0, endpoint).maxRequests >= 2
    requires b <= now - LimitsOf(c, s0, endpoint).window as real < a <= now
    ensures
      var key, limits := Key(identifier, endpoint), LimitsOf(c, s0, endpoint);
      var log := Entered(c, s0, [], OneThenEarlier(identifier, endpoint, a, b, limits.maxRequests));
      && |Logged(log, key)| == limits.maxRequests
      && After(Logged(log, key), now - limits.window as real) == 1 && Within(log, key, limits, now)
  {
    var limits := LimitsOf(c, s0, endpoint);
    var s2 := OneThenEarlierLeads(c, s0, identifier, endpoint, a, b);
    OneIsWithin(Entered(c, s0, [], OneThenEarlier(identifier, endpoint, a, b, limits.maxRequests)),
                Key(identifier, endpoint), limits, a, b, now);
  }

  lemma OneIsWithin(log: seq<Admission>, key: string, limits: Limits, a: real, b: real, now: real)
    requires limits.maxRequests >= 2 && Logged(log, key) == [a] + Many(b, limits.maxRequests - 1)
    requires b <= now - limits.window as real < a
    ensures |Logged(log, key)| == limits.maxRequests && After(Logged(log, key), now - limits.window as real) == 1
    ensures Within(log, key, limits, now)
  {
    var cutoff := now - limits.window as real;
    AfterConcat([a], Many(b, limits.maxRequests - 1), cutoff);
    AfterAll([a], cutoff);
    AfterNone(Many(b, limits.maxRequests - 1), cutoff);
  }

  /** A call at `a`, then all the rest of a limit at `b`. */
  function OneThenEarlier(identifier: string, endpoint: string, a: real, b: real, max: int): seq<Query>
    requires max >= 1
  {
    Burst(identifier, endpoint, a, 1) + Burst(identifier, endpoint, b, max - 1)
  }

  lemma OneThenEarlierLeads(c: Config, s0: State, identifier: string, endpoint: string, a: real, b: real)
    returns (s2: State)
    requires s0.requests == map[] && s0.lastCleanup == a && LimitsOf(c, s0, endpoint).maxRequests >= 2
    requires LimitsOf(c, s0, endpoint).window > 0 && b <= a
    ensures
      var m := LimitsOf(c, s0, endpoint).maxRequests;
      var qs, times := OneThenEarlier(identifier, endpoint, a, b, m), [a] + Many(b, m - 1);
      && ServeAll(c, s0, qs) == s2 && Logged(Entered(c, s0, [], qs), Key(identifier, endpoint)) == times
      && s2 == With(s0, Key(identifier, endpoint), times)
  {
    var key, m := Key(identifier, endpoint), LimitsOf(c, s0, endpoint).maxRequests;
    var first, rest := Burst(identifier, endpoint, a, 1), Burst(identifier, endpoint, b, m - 1);
    var s1 := Filled(s0, identifier, endpoint, a, [], 1);
    s2 := Filled(s1, identifier, endpoint, b, [a], m - 1);
    assert [] + Many(a, 1) == [a] == Many(a, 1);
    BurstIsAdmitted(c, s0, identifier, endpoint, a, [], 1);
    BurstIsAdmitted(c, s1, identifier, endpoint, b, [a], m - 1);
    LeadsOn(c, s0, first, key, s1, [a], rest, s2, Many(b, m - 1));
    FreshLog(c, s0, first + rest, key, s2, [a] + Many(b, m - 1));
    WithTwice(s0, key, [a], [a] + Many(b, m - 1));
  }

  /** A full key whose first time is in the window is refused, whatever stands behind it. */
  lemma FullIsRefused(c: Config, s: State, identifier: string, endpoint: string, now: real, times: seq<real>)
    requires Quiet(c, s, identifier, endpoint, now, times)
    requires times != [] && |times| >= LimitsOf(c, s, endpoint).maxRequests
    ensures !Allow(c, s, identifier, endpoint, now).1
  {
    assert Cleanup(c, s, now) == s;
    assert Prune(times, now - LimitsOf(c, s, endpoint).window as real) == times;
  }

  /** A cleanup that is due comes to the same whenever the calls of a burst meet it. */
  lemma CleanFirst(c: Config, s: State, identifier: string, endpoint: string, t: real, n: nat,
                   key: string, u: State, times: seq<real>)
    requires n > 0 && Leads(c, Cleanup(c, s, t), Burst(identifier, endpoint, t, n), key, u, times)
    ensures Leads(c, s, Burst(identifier, endpoint, t, n), key, u, times)
  {
    var q, d, qs := IsAllowed(identifier, endpoint, t), Cleanup(c, s, t), Burst(identifier, endpoint, t, n);
    assert Cleanup(c, d, t) == d;
    assert Allow(c, s, identifier, endpoint, t) == Allow(c, d, identifier, endpoint, t);
    assert qs[0] == q && Added(c, s, q, key) == Added(c, d, q, key);
  }

  lemma {:induction false} BetweenConcat(a: seq<real>, b: seq<real>, from: real, to: real)
    ensures Between(a + b, from, to) == Between(a, from, to) + Between(b, from, to)
    decreases |b|
  {
    if b == [] {
      assert a + b == a;
    } else {
      assert (a + b)[..|a + b| - 1] == a + b[..|b| - 1];
      BetweenConcat(a, b[..|b| - 1], from, to);
    }
  }

  lemma {:induction false} BetweenMany(t: real, n: nat, from: real, to: real)
    requires from < t <= to
    ensures Between(Many(t, n), from, to) == n
    decreases n
  {
    if n > 0 {
      assert Many(t, n)[..n - 1] == Many(t, n - 1);
      BetweenMany(t, n - 1, from, to);
    }
  }

  /**
   Lost calls, for every limit of at least two: a call at `a`, one at an
   earlier `b`, and a cleanup when `b`, the last stored, is stale.  The limit is
   then allowed all over again, although `a` is still in the window, which now
   holds more than the limit.
   */
  lemma ClockGoingBackAdmits(c: Config, endpoints: map<string, Limits>, started: real,
                             identifier: string, endpoint: string, a: real, b: real, now: real)
    requires LimitsOf(c, State(map[], endpoints, started), endpoint).maxRequests >= 2
    requires now - LimitsOf(c, State(map[], endpoints, started), endpoint).window as real < a <= now && b <= a
    requires b < now - c.windowSeconds as real
    requires a - started < c.cleanupInterval as real <= now - started
    ensures
      var s0, key := State(map[], endpoints, started), Key(identifier, endpoint);
      var limits := LimitsOf(c, s0, endpoint);
      var log := Entered(c, s0, [], TwoThenAll(identifier, endpoint, a, b, now, limits.maxRequests));
      && Logged(log, key) == [a, b] + Many(now, limits.maxRequests)
      && InWindow(Logged(log, key), limits, now) > Bound(limits)
  {
    var s0 := State(map[], endpoints, started);
    var limits := LimitsOf(c, s0, endpoint);
    TwoThenAllLeads(c, s0, identifier, endpoint, a, b, now);
    OverLimit(Logged(Entered(c, s0, [], TwoThenAll(identifier, endpoint, a, b, now, limits.maxRequests)),
                     Key(identifier, endpoint)), limits, a, b, now);
  }

  lemma OverLimit(times: seq<real>, limits: Limits, a: real, b: real, now: real)
    requires limits.maxRequests > 0 && times == [a, b] + Many(now, limits.maxRequests)
    requires now - limits.window as real < a <= now
    ensures InWindow(times, limits, now) > Bound(limits)
  {
    OneOverLimit(a, b, now, limits.maxRequests, now - limits.window as real);
  }

  /** A call at `a`, one at `b`, and then a whole limit at `now`. */
  function TwoThenAll(identifier: string, endpoint: string, a: real, b: real, now: real, max: nat): seq<Query> {
    Burst(identifier, endpoint, a, 1) + Burst(identifier, endpoint, b, 1) + Burst(identifier, endpoint, now, max)
  }

  lemma TwoThenAllLeads(c: Config, s0: State, identifier: string, endpoint: string, a: real, b: real, now: real)
    requires s0.requests == map[] && LimitsOf(c, s0, endpoint).maxRequests >= 2 && b <= a
    requires LimitsOf(c, s0, endpoint).window > 0 && b < now - c.windowSeconds as real
    requires a - s0.lastCleanup < c.cleanupInterval as real <= now - s0.lastCleanup
    ensures
      var m := LimitsOf(c, s0, endpoint).maxRequests;
      Logged(Entered(c, s0, [], TwoThenAll(identifier, endpoint, a, b, now, m)), Key(identifier, endpoint))
      == [a, b] + Many(now, m)
  {
    var key, m := Key(identifier, endpoint), LimitsOf(c, s0, endpoint).maxRequests;
    var q1, q2 := Burst(identifier, endpoint, a, 1), Burst(identifier, endpoint, b, 1);
    var q3 := Burst(identifier, endpoint, now, m);
    var s1 := Filled(s0, identifier, endpoint, a, [], 1);
    var s2 := Filled(s1, identifier, endpoint, b, [a], 1);
    var s3 := Cleanup(c, s2, now);
    var s4 := Filled(s3, identifier, endpoint, now, [], m);
    assert [] + Many(a, 1) == [a] == Many(a, 1) && [a] + Many(b, 1) == [a, b] && Many(b, 1) == [b];
    BurstIsAdmitted(c, s0, identifier, endpoint, a, [], 1);
    BurstIsAdmitted(c, s1, identifier, endpoint, b, [a], 1);
    assert [a] + [b] == [a, b];
    LeadsOn(c, s0, q1, key, s1, [a], q2, s2, [b]);
    StaleIsAllowed(c, s2, identifier, endpoint, now);
    BurstIsAdmitted(c, s3, identifier, endpoint, now, [], m);
    CleanFirst(c, s2, identifier, endpoint, now, m, key, s4, Many(now, m));
    LeadsOn(c, s0, q1 + q2, key, s2, [a, b], q3, s4, Many(now, m));
    FreshLog(c, s0, q1 + q2 + q3, key, s4, [a, b] + Many(now, m));
  }

  lemma OneOverLimit(a: real, b: real, now: real, m: nat, from: real)
    requires from < a <= now
    ensures Between([a, b] + Many(now, m), from, now) > m
  {
    BetweenConcat([a, b], Many(now, m), from, now);
    BetweenConcat([a], [b], from, now);
    assert [a] + [b] == [a, b] && Many(a, 1) == [a];
    BetweenMany(now, m, from, now);
    BetweenMany(a, 1, from, now);
  }

  /**
   And for every positive limit, with no cleanup at all: asking later what is
   left drops what an earlier clock would still count, and twice the limit is
   allowed at one time.
   */
  lemma LateQueryAdmits(c: Config, endpoints: map<string, Limits>, identifier: string, endpoint: string, t: real)
    requires LimitsOf(c, State(map[], endpoints, t), endpoint).maxRequests > 0
    requires LimitsOf(c, State(map[], endpoints, t), endpoint).window > 0
    ensures
      var s0, key := State(map[], endpoints, t), Key(identifier, endpoint);
      var limits := LimitsOf(c, s0, endpoint);
      var log := Entered(c, s0, [], AllTwice(identifier, endpoint, t, limits));
      && Logged(log, key) == Many(t, limits.maxRequests) + Many(t, limits.maxRequests)
      && InWindow(Logged(log, key), limits, t) == 2 * Bound(limits)
  {
    var s0 := State(map[], endpoints, t);
    var limits := LimitsOf(c, s0, endpoint);
    AllTwiceLeads(c, s0, identifier, endpoint, t);
    TwoBursts(t, limits.maxRequests, t - limits.window as real);
  }

  /** A whole limit at `t`, a question one window later, and a whole limit at `t` again. */
  function AllTwice(identifier: string, endpoint: string, t: real, limits: Limits): seq<Query>
    requires limits.maxRequests > 0
  {
    var burst := Burst(identifier, endpoint, t, limits.maxRequests);
    burst + [GetRemaining(identifier, endpoint, t + limits.window as real)] + burst
  }

  lemma AllTwiceLeads(c: Config, s0: State, identifier: string, endpoint: string, t: real)
    requires s0.requests == map[] && s0.lastCleanup == t
    requires LimitsOf(c, s0, endpoint).maxRequests > 0 && LimitsOf(c, s0, endpoint).window > 0
    ensures
      var limits := LimitsOf(c, s0, endpoint);
      Logged(Entered(c, s0, [], AllTwice(identifier, endpoint, t, limits)), Key(identifier, endpoint))
      == Many(t, limits.maxRequests) + Many(t, limits.maxRequests)
  {
    var key, limits := Key(identifier, endpoint), LimitsOf(c, s0, endpoint);
    var m := limits.maxRequests;
    var burst := Burst(identifier, endpoint, t, m);
    var asked := GetRemaining(identifier, endpoint, t + limits.window as real);
    var s2 := BurstThenAsked(c, s0, identifier, endpoint, t);
    var s3 := Filled(s2, identifier, endpoint, t, [], m);
    BurstIsAdmitted(c, s2, identifier, endpoint, t, [], m);
    LeadsOn(c, s0, burst + [asked], key, s2, Many(t, m), burst, s3, Many(t, m));
    FreshLog(c, s0, burst + [asked] + burst, key, s3, Many(t, m) + Many(t, m));
  }

  lemma BurstThenAsked(c: Config, s0: State, identifier: string, endpoint: string, t: real) returns (s2: State)
    requires s0.requests == map[] && s0.lastCleanup == t
    requires LimitsOf(c, s0, endpoint).maxRequests > 0 && LimitsOf(c, s0, endpoint).window > 0
    ensures
      var limits := LimitsOf(c, s0, endpoint);
      Leads(c, s0, Burst(identifier, endpoint, t, limits.maxRequests)
                   + [GetRemaining(identifier, endpoint, t + limits.window as real)],
            Key(identifier, endpoint), s2, Many(t, limits.maxRequests))
    ensures Quiet(c, s2, identifier, endpoint, t, []) && s2.endpoints == s0.endpoints
  {
    var key, limits := Key(identifier, endpoint), LimitsOf(c, s0, endpoint);
    var m := limits.maxRequests;
    var burst := Burst(identifier, endpoint, t, m);
    var asked := GetRemaining(identifier, endpoint, t + limits.window as real);
    var s1 := BurstFills(c, s0, identifier, endpoint, t);
    s2 := With(s1, key, []);
    LateQueryDrops(c, s1, identifier, endpoint, t, m);
    LeadsOn(c, s0, burst, key, s1, Many(t, m), [asked], s2, []);
    assert Many(t, m) + [] == Many(t, m);
    EmptyIsQuiet(c, s1, identifier, endpoint, t);
  }

  lemma BurstFills(c: Config, s0: State, identifier: string, endpoint: string, t: real) returns (s1: State)
    requires s0.requests == map[] && s0.lastCleanup == t
    requires LimitsOf(c, s0, endpoint).maxRequests > 0 && LimitsOf(c, s0, endpoint).window > 0
    ensures
      var key, m := Key(identifier, endpoint), LimitsOf(c, s0, endpoint).maxRequests;
      && Leads(c, s0, Burst(identifier, endpoint, t, m), key, s1, Many(t, m)) && TimesAt(s1, key) == Many(t, m)
    ensures s1.endpoints == s0.endpoints && s1.lastCleanup == t
  {
    var m := LimitsOf(c, s0, endpoint).maxRequests;
    s1 := Filled(s0, identifier, endpoint, t, [], m);
    assert [] + Many(t, m) == Many(t, m);
    BurstIsAdmitted(c, s0, identifier, endpoint, t, [], m);
  }

  lemma EmptyIsQuiet(c: Config, s: State, identifier: string, endpoint: string, t: real)
    requires t - s.lastCleanup < c.cleanupInterval as real && LimitsOf(c, s, endpoint).window > 0
    ensures Quiet(c, With(s, Key(identifier, endpoint), []), identifier, endpoint, t, [])
  {
  }

  lemma TwoBursts(t: real, m: nat, from: real)
    requires from < t
    ensures Between(Many(t, m) + Many(t, m), from, t) == 2 * m
  {
    BetweenConcat(Many(t, m), Many(t, m), from, t);
    BetweenMany(t, m, from, t);
  }

  lemma LateQueryDrops(c: Config, s: State, identifier: string, endpoint: string, t: real, m: nat)
    requires TimesAt(s, Key(identifier, endpoint)) == Many(t, m)
    ensures
      var q := GetRemaining(identifier, endpoint, t + LimitsOf(c, s, endpoint).window as real);
      Leads(c, s, [q], Key(identifier, endpoint), With(s, Key(identifier, endpoint), []), [])
  {
    var w := LimitsOf(c, s, endpoint).window as real;
    PruneAll(Many(t, m), t + w - w);
    OneLeads(c, s, GetRemaining(identifier, endpoint, t + w), Key(identifier, endpoint));
  }

  lemma PruneAll(times: seq<real>, cutoff: real)
    requires UpTo(times, cutoff)
    ensures Prune(times, cutoff) == []
  {
    var n := PruneIs(times, cutoff);
  }

  /**
   Why endpoints must not hold a colon: their keys tell every pair apart, but
   with a colon two endpoints share the times of both.
   */
  lemma KeysAreDistinct(identifier: string, endpoint: string, identifier': string, endpoint': string)
    requires ':' !in endpoint && ':' !in endpoint'
    ensures Key(identifier, endpoint) == Key(identifier', endpoint') <==>
            identifier == identifier' && endpoint == endpoint'
  {
    EndpointOfKey(identifier, endpoint);
    EndpointOfKey(identifier', endpoint');
    assert Key(identifier, endpoint)[|endpoint| + 1..] == identifier;
    assert Key(identifier', endpoint')[|endpoint'| + 1..] == identifier';
  }

  lemma ColonsCollide(a: string, b: string, c: string)
    ensures Key(c, a + ":" + b) == Key(b + ":" + c, a)
  {
    assert (a + ":" + b) + ":" + c == a + ":" + (b + ":" + c);
  }

  // ----- what the class keeps, for all narrow endpoints at once -----

  ghost predicate AllFaithful(c: Config, s: State, log: seq<Admission>, now: real) {
    forall e :: Narrow(c, s, e) ==> Faithful(c, s, log, now, e)
  }

  lemma AllowIsValid(c: Config, s: State, log: seq<Admission>, identifier: string, endpoint: string,
                     before: real, now: real)
    requires AllFaithful(c, s, log, before) && before <= now && ':' !in endpoint
    ensures AllFaithful(c, Allow(c, s, identifier, endpoint, now).0, Enter(c, s, log, identifier, endpoint, now), now)
    ensures Narrow(c, s, endpoint) ==>
              (Allow(c, s, identifier, endpoint, now).1
               <==> Within(log, Key(identifier, endpoint), LimitsOf(c, s, endpoint), now))
  {
    if Narrow(c, s, endpoint) { AllowIsExact(c, s, log, identifier, endpoint, before, now); }
    var t := Allow(c, s, identifier, endpoint, now).0;
    forall e | Narrow(c, t, e) ensures Faithful(c, t, Enter(c, s, log, identifier, endpoint, now), now, e) {
      assert Narrow(c, s, e);
      ServeKeepsFaith(c, s, log, IsAllowed(identifier, endpoint, now), before, e);
    }
  }

  lemma QueryIsValid(c: Config, s: State, log: seq<Admission>, q: Query, before: real)
    requires AllFaithful(c, s, log, before) && before <= q.now && ':' !in q.endpoint && !q.IsAllowed?
    ensures AllFaithful(c, Serve(c, s, q), log, q.now)
  {
    var t := Serve(c, s, q);
    forall e | Narrow(c, t, e) ensures Faithful(c, t, log, q.now, e) {
      assert Narrow(c, s, e);
      ServeKeepsFaith(c, s, log, q, before, e);
    }
  }

  lemma RemainingIsValid(c: Config, s: State, log: seq<Admission>, identifier: string, endpoint: string,
                         before: real, now: real)
    requires AllFaithful(c, s, log, before) && before <= now && ':' !in endpoint
    ensures AllFaithful(c, Remaining(c, s, identifier, endpoint, now).0, log, now)
    ensures
      var limits := LimitsOf(c, s, endpoint);
      Narrow(c, s, endpoint) ==>
        Remaining(c, s, identifier, endpoint, now).1
        == LeftOver(limits.maxRequests, Logged(log, Key(identifier, endpoint)), now - limits.window as real)
  {
    QueryIsValid(c, s, log, GetRemaining(identifier, endpoint, now), before);
    if Narrow(c, s, endpoint) { RemainingIsExact(c, s, log, identifier, endpoint, before, now); }
  }

  lemma ResetIsValid(c: Config, s: State, log: seq<Admission>, identifier: string, endpoint: string,
                     before: real, now: real)
    requires AllFaithful(c, s, log, before) && before <= now && ':' !in endpoint
    ensures AllFaithful(c, ResetTime(c, s, identifier, endpoint, now).0, log, now)
  {
    QueryIsValid(c, s, log, GetReset(identifier, endpoint, now), before);
  }

  /** A new window that is no longer than the old, or for which nothing is promised. */
  predicate FitsIn(c: Config, s: State, endpoint: string, w: int) {
    w <= LimitsOf(c, s, endpoint).window <= c.windowSeconds || w > c.windowSeconds
  }

  /** New limits for an endpoint in use: right from then on, if its window does not grow. */
  lemma ReconfiguredIsValid(c: Config, s: State, log: seq<Admission>, endpoint: string, m: int, w: int, now: real)
    requires AllFaithful(c, s, log, now)
    requires FitsIn(c, s, endpoint, w)
    ensures AllFaithful(c, s.(endpoints := s.endpoints[endpoint := Limits(m, w)]), log, now)
  {
    var t := s.(endpoints := s.endpoints[endpoint := Limits(m, w)]);
    forall e, key | Narrow(c, t, e) && EndpointOf(key) == e ensures FaithfulAt(c, t, log, now, key) {
      assert Faithful(c, s, log, now, e);
      assert FaithfulAt(c, s, log, now, key);
      ShorterKeeps(TimesAt(s, key), Logged(log, key), now, Window(c, s, key), Window(c, t, key));
    }
  }

  lemma ShorterKeeps(kept: seq<real>, all: seq<real>, now: real, window: real, shorter: real)
    requires Keeps(kept, all, now, window) && shorter <= window
    ensures Keeps(kept, all, now, shorter)
  {
  }

  /**
   But if it grows, what its old window dropped is missing: a limit used up at
   time 0 is allowed again at the end of the old window, although the new one,
   no longer than the global window, still holds it.
   */
  lemma GrownWindowForgets(c: Config, endpoints: map<string, Limits>, identifier: string, endpoint: string,
                           m: int, w: int)
    requires ':' !in endpoint && endpoint in endpoints && endpoints[endpoint].maxRequests == m > 0
    requires 0 < endpoints[endpoint].window < w <= c.windowSeconds
    ensures
      var s0, key := State(map[], endpoints, 0.0), Key(identifier, endpoint);
      var now := endpoints[endpoint].window as real;
      var qs := Burst(identifier, endpoint, 0.0, m) + [GetRemaining(identifier, endpoint, 0.0 + now)];
      var s := ServeAll(c, s0, qs);
      var t := s.(endpoints := s.endpoints[endpoint := Limits(m, w)]);
      && Orderly(qs, 0.0) && Latest(qs, 0.0) == now
      && Allow(c, t, identifier, endpoint, now).1
      && After(Logged(Entered(c, s0, [], qs), key), now - w as real) == m
  {
    var s0, key := State(map[], endpoints, 0.0), Key(identifier, endpoint);
    var now := endpoints[endpoint].window as real;
    var burst, asked := Burst(identifier, endpoint, 0.0, m), GetRemaining(identifier, endpoint, 0.0 + now);
    var s2 := BurstThenAsked(c, s0, identifier, endpoint, 0.0);
    FreshLog(c, s0, burst + [asked], key, s2, Many(0.0, m));
    AfterAll(Many(0.0, m), now - w as real);
    BurstIsOrderly(identifier, endpoint, 0.0, m, 0.0);
    OrderlySnoc(burst, asked, 0.0);
    EmptyIsAllowed(c, s2.(endpoints := s2.endpoints[endpoint := Limits(m, w)]), identifier, endpoint, now);
  }

  lemma {:induction false} OrderlySnoc(qs: seq<Query>, q: Query, since: real)
    requires Orderly(qs, since) && Latest(qs, since) <= q.now && ':' !in q.endpoint
    ensures Orderly(qs + [q], since) && Latest(qs + [q], since) == q.now
    decreases |qs|
  {
    if qs == [] {
      assert [q][1..] == [];
      assert qs + [q] == [q];
    } else {
      assert (qs + [q])[0] == qs[0] && (qs + [q])[1..] == qs[1..] + [q];
      assert Latest(qs, since) == Latest(qs[1..], qs[0].now);
      OrderlySnoc(qs[1..], q, qs[0].now);
    }
  }

  /**
   A cleanup takes place when an interval has passed since the last, and leaves
   the keys that have a call no older than the global window, as they are.
   */
  lemma CleanupLeaves(c: Config, s: State, now: real, key: string)
    ensures now < s.lastCleanup + c.cleanupInterval as real ==> Cleanup(c, s, now) == s
    ensures
      var t := Cleanup(c, s, now);
      now >= s.lastCleanup + c.cleanupInterval as real ==>
        && t.lastCleanup == now && t.endpoints == s.endpoints
        && (key in t.requests <==> key in s.requests && s.requests[key] != []
                                   && now - s.requests[key][|s.requests[key]| - 1] <= c.windowSeconds as real)
        && (key in t.requests ==> t.requests[key] == s.requests[key])
  {
  }

  // ----- the class -----

  class RateLimiter {
    const config: Config
    var requests: map<string, seq<real>>
    var endpointConfigs: map<string, Limits>
    var lastCleanup: real
    ghost var log: seq<Admission>          // every call allowed since construction
    ghost var clock: real                  // the latest time seen

    ghost function Now(): State
      reads this
    {
      State(requests, endpointConfigs, lastCleanup)
    }

    /** Holds while limits are fixed before use: every endpoint with a narrow window is kept as the log says. */
    ghost predicate Valid()
      reads this
    {
      AllFaithful(config, Now(), log, clock)
    }

    constructor (config: Config, now: real)
      ensures this.config == config && Now() == State(map[], map[], now) && log == [] && clock == now
      ensures Valid()
    {
      this.config := config;
      requests, endpointConfigs, lastCleanup, log, clock := map[], map[], now, [], now;
      new;
      forall e ensures Faithful(config, Now(), log, clock, e) { FreshIsFaithful(config, map[], now, e); }
    }

    method ConfigureEndpoint(endpoint: string, maxRequests: int, window: int)
      modifies this`endpointConfigs
      ensures endpointConfigs == old(endpointConfigs)[endpoint := Limits(maxRequests, window)]
      ensures old(Valid()) && old(FitsIn(config, Now(), endpoint, window)) ==> Valid()
    {
      if Valid() && FitsIn(config, Now(), endpoint, window) {
        ReconfiguredIsValid(config, Now(), log, endpoint, maxRequests, window, clock);
      }
      endpointConfigs := endpointConfigs[endpoint := Limits(maxRequests, window)];
    }

    method ConfigForEndpoint(endpoint: string) returns (limits: Limits)
      ensures limits == LimitsOf(config, Now(), endpoint)
    {
      limits := if endpoint in endpointConfigs then endpointConfigs[endpoint]
                else Limits(config.maxRequests, config.windowSeconds);
    }

    method MaybeCleanup(now: real)
      modifies this`requests, this`lastCleanup
      ensures Now() == Cleanup(config, old(Now()), now)
    {
      if now - lastCleanup < config.cleanupInterval as real { return; }
      var cutoff := now - config.windowSeconds as real;
      var staleKeys := set key | key in requests && Stale(requests[key], cutoff);
      requests := map key | key in requests && key !in staleKeys :: requests[key];
      lastCleanup := now;
    }

    method Popped(times: seq<real>, cutoff: real) returns (left: seq<real>)
      ensures left == Prune(times, cutoff)
    {
      left := times;
      while left != [] && left[0] <= cutoff
        invariant Prune(left, cutoff) == Prune(times, cutoff)
        decreases |left|
      {
        left := left[1..];
      }
    }

    /**
     On a narrow window, allowed exactly when fewer than the limit of all calls
     ever allowed lie in the last window.
     */
    method IsAllowed(identifier: string, endpoint: string, now: real) returns (allowed: bool)
      requires Valid() && clock <= now && ':' !in endpoint
      modifies this
      ensures Valid() && clock == now && endpointConfigs == old(endpointConfigs)
      ensures endpoint !in endpointConfigs ==>
                (allowed <==> old(After(Logged(log, Key(identifier, endpoint)), now - config.windowSeconds as real))
                              < config.maxRequests)
      ensures endpoint in endpointConfigs && endpointConfigs[endpoint].window <= config.windowSeconds ==>
                (allowed <==> After(old(Logged(log, Key(identifier, endpoint))),
                                    now - endpointConfigs[endpoint].window as real)
                              < endpointConfigs[endpoint].maxRequests)
      ensures log == if allowed then old(log) + [Admission(Key(identifier, endpoint), now)] else old(log)
      ensures Now() == Allow(config, old(Now()), identifier, endpoint, now).0
    {
      AllowIsValid(config, Now(), log, identifier, endpoint, clock, now);
      var limits := ConfigForEndpoint(endpoint);
      MaybeCleanup(now);
      allowed := DecideInPlace(identifier, endpoint, limits, now);
      log := Entering(log, Key(identifier, endpoint), now, allowed);
      clock := now;
    }

    /** The part below the cleanup. */
    method DecideInPlace(identifier: string, endpoint: string, limits: Limits, now: real) returns (allowed: bool)
      requires limits == LimitsOf(config, Now(), endpoint)
      modifies this`requests
      ensures (Now(), allowed) == Decide(config, old(Now()), identifier, endpoint, now)
    {
      var key := Key(identifier, endpoint);
      var times := Popped(if key in requests then requests[key] else [], now - limits.window as real);
      allowed := |times| < limits.maxRequests;
      requests := requests[key := if allowed then times + [now] else times];
    }

    method GetRemainingRequests(identifier: string, endpoint: string, now: real) returns (left: nat)
      requires Valid() && clock <= now && ':' !in endpoint
      modifies this
      ensures Valid() && clock == now && endpointConfigs == old(endpointConfigs) && log == old(log)
      ensures endpoint !in endpointConfigs ==>
                left == LeftOver(config.maxRequests, Logged(log, Key(identifier, endpoint)),
                                 now - config.windowSeconds as real)
      ensures endpoint in endpointConfigs && endpointConfigs[endpoint].window <= config.windowSeconds ==>
                left == LeftOver(endpointConfigs[endpoint].maxRequests, Logged(log, Key(identifier, endpoint)),
                                 now - endpointConfigs[endpoint].window as real)
      ensures Now() == Remaining(config, old(Now()), identifier, endpoint, now).0
    {
      RemainingIsValid(config, Now(), log, identifier, endpoint, clock, now);
      var limits := ConfigForEndpoint(endpoint);
      var key := Key(identifier, endpoint);
      var times := Popped(if key in requests then requests[key] else [], now - limits.window as real);
      requests := requests[key := times];
      left := if limits.maxRequests > |times| then limits.maxRequests - |times| else 0;
      clock := now;
    }

    method GetResetTime(identifier: string, endpoint: string, now: real) returns (reset: real)
      requires Valid() && clock <= now && ':' !in endpoint
      modifies this
      ensures Valid() && clock == now && endpointConfigs == old(endpointConfigs) && log == old(log)
      ensures (Now(), reset) == ResetTime(config, old(Now()), identifier, endpoint, now)
    {
      ResetIsValid(config, Now(), log, identifier, endpoint, clock, now);
      var limits := ConfigForEndpoint(endpoint);
      var key := Key(identifier, endpoint);
      var times := if key in requests then requests[key] else [];
      requests := requests[key := times];
      reset := if times == [] then now else times[0] + limits.window as real;
      clock := now;
    }
  }
}

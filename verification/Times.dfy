/** Counting the times later than a cutoff, shared by the limiter and the breaker. */
module Times {
  /** How many of `times` are later than `since`. */
  function After(times: seq<real>, since: real): nat
    decreases |times|
  {
    if times == [] then 0
    else After(times[..|times| - 1], since) + if times[|times| - 1] > since then 1 else 0
  }

  predicate UpTo(times: seq<real>, now: real) {
    forall i :: 0 <= i < |times| ==> times[i] <= now
  }

  lemma UpToSnoc(times: seq<real>, since: real, now: real)
    requires UpTo(times, since) && since <= now
    ensures UpTo(times, now) && UpTo(times + [now], now)
  {
  }

  lemma {:induction false} AfterConcat(a: seq<real>, b: seq<real>, since: real)
    ensures After(a + b, since) == After(a, since) + After(b, since)
    decreases |b|
  {
    if b == [] {
      assert a + b == a;
    } else {
      assert (a + b)[..|a + b| - 1] == a + b[..|b| - 1];
      AfterConcat(a, b[..|b| - 1], since);
    }
  }

  predicate LaterThan(times: seq<real>, since: real) {
    forall i :: 0 <= i < |times| ==> times[i] > since
  }

  lemma {:induction false} AfterNone(a: seq<real>, since: real)
    requires UpTo(a, since)
    ensures After(a, since) == 0
    decreases |a|
  {
    if a != [] { AfterNone(a[..|a| - 1], since); }
  }

  lemma {:induction false} AfterAll(a: seq<real>, since: real)
    requires LaterThan(a, since)
    ensures After(a, since) == |a|
    decreases |a|
  {
    if a != [] { AfterAll(a[..|a| - 1], since); }
  }

  lemma {:induction false} AfterNoneIff(a: seq<real>, since: real)
    ensures After(a, since) == 0 <==> UpTo(a, since)
    decreases |a|
  {
    if a != [] {
      var front, last := a[..|a| - 1], a[|a| - 1];
      AfterNoneIff(front, since);
      assert forall i :: 0 <= i < |a| ==> a[i] == if i < |front| then front[i] else last;
    }
  }

  lemma {:induction false} AfterAllIff(a: seq<real>, since: real)
    ensures After(a, since) <= |a| && (After(a, since) == |a| <==> LaterThan(a, since))
    decreases |a|
  {
    if a != [] {
      var front, last := a[..|a| - 1], a[|a| - 1];
      AfterAllIff(front, since);
      assert forall i :: 0 <= i < |a| ==> a[i] == if i < |front| then front[i] else last;
    }
  }

  lemma {:induction false} AfterIsAntitone(times: seq<real>, a: real, b: real)
    requires a <= b
    ensures After(times, b) <= After(times, a)
    decreases |times|
  {
    if times != [] { AfterIsAntitone(times[..|times| - 1], a, b); }
  }
}

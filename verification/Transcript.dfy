/**
 Transcripts as the gateway judges them: an assistant message with tool calls
 must be followed at once by one result for each call, in order, and no result
 may stand anywhere else.
 */
module Transcript {
  import opened Wrappers

  /** `function.arguments` of a stored call: the text the client keeps, or an already decoded record. */
  datatype Arguments = Text(text: string) | Fields(path: string)

  datatype Call = Call(id: string, name: string, arguments: Arguments)

  /** What the loop guard adds to a result. */
  datatype Remark = NoRemark | Repeated(times: nat) | GivingUp(times: nat)

  datatype Message =
    | User(rules: bool, content: string)
    | Notice(dropped: nat)                    // role "user", put there by compaction
    | Assistant(content: string, calls: seq<Call>)
    | Tool(id: string, content: string, remark: Remark)

  function Ids(calls: seq<Call>): (ids: seq<string>)
    ensures |ids| == |calls| && forall k :: 0 <= k < |ids| ==> ids[k] == calls[k].id
  {
    seq(|calls|, k requires 0 <= k < |calls| => calls[k].id)
  }

  predicate Distinct<T(==)>(s: seq<T>) {
    forall j, k :: 0 <= j < k < |s| ==> s[j] != s[k]
  }

  /** Neither a result nor a request for one. */
  predicate Plain(m: Message) {
    m.User? || m.Notice? || (m.Assistant? && m.calls == [])
  }

  // ----- reading a transcript from the front -----

  /** The calls still to be answered after `m`; None once the order is broken. */
  function After(open: Option<seq<string>>, m: Message): Option<seq<string>> {
    match open
    case None => None
    case Some(ids) =>
      if m.Tool? then
        if ids != [] && ids[0] == m.id then Some(ids[1..]) else None
      else if ids != [] then None
      else if m.Assistant? then Some(Ids(m.calls))
      else Some([])
  }

  function Pending(ms: seq<Message>): Option<seq<string>> {
    if ms == [] then Some([]) else After(Pending(ms[..|ms| - 1]), ms[|ms| - 1])
  }

  /** What the gateway takes. */
  predicate Acceptable(ms: seq<Message>) { Pending(ms) == Some([]) }

  lemma PendingSnoc(ms: seq<Message>, m: Message)
    ensures Pending(ms + [m]) == After(Pending(ms), m)
  {
    assert (ms + [m])[..|ms|] == ms;
  }

  function AfterAll(open: Option<seq<string>>, ms: seq<Message>): Option<seq<string>> {
    if ms == [] then open else After(AfterAll(open, ms[..|ms| - 1]), ms[|ms| - 1])
  }

  lemma {:induction false} PendingConcat(a: seq<Message>, b: seq<Message>)
    ensures Pending(a + b) == AfterAll(Pending(a), b)
    decreases |b|
  {
    if b == [] {
      assert a + b == a;
    } else {
      assert (a + b)[..|a + b| - 1] == a + b[..|b| - 1];
      PendingConcat(a, b[..|b| - 1]);
    }
  }

  lemma {:induction false} AfterAllFromClosed(b: seq<Message>)
    ensures AfterAll(Some([]), b) == Pending(b)
    decreases |b|
  {
    if b != [] { AfterAllFromClosed(b[..|b| - 1]); }
  }

  /** Once broken, a transcript stays broken however it goes on. */
  lemma {:induction false} BrokenStaysBroken(a: seq<Message>, b: seq<Message>)
    requires Pending(a) == None
    ensures Pending(a + b) == None
    decreases |b|
  {
    if b == [] {
      assert a + b == a;
    } else {
      BrokenStaysBroken(a, b[..|b| - 1]);
      assert (a + b)[..|a + b| - 1] == a + b[..|b| - 1];
    }
  }

  /** A suffix that does not start with a result stands on its own. */
  lemma SuffixStands(ms: seq<Message>, j: nat)
    requires Pending(ms).Some? && j <= |ms|
    requires j < |ms| ==> !ms[j].Tool?
    requires j == |ms| ==> Acceptable(ms)
    ensures Acceptable(ms[..j]) && Pending(ms[j..]) == Pending(ms)
  {
    assert ms == ms[..j] + ms[j..];
    if j < |ms| {
      PrefixesRead(ms, j);
      PrefixesRead(ms, j + 1);
      assert ms[..j + 1][..j] == ms[..j];
    } else {
      assert ms[..j] == ms;
    }
    PendingConcat(ms[..j], ms[j..]);
    AfterAllFromClosed(ms[j..]);
  }

  lemma PrefixesRead(ms: seq<Message>, j: nat)
    requires Pending(ms).Some? && j <= |ms|
    ensures Pending(ms[..j]).Some?
  {
    assert ms == ms[..j] + ms[j..];
    if Pending(ms[..j]) == None {
      BrokenStaysBroken(ms[..j], ms[j..]);
    }
  }

  // ----- the same, said of the whole transcript at once -----

  /** Position `j` is where some call of the assistant message at `i` must be answered. */
  predicate InBlock(ms: seq<Message>, i: nat, j: nat) {
    i < |ms| && ms[i].Assistant? && i < j <= i + |ms[i].calls|
  }

  predicate Answers(ms: seq<Message>, i: nat, j: nat)
    requires InBlock(ms, i, j)
  {
    j < |ms| && ms[j].Tool? && ms[j].id == ms[i].calls[j - i - 1].id
  }

  /** Every call is answered directly behind its message, in order; nothing else is an answer. */
  ghost predicate EveryCallAnsweredOnce(ms: seq<Message>) {
    && (forall i: nat, j: nat :: InBlock(ms, i, j) ==> Answers(ms, i, j))
    && NoOrphan(ms, |ms|)
  }

  ghost predicate NoOrphan(ms: seq<Message>, n: nat)
    requires n <= |ms|
  {
    forall j: nat :: j < n && ms[j].Tool? ==> exists i: nat :: InBlock(ms, i, j)
  }

  /** `open` is what the last assistant message among the first `n` still lacks. */
  ghost predicate Remaining(ms: seq<Message>, n: nat, open: seq<string>) {
    && (forall i: nat :: i < n && InBlock(ms, i, n) ==> open == Ids(ms[i].calls)[n - i - 1..])
    && (open != [] ==> exists i: nat :: i < n && InBlock(ms, i, n))
  }

  /** The message at `m` is what the open calls before it require. */
  lemma TakesNext(ms: seq<Message>, m: nat, before: seq<string>)
    requires m < |ms| && Remaining(ms, m, before) && After(Some(before), ms[m]).Some?
    ensures forall i: nat :: InBlock(ms, i, m) ==> Answers(ms, i, m)
    ensures ms[m].Tool? ==> exists i: nat :: i < m && InBlock(ms, i, m)
  {
    forall i: nat | InBlock(ms, i, m) ensures Answers(ms, i, m) {
      assert before[0] == ms[i].calls[m - i - 1].id;
    }
  }

  lemma RemainingStep(ms: seq<Message>, m: nat, before: seq<string>)
    requires m < |ms| && Remaining(ms, m, before) && After(Some(before), ms[m]).Some?
    ensures Remaining(ms, m + 1, After(Some(before), ms[m]).value)
  {
    var now := After(Some(before), ms[m]).value;
    forall i: nat | i < m + 1 && InBlock(ms, i, m + 1) ensures now == Ids(ms[i].calls)[m - i..] {
      if i < m {
        assert InBlock(ms, i, m);
        var ids := Ids(ms[i].calls);
        assert before == ids[m - i - 1..] && before[1..] == ids[m - i..];
        TakesNext(ms, m, before);
        assert Answers(ms, i, m);
      }
    }
    if now != [] {
      if ms[m].Tool? {
        var i: nat :| i < m && InBlock(ms, i, m);
        assert |before| == |ms[i].calls| - (m - i - 1);
        assert InBlock(ms, i, m + 1);
      } else {
        assert InBlock(ms, m, m + 1);
      }
    }
  }

  /** What reading the first `n` messages establishes. */
  ghost predicate OpenAfter(ms: seq<Message>, n: nat, open: seq<string>)
    requires n <= |ms|
  {
    && (forall i: nat, j: nat :: j < n && InBlock(ms, i, j) ==> Answers(ms, i, j))
    && NoOrphan(ms, n)
    && Remaining(ms, n, open)
  }

  lemma OpenStep(ms: seq<Message>, m: nat, before: seq<string>)
    requires m < |ms| && OpenAfter(ms, m, before) && After(Some(before), ms[m]).Some?
    ensures OpenAfter(ms, m + 1, After(Some(before), ms[m]).value)
  {
    TakesNext(ms, m, before);
    RemainingStep(ms, m, before);
  }

  lemma {:induction false} ReadingIsOpen(ms: seq<Message>, n: nat)
    requires n <= |ms| && Pending(ms[..n]).Some?
    ensures OpenAfter(ms, n, Pending(ms[..n]).value)
    decreases n
  {
    if n > 0 {
      var before := ms[..n - 1];
      assert ms[..n] == before + [ms[n - 1]];
      PendingSnoc(before, ms[n - 1]);
      ReadingIsOpen(ms, n - 1);
      OpenStep(ms, n - 1, Pending(before).value);
    }
  }

  lemma {:induction false} OpenIsReading(ms: seq<Message>, n: nat)
    requires n <= |ms| && EveryCallAnsweredOnce(ms)
    ensures Pending(ms[..n]).Some?
    decreases n
  {
    if n > 0 {
      OpenIsReading(ms, n - 1);
      ReadingIsOpen(ms, n - 1);
      assert ms[..n][..n - 1] == ms[..n - 1] && ms[..n][n - 1] == ms[n - 1];
      if Pending(ms[..n - 1]).value != [] || ms[n - 1].Tool? {
        var i: nat :| InBlock(ms, i, n - 1);
        assert Answers(ms, i, n - 1);
      }
    }
  }

  /** The gateway's reading accepts exactly the transcripts in which every call is answered once. */
  lemma AcceptableIff(ms: seq<Message>)
    ensures Acceptable(ms) <==> EveryCallAnsweredOnce(ms)
  {
    var n := |ms|;
    assert ms[..n] == ms;
    if Acceptable(ms) {
      ReadingIsOpen(ms, n);
      forall i: nat, j: nat | InBlock(ms, i, j) ensures Answers(ms, i, j) {
        assert j >= n ==> InBlock(ms, i, n);
      }
    }
    if EveryCallAnsweredOnce(ms) {
      OpenIsReading(ms, n);
      ReadingIsOpen(ms, n);
    }
  }

  /** Two results for one call side by side always break a transcript whose ids are distinct. */
  lemma DoubledResultBreaks(a: seq<Message>, t: Message, b: seq<Message>)
    requires t.Tool? && forall m :: m in a && m.Assistant? ==> Distinct(Ids(m.calls))
    ensures Pending(a + [t, t] + b) == None
  {
    OpenIsDistinct(a);
    assert a + [t, t] == a + [t] + [t];
    PendingSnoc(a, t);
    PendingSnoc(a + [t], t);
    BrokenStaysBroken(a + [t, t], b);
  }

  lemma {:induction false} OpenIsDistinct(a: seq<Message>)
    requires forall m :: m in a && m.Assistant? ==> Distinct(Ids(m.calls))
    ensures Pending(a).Some? ==> Distinct(Pending(a).value)
    decreases |a|
  {
    if a != [] { OpenIsDistinct(a[..|a| - 1]); }
  }
}

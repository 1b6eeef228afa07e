/**
 Dropping the middle of a long transcript (`_compact_if_needed`).

 The code reads `function.arguments` of stored calls as a record.  The client
 stores text there, on which the read raises; both kinds are modelled.
 */
module Compaction {
  import opened Wrappers
  import opened Transcript

  const KEEP := 6
  const SHORT := 8

  /** What looking for a result's call among one message's calls comes to. */
  datatype Probe = Hit | Miss | Raises

  predicate TouchesFile(name: string) {
    name == "read_file" || name == "edit_file" || name == "write_file"
  }

  /** Whether one message's calls tie result `id` to a file in `edited`. */
  function ProbeCalls(calls: seq<Call>, id: string, edited: set<string>): Probe
    decreases |calls|
  {
    if calls == [] then Miss
    else
      var c := calls[0];
      if c.id == id && TouchesFile(c.name) && c.arguments.Text? then Raises
      else if c.id == id && TouchesFile(c.name) && c.arguments.path in edited then Hit
      else ProbeCalls(calls[1..], id, edited)
  }

  function ProbeMessage(m: Message, id: string, edited: set<string>): Probe {
    if m.Assistant? then ProbeCalls(m.calls, id, edited) else Miss
  }

  /** How many extra copies of result `id` the tail receives; None when the probe raises. */
  function Copies(ms: seq<Message>, id: string, edited: set<string>): Option<nat> {
    if ms == [] then Some(0)
    else
      match Copies(ms[..|ms| - 1], id, edited)
      case None => None
      case Some(n) =>
        match ProbeMessage(ms[|ms| - 1], id, edited)
        case Raises => None
        case Hit => Some(n + 1)
        case Miss => Some(n)
  }

  function CopiesOf(ms: seq<Message>, m: Message, edited: set<string>): Option<nat> {
    if m.Tool? && edited != {} then Copies(ms, m.id, edited) else Some(0)
  }

  function Repeat(m: Message, n: nat): (r: seq<Message>)
    ensures |r| == n && forall k :: 0 <= k < n ==> r[k] == m
  {
    seq(n, _ => m)
  }

  /** The last messages, each behind its extra copies. */
  function Tail(ms: seq<Message>, window: seq<Message>, edited: set<string>): Option<seq<Message>>
    decreases |window|
  {
    if window == [] then Some([])
    else
      match Tail(ms, window[1..], edited)
      case None => None
      case Some(rest) =>
        match CopiesOf(ms, window[0], edited)
        case None => None
        case Some(n) => Some(Repeat(window[0], n + 1) + rest)
  }

  function DropResults(tail: seq<Message>): seq<Message>
    decreases |tail|
  {
    if tail != [] && tail[0].Tool? then DropResults(tail[1..]) else tail
  }

  /** Naming the dropped files raises when a dropped result answers a `read_file` with text arguments. */
  predicate NamingRaises(ms: seq<Message>, dropped: seq<Message>) {
    exists t, a, k ::
      && t in dropped && t.Tool? && a in ms && a.Assistant? && 0 <= k < |a.calls|
      && a.calls[k].id == t.id && a.calls[k].name == "read_file" && a.calls[k].arguments.Text?
  }

  datatype Outcome = Kept | Compacted(messages: seq<Message>) | Raised

  function LastOf(ms: seq<Message>): seq<Message> {
    if |ms| <= KEEP then ms else ms[|ms| - KEEP..]
  }

  /** `over` is the answer of the token estimate: the window is set and three quarters full. */
  function Compact(ms: seq<Message>, over: bool, edited: set<string>): Outcome {
    if !over || |ms| <= SHORT then Kept
    else
      match Tail(ms, LastOf(ms), edited)
      case None => Raised
      case Some(all) =>
        var tail := DropResults(all);
        if |ms| <= 1 + |tail| then Kept
        else if NamingRaises(ms, ms[1..|ms| - |tail|]) then Raised
        else Compacted(ms[..1] + [Notice(|ms| - 1 - |tail|)] + tail)
  }

  /** The messages that survive: the last six, from the first that is not a result. */
  function Survivors(ms: seq<Message>): seq<Message> {
    DropResults(LastOf(ms))
  }

  predicate NotCopied(ms: seq<Message>, m: Message, edited: set<string>) {
    CopiesOf(ms, m, edited) == None || CopiesOf(ms, m, edited) == Some(0)
  }

  /** No surviving result belongs to a file being edited. */
  predicate Harmless(ms: seq<Message>, edited: set<string>) {
    forall m :: m in Survivors(ms) ==> NotCopied(ms, m, edited)
  }

  // ----- the ordinary case: the tail is a plain suffix -----

  lemma {:induction false} PlainTail(ms: seq<Message>, window: seq<Message>, edited: set<string>)
    requires forall m :: m in window ==> NotCopied(ms, m, edited)
    ensures Tail(ms, window, edited).Some? ==> Tail(ms, window, edited).value == window
    decreases |window|
  {
    if window != [] {
      PlainTail(ms, window[1..], edited);
      assert NotCopied(ms, window[0], edited);
      assert Repeat(window[0], 0 + 1) + window[1..] == window;
    }
  }

  lemma {:induction false} DropIsSuffix(tail: seq<Message>) returns (j: nat)
    ensures j <= |tail| && DropResults(tail) == tail[j..]
    ensures forall k :: 0 <= k < j ==> tail[k].Tool?
    ensures j < |tail| ==> !tail[j].Tool?
    decreases |tail|
  {
    if tail != [] && tail[0].Tool? {
      var i := DropIsSuffix(tail[1..]);
      j := i + 1;
    } else {
      j := 0;
    }
  }

  /** Copies of leading results are results too: dropping them first changes nothing. */
  lemma {:induction false} DropBeforeOrAfter(ms: seq<Message>, window: seq<Message>, edited: set<string>)
    requires Tail(ms, window, edited).Some?
    ensures Tail(ms, DropResults(window), edited)
         == Some(DropResults(Tail(ms, window, edited).value))
    decreases |window|
  {
    if window != [] {
      var rest := Tail(ms, window[1..], edited).value;
      var n := CopiesOf(ms, window[0], edited).value;
      assert (Repeat(window[0], n + 1) + rest)[0] == window[0];
      if window[0].Tool? {
        DropRepeated(window[0], n + 1, rest);
        DropBeforeOrAfter(ms, window[1..], edited);
      }
    }
  }

  lemma {:induction false} DropRepeated(t: Message, n: nat, rest: seq<Message>)
    requires t.Tool?
    ensures DropResults(Repeat(t, n) + rest) == DropResults(rest)
    decreases n
  {
    if n == 0 {
      assert Repeat(t, n) + rest == rest;
    } else {
      assert (Repeat(t, n) + rest)[0] == t && (Repeat(t, n) + rest)[1..] == Repeat(t, n - 1) + rest;
      DropRepeated(t, n - 1, rest);
    }
  }

  /** Whatever is copied, the result is the first message, a notice and the surviving tail. */
  lemma CompactedShape(ms: seq<Message>, over: bool, edited: set<string>) returns (tail: seq<Message>)
    requires Compact(ms, over, edited).Compacted?
    ensures Tail(ms, Survivors(ms), edited) == Some(tail) && |tail| + 1 < |ms|
    ensures Compact(ms, over, edited).messages == [ms[0], Notice(|ms| - 1 - |tail|)] + tail
  {
    DropBeforeOrAfter(ms, LastOf(ms), edited);
    tail := DropResults(Tail(ms, LastOf(ms), edited).value);
    assert ms[..1] + [Notice(|ms| - 1 - |tail|)] == [ms[0], Notice(|ms| - 1 - |tail|)];
  }

  /**
   A compaction that duplicates nothing leaves the first message, one notice
   that counts what is gone, and a contiguous suffix; it shrinks the transcript
   to at most eight messages, so that an immediate second one changes nothing.
   */
  lemma CompactionKeepsEnds(ms: seq<Message>, over: bool, edited: set<string>) returns (j: nat)
    requires Harmless(ms, edited) && Compact(ms, over, edited).Compacted?
    ensures 1 < j <= |ms| && (j < |ms| ==> !ms[j].Tool?)
    ensures |ms| - 6 <= j && forall k :: |ms| - 6 <= k < j ==> ms[k].Tool?
    ensures Survivors(ms) == ms[j..]
    ensures
      var now := Compact(ms, over, edited).messages;
      && now == [ms[0], Notice(j - 1)] + ms[j..]
      && |now| <= 8 < |ms|
      && Compact(now, over, edited) == Kept
  {
    var tail := CompactedShape(ms, over, edited);
    PlainTail(ms, Survivors(ms), edited);
    j := SurvivorsAreSuffix(ms);
    UnderBudgetIsKept(Compact(ms, over, edited).messages, edited);
  }

  lemma SurvivorsAreSuffix(ms: seq<Message>) returns (j: nat)
    requires |ms| > KEEP
    ensures |ms| - KEEP <= j <= |ms| && Survivors(ms) == ms[j..]
    ensures forall k :: |ms| - KEEP <= k < j ==> ms[k].Tool?
    ensures j < |ms| ==> !ms[j].Tool?
  {
    var i := DropIsSuffix(LastOf(ms));
    j := |ms| - KEEP + i;
    assert LastOf(ms)[i..] == ms[j..];
    forall k | |ms| - KEEP <= k < j ensures ms[k].Tool? {
      assert LastOf(ms)[k - (|ms| - KEEP)].Tool?;
    }
  }

  /** Under its budget, and up to eight messages, nothing is dropped, and nothing raises. */
  lemma UnderBudgetIsKept(ms: seq<Message>, edited: set<string>)
    ensures Compact(ms, false, edited) == Kept
    ensures forall over :: |ms| <= 8 ==> Compact(ms, over, edited) == Kept
  {
  }

  /** Such a compaction keeps a transcript acceptable. */
  lemma CompactionKeepsOrder(ms: seq<Message>, over: bool, edited: set<string>)
    requires Harmless(ms, edited) && Compact(ms, over, edited).Compacted?
    requires Acceptable(ms) && Plain(ms[0])
    ensures Acceptable(Compact(ms, over, edited).messages)
  {
    var j := CompactionKeepsEnds(ms, over, edited);
    SuffixStands(ms, j);
    HeadStands(ms[0], j - 1, ms[j..]);
  }

  lemma HeadStands(head: Message, n: nat, tail: seq<Message>)
    requires Plain(head)
    ensures Pending([head, Notice(n)] + tail) == Pending(tail)
  {
    assert [] + [head] == [head] && [head] + [Notice(n)] == [head, Notice(n)];
    PendingSnoc([], head);
    PendingSnoc([head], Notice(n));
    PendingConcat([head, Notice(n)], tail);
    AfterAllFromClosed(tail);
  }

  // ----- when that case holds -----

  /** As the client stores them: every call's arguments are text. */
  predicate TextOnly(ms: seq<Message>) {
    forall m :: m in ms && m.Assistant? ==> forall k :: 0 <= k < |m.calls| ==> m.calls[k].arguments.Text?
  }

  lemma {:induction false} TextNeverHits(calls: seq<Call>, id: string, edited: set<string>)
    requires forall k :: 0 <= k < |calls| ==> calls[k].arguments.Text?
    ensures ProbeCalls(calls, id, edited) != Hit
    decreases |calls|
  {
    if calls != [] { TextNeverHits(calls[1..], id, edited); }
  }

  lemma {:induction false} TextNeverCopies(ms: seq<Message>, id: string, edited: set<string>)
    requires TextOnly(ms)
    ensures Copies(ms, id, edited) == None || Copies(ms, id, edited) == Some(0)
    decreases |ms|
  {
    if ms != [] {
      TextNeverCopies(ms[..|ms| - 1], id, edited);
      var m := ms[|ms| - 1];
      if m.Assistant? { TextNeverHits(m.calls, id, edited); }
    }
  }

  /** Text arguments, or no file being edited: then nothing is duplicated. */
  lemma TextIsHarmless(ms: seq<Message>, edited: set<string>)
    requires TextOnly(ms) || edited == {}
    ensures Harmless(ms, edited)
  {
    forall m | m in Survivors(ms) && m.Tool? && edited != {} ensures NotCopied(ms, m, edited) {
      TextNeverCopies(ms, m.id, edited);
    }
  }

  // ----- exactly when text arguments raise -----

  predicate FileCall(c: Call, id: string) {
    c.id == id && c.name in {"read_file", "edit_file", "write_file"}
  }

  /** Some call with this id, anywhere in the transcript, is of a file tool. */
  predicate AnswersFileTool(ms: seq<Message>, id: string) {
    exists m :: m in ms && m.Assistant? && HasFileCall(m.calls, id)
  }

  predicate HasFileCall(calls: seq<Call>, id: string) {
    exists c :: c in calls && FileCall(c, id)
  }

  lemma {:induction false} ProbeRaisesIff(calls: seq<Call>, id: string, edited: set<string>)
    requires forall k :: 0 <= k < |calls| ==> calls[k].arguments.Text?
    ensures ProbeCalls(calls, id, edited) == Raises <==> HasFileCall(calls, id)
    decreases |calls|
  {
    if calls != [] {
      ProbeRaisesIff(calls[1..], id, edited);
      TextNeverHits(calls[1..], id, edited);
      FirstOrLaterCall(calls, id);
    }
  }

  lemma FirstOrLaterCall(calls: seq<Call>, id: string)
    requires calls != []
    ensures HasFileCall(calls, id) <==> FileCall(calls[0], id) || HasFileCall(calls[1..], id)
  {
    if FileCall(calls[0], id) { assert calls[0] in calls; }
    if HasFileCall(calls[1..], id) {
      var c :| c in calls[1..] && FileCall(c, id);
      assert c in calls;
    }
  }

  lemma {:induction false} CopiesRaiseIff(ms: seq<Message>, id: string, edited: set<string>)
    requires TextOnly(ms)
    ensures Copies(ms, id, edited) == None <==> AnswersFileTool(ms, id)
    decreases |ms|
  {
    if ms != [] {
      var m, before := ms[|ms| - 1], ms[..|ms| - 1];
      CopiesRaiseIff(before, id, edited);
      if m.Assistant? { ProbeRaisesIff(m.calls, id, edited); }
      assert forall x :: x in ms <==> x in before || x == m;
    }
  }

  /** Looking for extra copies of a result reads the arguments of a file tool's call. */
  predicate Inspected(ms: seq<Message>, m: Message, edited: set<string>) {
    m.Tool? && edited != {} && AnswersFileTool(ms, m.id)
  }

  predicate InspectsAny(ms: seq<Message>, window: seq<Message>, edited: set<string>) {
    exists m :: m in window && Inspected(ms, m, edited)
  }

  lemma FirstOrLaterInspected(ms: seq<Message>, window: seq<Message>, edited: set<string>)
    requires window != []
    ensures InspectsAny(ms, window, edited)
       <==> Inspected(ms, window[0], edited) || InspectsAny(ms, window[1..], edited)
  {
    if Inspected(ms, window[0], edited) { assert window[0] in window; }
    if InspectsAny(ms, window[1..], edited) {
      var m :| m in window[1..] && Inspected(ms, m, edited);
      assert m in window;
    }
  }

  lemma {:induction false} TailRaisesIff(ms: seq<Message>, window: seq<Message>, edited: set<string>)
    requires TextOnly(ms)
    ensures Tail(ms, window, edited) == None <==> InspectsAny(ms, window, edited)
    decreases |window|
  {
    if window != [] {
      TailRaisesIff(ms, window[1..], edited);
      FirstOrLaterInspected(ms, window, edited);
      if window[0].Tool? { CopiesRaiseIff(ms, window[0].id, edited); }
    }
  }

  /**
   With text arguments, as the client stores them, a long transcript over its
   budget raises exactly when one of its last six messages is the result of a
   file tool while some file is being edited, or a dropped message is the
   result of a `read_file`.  Otherwise it compacts.
   */
  lemma TextRaisesIff(ms: seq<Message>, edited: set<string>) returns (j: nat)
    requires TextOnly(ms) && |ms| > 8
    ensures |ms| - 6 <= j <= |ms| && Survivors(ms) == ms[j..]
    ensures Compact(ms, true, edited).Raised?
       <==> InspectsAny(ms, ms[|ms| - 6..], edited) || DropsRead(ms, ms[1..j])
    ensures !Compact(ms, true, edited).Raised? ==> Compact(ms, true, edited).Compacted?
  {
    j := SurvivorsAreSuffix(ms);
    NamingRaisesIff(ms, ms[1..j]);
    TailRaisesIff(ms, LastOf(ms), edited);
    TextIsHarmless(ms, edited);
    if Tail(ms, LastOf(ms), edited).Some? {
      DropBeforeOrAfter(ms, LastOf(ms), edited);
      PlainTail(ms, Survivors(ms), edited);
    }
  }

  /** Some message dropped is the result of a call, asked for anywhere, of `read_file`. */
  ghost predicate DropsRead(ms: seq<Message>, dropped: seq<Message>) {
    exists t, a, c :: AnswersRead(t, a, c) && t in dropped && a in ms
  }

  predicate AnswersRead(t: Message, a: Message, c: Call) {
    t.Tool? && a.Assistant? && c in a.calls && c.name == "read_file" && c.id == t.id
  }

  lemma NamingRaisesIff(ms: seq<Message>, dropped: seq<Message>)
    requires TextOnly(ms)
    ensures NamingRaises(ms, dropped) <==> DropsRead(ms, dropped)
  {
    if NamingRaises(ms, dropped) {
      var t, a, k :|
        && t in dropped && t.Tool? && a in ms && a.Assistant? && 0 <= k < |a.calls|
        && a.calls[k].id == t.id && a.calls[k].name == "read_file" && a.calls[k].arguments.Text?;
      assert AnswersRead(t, a, a.calls[k]);
    }
    if DropsRead(ms, dropped) {
      var t, a, c :| AnswersRead(t, a, c) && t in dropped && a in ms;
      var k :| 0 <= k < |a.calls| && a.calls[k] == c;
      assert a.calls[k].id == t.id && a.calls[k].arguments.Text?;
    }
  }

  /** A session of questions with one call of a file tool near its end. */
  function WithTextArguments(tool: string): seq<Message> {
    var u := User(false, "");
    Repeat(u, 12) + [Assistant("", [Call("c", tool, Text("{}"))]), Tool("c", "", NoRemark), u]
  }

  /** Every file tool's result near the end makes compaction raise while a file is being edited. */
  lemma RecentResultRaises(tool: string, edited: set<string>)
    requires tool in {"read_file", "edit_file", "write_file"} && edited != {}
    ensures Acceptable(WithTextArguments(tool)) && Compact(WithTextArguments(tool), true, edited).Raised?
  {
    var ms := WithTextArguments(tool);
    OneCallIsAcceptable(ms);
    var j := TextRaisesIff(ms, edited);
    assert FileCall(ms[12].calls[0], "c");
    assert HasFileCall(ms[12].calls, "c");
    assert ms[12] in ms && AnswersFileTool(ms, "c");
    assert LastOf(ms)[4] == ms[13] && Inspected(ms, LastOf(ms)[4], edited);
  }

  /** So does, with no file being edited, the dropped result of a read. */
  lemma DroppedReadRaises(later: seq<Message>)
    requires |later| >= KEEP + 2 && forall m :: m in later ==> m.User?
    ensures Compact(ReadThen(later), true, {}).Raised?
  {
    var ms := ReadThen(later);
    assert TextOnly(ms);
    var j := TextRaisesIff(ms, {});
    assert ms[1..j][1] == ms[2] && ms[2].Tool? && ms[1] in ms;
    assert AnswersRead(ms[2], ms[1], ms[1].calls[0]);
  }

  function ReadThen(later: seq<Message>): seq<Message> {
    [User(false, ""), Assistant("", [Call("c", "read_file", Text("{}"))]), Tool("c", "", NoRemark)] + later
  }

  lemma OneCallIsAcceptable(ms: seq<Message>)
    requires |ms| == 15 && ms[12].Assistant? && |ms[12].calls| == 1
    requires ms[13].Tool? && ms[13].id == ms[12].calls[0].id
    requires forall k :: 0 <= k < 15 && k != 12 && k != 13 ==> ms[k].User?
    ensures Acceptable(ms)
  {
    assert forall i: nat, j: nat :: InBlock(ms, i, j) ==> i == 12 && j == 13;
    assert InBlock(ms, 12, 13);
    AcceptableIff(ms);
  }

  // ----- exactly when a duplicate does harm -----

  lemma {:induction false} TailConcat(ms: seq<Message>, a: seq<Message>, b: seq<Message>, edited: set<string>)
    requires Tail(ms, a + b, edited).Some?
    ensures Tail(ms, a, edited).Some? && Tail(ms, b, edited).Some?
    ensures Tail(ms, a + b, edited).value == Tail(ms, a, edited).value + Tail(ms, b, edited).value
    decreases |a|
  {
    if a == [] {
      assert a + b == b;
    } else {
      assert (a + b)[1..] == a[1..] + b;
      TailConcat(ms, a[1..], b, edited);
    }
  }

  lemma {:induction false} TailIsDrawn(ms: seq<Message>, window: seq<Message>, edited: set<string>, m: Message)
    requires Tail(ms, window, edited).Some? && m in Tail(ms, window, edited).value
    ensures m in window
    decreases |window|
  {
    if m != window[0] { TailIsDrawn(ms, window[1..], edited, m); }
  }

  lemma CopiedTwice(ms: seq<Message>, m: Message, edited: set<string>) returns (more: seq<Message>)
    requires Tail(ms, [m], edited).Some? && !NotCopied(ms, m, edited)
    ensures Tail(ms, [m], edited).value == [m, m] + more
  {
    var none: seq<Message> := [m][1..];
    var copies := Repeat(m, CopiesOf(ms, m, edited).value + 1);
    assert Tail(ms, [m], edited).value == copies + none;
    more := copies[2..];
  }

  lemma Regroup<T>(a: seq<T>, b: seq<T>, c: seq<T>, d: seq<T>)
    ensures a + ((b + c) + d) == a + b + (c + d)
  {
  }

  lemma CopiedShows(ms: seq<Message>, window: seq<Message>, edited: set<string>, m: Message)
    returns (a: seq<Message>, b: seq<Message>)
    requires Tail(ms, window, edited).Some? && m in window && !NotCopied(ms, m, edited)
    ensures Tail(ms, window, edited).value == a + [m, m] + b
    ensures forall x :: x in a ==> x in window
  {
    var k :| 0 <= k < |window| && window[k] == m;
    var before, after := window[..k], window[k + 1..];
    assert window == before + ([m] + after);
    TailConcat(ms, before, [m] + after, edited);
    TailConcat(ms, [m], after, edited);
    var more := CopiedTwice(ms, m, edited);
    a, b := Tail(ms, before, edited).value, more + Tail(ms, after, edited).value;
    Regroup(a, [m, m], more, Tail(ms, after, edited).value);
    forall x | x in a ensures x in window {
      TailIsDrawn(ms, before, edited, x);
    }
  }

  /**
   A compaction keeps an acceptable transcript acceptable exactly when no
   surviving result belongs to a file that is being edited.
   */
  lemma CompactionKeepsOrderIff(ms: seq<Message>, over: bool, edited: set<string>)
    requires Compact(ms, over, edited).Compacted? && Acceptable(ms) && Plain(ms[0])
    requires DistinctIds(ms)
    ensures Acceptable(Compact(ms, over, edited).messages) <==> Harmless(ms, edited)
  {
    if Harmless(ms, edited) {
      CompactionKeepsOrder(ms, over, edited);
    } else {
      CopiedIsBroken(ms, over, edited);
    }
  }

  predicate DistinctIds(ms: seq<Message>) {
    forall m :: m in ms && m.Assistant? ==> Distinct(Ids(m.calls))
  }

  /** Whatever was open before it, a compaction is acceptable exactly when what survives is, and nothing was copied. */
  lemma CompactedPending(ms: seq<Message>, over: bool, edited: set<string>, j: nat)
    requires Compact(ms, over, edited).Compacted? && Plain(ms[0])
    requires j <= |ms| && Survivors(ms) == ms[j..]
    ensures Harmless(ms, edited) ==> (Acceptable(Compact(ms, over, edited).messages) <==> Acceptable(ms[j..]))
    ensures !Harmless(ms, edited) && DistinctIds(ms) ==> !Acceptable(Compact(ms, over, edited).messages)
  {
    if Harmless(ms, edited) {
      SuffixDecides(ms, over, edited);
    } else if DistinctIds(ms) {
      CopiedIsBroken(ms, over, edited);
    }
  }

  lemma SuffixDecides(ms: seq<Message>, over: bool, edited: set<string>)
    requires Compact(ms, over, edited).Compacted? && Plain(ms[0]) && Harmless(ms, edited)
    ensures Pending(Compact(ms, over, edited).messages) == Pending(Survivors(ms))
  {
    var i := CompactionKeepsEnds(ms, over, edited);
    HeadStands(ms[0], i - 1, ms[i..]);
  }

  lemma CopiedIsBroken(ms: seq<Message>, over: bool, edited: set<string>)
    requires Compact(ms, over, edited).Compacted? && !Harmless(ms, edited) && DistinctIds(ms) && Plain(ms[0])
    ensures !Acceptable(Compact(ms, over, edited).messages)
  {
    var t :| t in Survivors(ms) && !NotCopied(ms, t, edited);
    var tail := CompactedShape(ms, over, edited);
    var j := SurvivorsAreSuffix(ms);
    CopyBreaksOrder(ms, Survivors(ms), edited, t, [ms[0], Notice(|ms| - 1 - |tail|)],
                    Compact(ms, over, edited).messages);
  }

  /** The first of the last six that is not a result is where the survivors start. */
  lemma SurvivorsStartAt(ms: seq<Message>, n: nat)
    requires |ms| > KEEP && |ms| - KEEP <= n < |ms| && !ms[n].Tool?
    requires forall k :: |ms| - KEEP <= k < n ==> ms[k].Tool?
    ensures Survivors(ms) == ms[n..]
  {
    var j := SurvivorsAreSuffix(ms);
    assert j == n;
  }

  lemma CopyBreaksOrder(ms: seq<Message>, window: seq<Message>, edited: set<string>, t: Message,
                        head: seq<Message>, now: seq<Message>)
    requires Tail(ms, window, edited).Some? && t in window && !NotCopied(ms, t, edited)
    requires now == head + Tail(ms, window, edited).value
    requires forall m :: (m in head || m in window) && m.Assistant? ==> Distinct(Ids(m.calls))
    ensures Pending(now) == None
  {
    var a, b := CopiedShows(ms, window, edited, t);
    assert now == (head + a) + [t, t] + b;
    DoubledResultBreaks(head + a, t, b);
  }

  // ----- how often a result is put in -----

  /** Every stored call has its arguments as a record. */
  predicate RecordsOnly(ms: seq<Message>) {
    forall m :: m in ms && m.Assistant? ==> forall k :: 0 <= k < |m.calls| ==> m.calls[k].arguments.Fields?
  }

  /** The message asks a file tool, under this id, for a file being edited. */
  predicate AsksForEdited(m: Message, id: string, edited: set<string>) {
    m.Assistant? && HasEditedCall(m.calls, id, edited)
  }

  predicate HasEditedCall(calls: seq<Call>, id: string, edited: set<string>) {
    exists k :: 0 <= k < |calls| && EditedCall(calls[k], id, edited)
  }

  predicate EditedCall(c: Call, id: string, edited: set<string>) {
    && c.id == id && c.name in {"read_file", "edit_file", "write_file"}
    && c.arguments.Fields? && c.arguments.path in edited
  }

  lemma {:induction false} ProbeHitsIff(calls: seq<Call>, id: string, edited: set<string>)
    requires forall k :: 0 <= k < |calls| ==> calls[k].arguments.Fields?
    ensures ProbeCalls(calls, id, edited) == if HasEditedCall(calls, id, edited) then Hit else Miss
    decreases |calls|
  {
    if calls != [] {
      ProbeHitsIff(calls[1..], id, edited);
      if HasEditedCall(calls[1..], id, edited) {
        var k :| 0 <= k < |calls[1..]| && EditedCall(calls[1..][k], id, edited);
        assert EditedCall(calls[k + 1], id, edited);
      }
      if HasEditedCall(calls, id, edited) && !EditedCall(calls[0], id, edited) {
        var k :| 0 <= k < |calls| && EditedCall(calls[k], id, edited);
        assert EditedCall(calls[1..][k - 1], id, edited);
      }
    }
  }

  /** The positions of the messages that do. */
  function Askers(ms: seq<Message>, id: string, edited: set<string>): set<int> {
    set i | 0 <= i < |ms| && AsksForEdited(ms[i], id, edited)
  }

  /** With records, a result gets one copy for each such message, and nothing raises. */
  lemma {:induction false} CopiesAreAskers(ms: seq<Message>, id: string, edited: set<string>)
    requires RecordsOnly(ms)
    ensures Copies(ms, id, edited) == Some(|Askers(ms, id, edited)|)
    decreases |ms|
  {
    if ms != [] {
      var front, last := ms[..|ms| - 1], ms[|ms| - 1];
      assert front + [last] == ms;
      CopiesAreAskers(front, id, edited);
      if last.Assistant? { ProbeHitsIff(last.calls, id, edited); }
      AskersSnoc(front, last, id, edited);
    }
  }

  lemma AskersSnoc(ms: seq<Message>, m: Message, id: string, edited: set<string>)
    ensures |Askers(ms + [m], id, edited)|
         == |Askers(ms, id, edited)| + if AsksForEdited(m, id, edited) then 1 else 0
  {
    assert Askers(ms + [m], id, edited)
        == Askers(ms, id, edited) + if AsksForEdited(m, id, edited) then {|ms|} else {};
  }

  /** How often the tail holds a message for each time the window does. */
  function Weight(ms: seq<Message>, m: Message, edited: set<string>): nat {
    if m.Tool? && edited != {} then 1 + |Askers(ms, m.id, edited)| else 1
  }

  lemma {:induction false} TailWeighs(ms: seq<Message>, window: seq<Message>, edited: set<string>, m: Message)
    requires RecordsOnly(ms)
    ensures Tail(ms, window, edited).Some?
    ensures multiset(Tail(ms, window, edited).value)[m] == Weight(ms, m, edited) * multiset(window)[m]
    decreases |window|
  {
    if window != [] {
      var first := window[0];
      TailWeighs(ms, window[1..], edited, m);
      WeightOf(ms, first, edited);
      assert window == [first] + window[1..];
      WeighFirst(first, Weight(ms, first, edited), Tail(ms, window[1..], edited).value, window[1..], m,
                 Weight(ms, m, edited));
    }
  }

  lemma WeightOf(ms: seq<Message>, m: Message, edited: set<string>)
    requires RecordsOnly(ms)
    ensures CopiesOf(ms, m, edited) == Some(Weight(ms, m, edited) - 1)
  {
    if m.Tool? { CopiesAreAskers(ms, m.id, edited); }
  }

  lemma WeighFirst(first: Message, n: nat, rest: seq<Message>, window: seq<Message>, m: Message, w: nat)
    requires multiset(rest)[m] == w * multiset(window)[m] && (first == m ==> n == w)
    ensures multiset(Repeat(first, n) + rest)[m] == w * multiset([first] + window)[m]
  {
    RepeatHolds(first, n, m);
    CountsAdd(Repeat(first, n), rest, m);
    CountsAdd([first], window, m);
    OneMoreTimes(w, multiset(window)[m]);
  }

  lemma CountsAdd(a: seq<Message>, b: seq<Message>, m: Message)
    ensures multiset(a + b)[m] == multiset(a)[m] + multiset(b)[m]
  {
  }

  lemma OneMoreTimes(w: nat, n: nat)
    ensures w * (1 + n) == w + w * n && w * (0 + n) == w * n
  {
  }

  lemma {:induction false} RepeatHolds(x: Message, n: nat, m: Message)
    ensures multiset(Repeat(x, n))[m] == if x == m then n else 0
    decreases n
  {
    if n > 0 {
      assert Repeat(x, n) == [x] + Repeat(x, n - 1);
      RepeatHolds(x, n - 1, m);
    }
  }

  /**
   With records, compaction never raises, and what it leaves is the first
   message, a notice, and the surviving messages, each result once more for
   every message that asked a file tool for it with a file being edited.
   */
  lemma RecordsCompact(ms: seq<Message>, edited: set<string>) returns (tail: seq<Message>)
    requires RecordsOnly(ms) && |ms| > 8
    ensures Compact(ms, true, edited)
         == if |ms| <= 1 + |tail| then Kept else Compacted([ms[0], Notice(|ms| - 1 - |tail|)] + tail)
    ensures forall m :: multiset(tail)[m] == Weight(ms, m, edited) * multiset(Survivors(ms))[m]
  {
    tail := SurvivingTail(ms, edited);
    forall m ensures multiset(tail)[m] == Weight(ms, m, edited) * multiset(Survivors(ms))[m] {
      TailWeighs(ms, Survivors(ms), edited, m);
    }
    if |ms| > 1 + |tail| {
      NothingRaises(ms, ms[1..|ms| - |tail|]);
      assert ms[..1] + [Notice(|ms| - 1 - |tail|)] == [ms[0], Notice(|ms| - 1 - |tail|)];
    }
  }

  lemma SurvivingTail(ms: seq<Message>, edited: set<string>) returns (tail: seq<Message>)
    requires RecordsOnly(ms) && |ms| > 8
    ensures Tail(ms, Survivors(ms), edited) == Some(tail)
    ensures
      Compact(ms, true, edited)
      == if |ms| <= 1 + |tail| then Kept
         else if NamingRaises(ms, ms[1..|ms| - |tail|]) then Raised
         else Compacted(ms[..1] + [Notice(|ms| - 1 - |tail|)] + tail)
  {
    TailWeighs(ms, LastOf(ms), edited, ms[0]);
    var all := Tail(ms, LastOf(ms), edited).value;
    tail := DropResults(all);
    DropBeforeOrAfter(ms, LastOf(ms), edited);
    CompactFrom(ms, edited, all, tail);
  }

  lemma CompactFrom(ms: seq<Message>, edited: set<string>, all: seq<Message>, tail: seq<Message>)
    requires |ms| > 8 && Tail(ms, LastOf(ms), edited) == Some(all) && tail == DropResults(all)
    ensures
      Compact(ms, true, edited)
      == if |ms| <= 1 + |tail| then Kept
         else if NamingRaises(ms, ms[1..|ms| - |tail|]) then Raised
         else Compacted(ms[..1] + [Notice(|ms| - 1 - |tail|)] + tail)
  {
  }

  lemma NothingRaises(ms: seq<Message>, dropped: seq<Message>)
    requires RecordsOnly(ms)
    ensures !NamingRaises(ms, dropped)
  {
  }

  /** The other case does occur: an edit near the end of a transcript whose file is being edited. */
  lemma CompactionCanDuplicate()
    ensures Acceptable(WithEditedFile()) && Plain(WithEditedFile()[0])
    ensures Compact(WithEditedFile(), true, {"a.py"}).Compacted? && !Harmless(WithEditedFile(), {"a.py"})
  {
    OneCallIsAcceptable(WithEditedFile());
    CopiesInExample();
    OneCopyCompacts(WithEditedFile(), {"a.py"}, LastOf(WithEditedFile())[4]);
  }

  lemma OneCopyCompacts(ms: seq<Message>, edited: set<string>, t: Message)
    requires |ms| > 13 && edited != {} && !LastOf(ms)[0].Tool?
    requires t in LastOf(ms) && t.Tool?
    requires forall m :: m in LastOf(ms) && m.Tool? ==> Copies(ms, m.id, edited) == Some(1)
    requires forall m :: m in ms[..|ms| - KEEP] ==> !m.Tool?
    ensures Compact(ms, true, edited).Compacted? && !Harmless(ms, edited)
  {
    assert Survivors(ms) == LastOf(ms) && !NotCopied(ms, t, edited);
    OneCopyEach(ms, LastOf(ms), edited);
    DropBeforeOrAfter(ms, LastOf(ms), edited);
    var n := |Tail(ms, LastOf(ms), edited).value|;
    OneCopyGrows(ms, LastOf(ms), edited);
    forall m | m in ms[1..|ms| - n] ensures !m.Tool? {
      assert m in ms[..|ms| - KEEP];
    }
    NothingToName(ms, ms[1..|ms| - n]);
  }

  lemma {:induction false} OneCopyGrows(ms: seq<Message>, window: seq<Message>, edited: set<string>)
    requires Tail(ms, window, edited).Some?
    ensures |Tail(ms, window, edited).value| >= |window|
    decreases |window|
  {
    if window != [] { OneCopyGrows(ms, window[1..], edited); }
  }

  function WithEditedFile(): seq<Message> {
    var u := User(false, "");
    Repeat(u, 12) + [Assistant("", [Call("c", "edit_file", Fields("a.py"))]), Tool("c", "", NoRemark), u]
  }

  lemma CopiesInExample()
    ensures Copies(WithEditedFile(), "c", {"a.py"}) == Some(1)
  {
    var ms := WithEditedFile();
    NoCopies(ms[..12], "c", {"a.py"});
    assert ms[..13][..12] == ms[..12] && ms[..14][..13] == ms[..13] && ms[..|ms| - 1] == ms[..14];
    assert ms[12].calls[0].arguments.path in {"a.py"};
    assert Copies(ms[..13], "c", {"a.py"}) == Some(1);
    assert Copies(ms[..14], "c", {"a.py"}) == Some(1);
  }

  lemma {:induction false} NoCopies(ms: seq<Message>, id: string, edited: set<string>)
    requires forall m :: m in ms ==> !m.Assistant?
    ensures Copies(ms, id, edited) == Some(0)
    decreases |ms|
  {
    if ms != [] { NoCopies(ms[..|ms| - 1], id, edited); }
  }

  lemma {:induction false} OneCopyEach(ms: seq<Message>, window: seq<Message>, edited: set<string>)
    requires forall m :: m in window && m.Tool? ==> Copies(ms, m.id, edited) == Some(1)
    ensures Tail(ms, window, edited).Some? && |Tail(ms, window, edited).value| <= 2 * |window|
    decreases |window|
  {
    if window != [] { OneCopyEach(ms, window[1..], edited); }
  }

  lemma NothingToName(ms: seq<Message>, dropped: seq<Message>)
    requires forall m :: m in dropped ==> !m.Tool?
    ensures !NamingRaises(ms, dropped)
  {
  }
}

/**
 The turn protocol of `Session` as a state machine with one state for each
 place where the code can be suspended or asks somebody something.
 */
module Protocol {
  import opened Wrappers
  import opened Transcript
  import opened Compaction
  import Client

  const MAX_STEPS := 40
  const REPEAT_WARN := 2
  const REPEAT_ABORT := 4

  /** A call to execute; `decoded` is the dump, with sorted keys, of its decoded arguments. */
  datatype Request = Request(call: Client.ToolCall, decoded: string)

  function Signature(r: Request): string {
    r.call.name + ":" + r.decoded
  }

  /** What the reply's calls look like in the transcript. */
  function Stored(rs: seq<Request>): (cs: seq<Call>)
    ensures |cs| == |rs|
    ensures forall k :: 0 <= k < |cs| ==> cs[k] == Call(rs[k].call.id, rs[k].call.name, Text(rs[k].call.arguments))
  {
    seq(|rs|, k requires 0 <= k < |rs| => Call(rs[k].call.id, rs[k].call.name, Text(rs[k].call.arguments)))
  }

  function RequestIds(rs: seq<Request>): seq<string> { Ids(Stored(rs)) }

  datatype Phase =
    | Idle
    | Starting(step: nat)                                       // about to compact
    | Asking(step: nat)                                         // awaiting the reply
    | Deciding(step: nat, requests: seq<Request>, k: nat)       // before call k
    | Running(step: nat, requests: seq<Request>, k: nat)        // awaiting call k

  datatype ToolOutcome = ToolOutcome(isError: bool, content: string)

  datatype Decision = Go | Declined | Unaskable

  datatype Event =
    | Ask(text: string)
    | Begin(over: bool, edited: set<string>)
    | Reply(content: string, requests: seq<Request>, malformed: seq<string>)
    | NoReply
    | Decide(decision: Decision)
    | Done(outcome: ToolOutcome)
    | Crash                                                     // any other exception
    | Cancel

  datatype State = State(
    messages: seq<Message>,
    history: seq<Message>,
    failures: map<string, nat>,
    rulesSent: bool,
    sent: seq<seq<Message>>,                                    // every transcript sent so far
    phase: Phase)

  function Say(s: State, m: Message): State {
    s.(messages := s.messages + [m], history := s.history + [m])
  }

  function SayAll(s: State, ms: seq<Message>): State {
    s.(messages := s.messages + ms, history := s.history + ms)
  }

  // ----- repair -----

  function LastAssistant(ms: seq<Message>): (r: Option<nat>)
    ensures r.Some? ==> r.value < |ms| && ms[r.value].Assistant?
  {
    if ms == [] then None
    else if ms[|ms| - 1].Assistant? then Some(|ms| - 1)
    else LastAssistant(ms[..|ms| - 1])
  }

  function AnsweredIds(ms: seq<Message>): set<string> {
    set m | m in ms && m.Tool? :: m.id
  }

  function Lacking(ids: seq<string>, answered: set<string>): seq<string>
    decreases |ids|
  {
    if ids == [] then []
    else (if ids[0] != "" && ids[0] !in answered then [ids[0]] else []) + Lacking(ids[1..], answered)
  }

  /** Ids the most recent assistant message asked for and nobody answered. */
  function Unanswered(ms: seq<Message>): seq<string> {
    match LastAssistant(ms)
    case None => []
    case Some(i) => Lacking(Ids(ms[i].calls), AnsweredIds(ms[i + 1..]))
  }

  const INTERRUPTED := "The user interrupted this turn before the tool ran."
  const DECLINED := "The user declined this one call."
  const NOT_ASKED := "The user could not be asked, so this did not run."

  function Interrupted(ids: seq<string>): (r: seq<Message>)
    ensures |r| == |ids| && forall k :: 0 <= k < |r| ==> r[k] == Tool(ids[k], INTERRUPTED, NoRemark)
  {
    seq(|ids|, k requires 0 <= k < |ids| => Tool(ids[k], INTERRUPTED, NoRemark))
  }

  function Repair(s: State): State {
    SayAll(s, Interrupted(Unanswered(s.messages)))
  }

  // ----- the loop guard -----

  function Count(failures: map<string, nat>, key: string): nat {
    if key in failures then failures[key] else 0
  }

  function Note(failures: map<string, nat>, r: Request, o: ToolOutcome): map<string, nat> {
    if o.isError then failures[Signature(r) := Count(failures, Signature(r)) + 1] else failures
  }

  /** The remark on an outcome that has just been counted. */
  function RemarkOn(failures: map<string, nat>, r: Request, o: ToolOutcome): Remark {
    var count := Count(failures, Signature(r));
    if !o.isError || count < REPEAT_WARN then NoRemark
    else if count >= REPEAT_ABORT then GivingUp(count)
    else Repeated(count)
  }

  predicate GivesUp(s: State, o: ToolOutcome)
    requires s.phase.Running? && s.phase.k < |s.phase.requests|
  {
    var r := s.phase.requests[s.phase.k];
    RemarkOn(Note(s.failures, r, o), r, o).GivingUp?
  }

  // ----- one step -----

  function NextStep(n: nat): Phase {
    if n + 1 < MAX_STEPS then Starting(n + 1) else Idle
  }

  function AfterCall(n: nat, rs: seq<Request>, k: nat): Phase {
    if k + 1 < |rs| then Deciding(n, rs, k + 1) else NextStep(n)
  }

  function StepStarting(s: State, n: nat, e: Event): State {
    if !e.Begin? then s
    else
      match Compact(s.messages, e.over, e.edited)
      case Raised => s.(phase := Idle)
      case Kept => s.(sent := s.sent + [s.messages], phase := Asking(n))
      case Compacted(ms) => s.(messages := ms, sent := s.sent + [ms], phase := Asking(n))
  }

  function StepAsking(s: State, n: nat, e: Event): State {
    match e
    case Reply(content, rs, malformed) =>
      var t := Say(s, Assistant(content, Stored(rs)));
      if rs != [] then t.(phase := Deciding(n, rs, 0))
      else if malformed != [] then Say(t, User(false, PleaseRetry(malformed))).(phase := NextStep(n))
      else t.(phase := Idle)
    case NoReply => s.(phase := Idle)
    case Cancel => Repair(s).(phase := Idle)
    case _ => s
  }

  function StepDeciding(s: State, n: nat, rs: seq<Request>, k: nat, e: Event): State
    requires k < |rs|
  {
    match e
    case Decide(Go) => s.(phase := Running(n, rs, k))
    case Decide(Declined) => Say(s, Tool(rs[k].call.id, DECLINED, NoRemark)).(phase := AfterCall(n, rs, k))
    case Decide(Unaskable) => Say(s, Tool(rs[k].call.id, NOT_ASKED, NoRemark)).(phase := Idle)
    case Crash => s.(phase := Idle)
    case _ => s
  }

  function StepRunning(s: State, n: nat, rs: seq<Request>, k: nat, e: Event): State
    requires k < |rs|
  {
    match e
    case Done(o) =>
      var failures := Note(s.failures, rs[k], o);
      var remark := RemarkOn(failures, rs[k], o);
      Say(s, Tool(rs[k].call.id, o.content, remark))
        .(failures := failures, phase := if remark.GivingUp? then Idle else AfterCall(n, rs, k))
    case Cancel => Repair(s).(phase := Idle)
    case Crash => s.(phase := Idle)
    case _ => s
  }

  /** Events that do not fit the phase change nothing. */
  function Step(s: State, e: Event): State {
    match s.phase
    case Idle =>
      if e.Ask? then Say(s, User(!s.rulesSent, e.text)).(rulesSent := true, phase := Starting(0)) else s
    case Starting(n) => StepStarting(s, n, e)
    case Asking(n) => StepAsking(s, n, e)
    case Deciding(n, rs, k) => if k < |rs| then StepDeciding(s, n, rs, k, e) else s
    case Running(n, rs, k) => if k < |rs| then StepRunning(s, n, rs, k, e) else s
  }

  /** What the model is told when nothing of what it called could run. */
  function PleaseRetry(malformed: seq<string>): string {
    "Your tool call did not arrive intact: " + Joined(malformed) + ". Please try again."
  }

  /** `"; ".join`. */
  function Joined(texts: seq<string>): string
    decreases |texts|
  {
    if texts == [] then "" else if |texts| == 1 then texts[0] else texts[0] + "; " + Joined(texts[1..])
  }

  function Run(s: State, es: seq<Event>): State
    decreases |es|
  {
    if es == [] then s else Run(Step(s, es[0]), es[1..])
  }

  lemma {:induction false} RunConcat(s: State, a: seq<Event>, b: seq<Event>)
    ensures Run(s, a + b) == Run(Run(s, a), b)
    decreases |a|
  {
    if a == [] {
      assert a + b == b;
    } else {
      assert (a + b)[1..] == a[1..] + b;
      RunConcat(Step(s, a[0]), a[1..], b);
    }
  }

  lemma RunOne(s: State, e: Event)
    ensures Run(s, [e]) == Step(s, e)
  {
    assert Run(Step(s, e), [e][1..]) == Step(s, e);
  }

  lemma RunTwo(s: State, e: Event, f: Event)
    ensures Run(s, [e, f]) == Step(Step(s, e), f)
  {
    assert [e, f][1..] == [f];
    RunOne(Step(s, e), f);
  }

  // ----- the invariant -----

  /** The last assistant message asked for `rs`, and exactly the first `k` are answered, in order. */
  predicate Answering(ms: seq<Message>, rs: seq<Request>, k: nat) {
    && k < |ms| && k <= |rs|
    && var i := |ms| - 1 - k;
       && ms[i].Assistant? && ms[i].calls == Stored(rs)
       && forall j :: i < j < |ms| ==> ms[j].Tool? && ms[j].id == rs[j - i - 1].call.id
  }

  /** The same, behind a transcript with nothing open. */
  predicate MidTurn(ms: seq<Message>, rs: seq<Request>, k: nat) {
    Answering(ms, rs, k) && Acceptable(ms[..|ms| - 1 - k])
  }

  predicate InPhase(s: State) {
    match s.phase
    case Idle => Acceptable(s.messages)
    case Starting(n) => n < MAX_STEPS && Acceptable(s.messages)
    case Asking(n) => n < MAX_STEPS && Acceptable(s.messages)
    case Deciding(n, rs, k) => n < MAX_STEPS && k < |rs| && MidTurn(s.messages, rs, k) && GoodIds(rs)
    case Running(n, rs, k) => n < MAX_STEPS && k < |rs| && MidTurn(s.messages, rs, k) && GoodIds(rs)
  }

  predicate GoodIds(rs: seq<Request>) {
    Distinct(RequestIds(rs)) && "" !in RequestIds(rs)
  }

  /** `messages` is the archive, or its first message, one notice, and a contiguous suffix of it. */
  ghost predicate Archived(ms: seq<Message>, history: seq<Message>) {
    || ms == history
    || (|ms| >= 2 && history != [] && ms[0] == history[0] && ms[1].Notice?
        && exists j :: 1 <= j <= |history| && ms[2..] == history[j..])
  }

  predicate Orderly(s: State) {
    && InPhase(s)
    && (s.messages != [] ==> Plain(s.messages[0]))
    && (!s.phase.Idle? ==> s.messages != [])
  }

  ghost predicate Inv(s: State) {
    Orderly(s) && Archived(s.messages, s.history)
  }

  /**
   What the environment must do for transcripts to stay acceptable: no turn
   stops with later calls open, compaction meets no result of a file being
   edited, and ids are distinct and not empty within one reply.
   */
  predicate Fair(s: State, e: Event) {
    match e
    case Begin(_, edited) => s.phase.Starting? ==> Harmless(s.messages, edited)
    case Reply(_, rs, _) => GoodIds(rs)
    case Decide(Unaskable) => s.phase.Deciding? ==> s.phase.k + 1 == |s.phase.requests|
    case Done(o) =>
      s.phase.Running? && s.phase.k < |s.phase.requests| && GivesUp(s, o) ==> s.phase.k + 1 == |s.phase.requests|
    case Crash => !s.phase.Deciding? && !s.phase.Running?
    case _ => true
  }

  predicate FairRun(s: State, es: seq<Event>)
    decreases |es|
  {
    es == [] || (Fair(s, es[0]) && FairRun(Step(s, es[0]), es[1..]))
  }

  // ----- lemmas about one turn -----

  lemma AnsweredOneFewer(ms: seq<Message>, rs: seq<Request>, k: nat)
    requires Answering(ms, rs, k) && k > 0
    ensures Answering(ms[..|ms| - 1], rs, k - 1) && ms[..|ms| - 1][..|ms| - 1 - k] == ms[..|ms| - 1 - k]
    ensures ms[|ms| - 1].Tool? && ms[|ms| - 1].id == RequestIds(rs)[k - 1]
  {
  }

  lemma AnswerOneMore(ms: seq<Message>, rs: seq<Request>, k: nat, t: Message)
    requires Answering(ms, rs, k) && k < |rs| && t.Tool? && t.id == rs[k].call.id
    ensures Answering(ms + [t], rs, k + 1)
  {
  }

  lemma {:induction false} MidTurnPending(ms: seq<Message>, rs: seq<Request>, k: nat)
    requires MidTurn(ms, rs, k)
    ensures Pending(ms) == Some(RequestIds(rs)[k..])
    decreases k
  {
    if k == 0 {
      assert RequestIds(rs)[0..] == RequestIds(rs);
    } else {
      AnsweredOneFewer(ms, rs, k);
      MidTurnPending(ms[..|ms| - 1], rs, k - 1);
      ReadNext(ms, RequestIds(rs), k);
    }
  }

  lemma ReadNext(ms: seq<Message>, ids: seq<string>, k: nat)
    requires ms != [] && 0 < k <= |ids| && Pending(ms[..|ms| - 1]) == Some(ids[k - 1..])
    requires ms[|ms| - 1].Tool? && ms[|ms| - 1].id == ids[k - 1]
    ensures Pending(ms) == Some(ids[k..])
  {
    assert ids[k - 1..][1..] == ids[k..];
  }

  lemma StartTurn(ms: seq<Message>, content: string, rs: seq<Request>)
    requires Acceptable(ms)
    ensures MidTurn(ms + [Assistant(content, Stored(rs))], rs, 0)
  {
    assert (ms + [Assistant(content, Stored(rs))])[..|ms|] == ms;
  }

  lemma AnswerNext(ms: seq<Message>, rs: seq<Request>, k: nat, t: Message)
    requires MidTurn(ms, rs, k) && k < |rs| && t.Tool? && t.id == rs[k].call.id
    ensures MidTurn(ms + [t], rs, k + 1)
    ensures Pending(ms + [t]) == Some(RequestIds(rs)[k + 1..])
  {
    AnswerOneMore(ms, rs, k, t);
    assert (ms + [t])[..|ms| - 1 - k] == ms[..|ms| - 1 - k];
    MidTurnPending(ms + [t], rs, k + 1);
  }

  // ----- repair closes what cancellation left open -----

  lemma {:induction false} LastAssistantIs(ms: seq<Message>, i: nat)
    requires i < |ms| && ms[i].Assistant? && forall j :: i < j < |ms| ==> !ms[j].Assistant?
    ensures LastAssistant(ms) == Some(i)
    decreases |ms|
  {
    if i < |ms| - 1 { LastAssistantIs(ms[..|ms| - 1], i); }
  }

  lemma {:induction false} NoneAfterLastAssistant(ms: seq<Message>)
    ensures
      var first := if LastAssistant(ms).Some? then LastAssistant(ms).value + 1 else 0;
      forall i :: first <= i < |ms| ==> !ms[i].Assistant?
    decreases |ms|
  {
    if ms != [] && !ms[|ms| - 1].Assistant? {
      NoneAfterLastAssistant(ms[..|ms| - 1]);
      assert forall i :: 0 <= i < |ms| - 1 ==> ms[i] == ms[..|ms| - 1][i];
    }
  }

  lemma {:induction false} NoAssistant(ms: seq<Message>)
    requires forall j :: 0 <= j < |ms| ==> !ms[j].Assistant?
    ensures LastAssistant(ms) == None
    decreases |ms|
  {
    if ms != [] { NoAssistant(ms[..|ms| - 1]); }
  }

  lemma {:induction false} LackingNothing(ids: seq<string>, answered: set<string>)
    requires forall id :: id in ids ==> id in answered
    ensures Lacking(ids, answered) == []
    decreases |ids|
  {
    if ids != [] { LackingNothing(ids[1..], answered); }
  }

  lemma {:induction false} LackingConcat(a: seq<string>, b: seq<string>, answered: set<string>)
    ensures Lacking(a + b, answered) == Lacking(a, answered) + Lacking(b, answered)
    decreases |a|
  {
    if a == [] {
      assert a + b == b;
    } else {
      assert (a + b)[1..] == a[1..] + b;
      LackingConcat(a[1..], b, answered);
    }
  }

  lemma {:induction false} LackingAll(ids: seq<string>, answered: set<string>)
    ensures |Lacking(ids, answered)| <= |ids|
    ensures |Lacking(ids, answered)| == |ids| <==> AllNew(ids, answered)
    ensures |Lacking(ids, answered)| == |ids| ==> Lacking(ids, answered) == ids
    decreases |ids|
  {
    if ids != [] {
      LackingAll(ids[1..], answered);
      assert ids == [ids[0]] + ids[1..];
      NewFirstAndRest(ids, answered);
    }
  }

  predicate AllNew(ids: seq<string>, answered: set<string>) {
    forall id :: id in ids ==> id != "" && id !in answered
  }

  lemma NewFirstAndRest(ids: seq<string>, answered: set<string>)
    requires ids != []
    ensures AllNew(ids, answered) <==> ids[0] != "" && ids[0] !in answered && AllNew(ids[1..], answered)
  {
    if ids[0] != "" && ids[0] !in answered && AllNew(ids[1..], answered) {
      forall id | id in ids ensures id != "" && id !in answered {
        assert id == ids[0] || id in ids[1..];
      }
    }
    if AllNew(ids, answered) {
      forall id | id in ids[1..] ensures id != "" && id !in answered {
        assert id in ids;
      }
    }
  }

  lemma AnswersOf(results: seq<Message>, ids: seq<string>)
    requires |results| == |ids|
    requires forall j :: 0 <= j < |ids| ==> results[j].Tool? && results[j].id == ids[j]
    ensures forall id :: id in AnsweredIds(results) <==> id in ids
  {
    forall id | id in ids ensures id in AnsweredIds(results) {
      var j :| 0 <= j < |ids| && ids[j] == id;
      assert results[j] in results;
    }
  }

  lemma AnsweringLacks(ms: seq<Message>, rs: seq<Request>, k: nat)
    requires Answering(ms, rs, k)
    ensures Unanswered(ms) == Lacking(RequestIds(rs)[k..], AnsweredIds(ms[|ms| - k..]))
    ensures forall id :: id in AnsweredIds(ms[|ms| - k..]) <==> id in RequestIds(rs)[..k]
  {
    LastAssistantIs(ms, |ms| - 1 - k);
    UnansweredIs(ms, |ms| - 1 - k);
    ResultsAnswer(ms, rs, k);
    LackingRest(RequestIds(rs), k, AnsweredIds(ms[|ms| - k..]));
  }

  lemma LackingRest(ids: seq<string>, k: nat, answered: set<string>)
    requires k <= |ids| && forall id :: id in ids[..k] ==> id in answered
    ensures Lacking(ids, answered) == Lacking(ids[k..], answered)
  {
    assert ids == ids[..k] + ids[k..];
    LackingConcat(ids[..k], ids[k..], answered);
    LackingNothing(ids[..k], answered);
  }

  lemma UnansweredIs(ms: seq<Message>, i: nat)
    requires LastAssistant(ms) == Some(i)
    ensures Unanswered(ms) == Lacking(Ids(ms[i].calls), AnsweredIds(ms[i + 1..]))
  {
  }

  lemma ResultsAnswer(ms: seq<Message>, rs: seq<Request>, k: nat)
    requires Answering(ms, rs, k)
    ensures forall id :: id in AnsweredIds(ms[|ms| - k..]) <==> id in RequestIds(rs)[..k]
  {
    AnswersOf(ms[|ms| - k..], RequestIds(rs)[..k]);
  }

  lemma {:induction false} AnsweringInOrder(ms: seq<Message>, open: seq<string>, ids: seq<string>)
    requires Pending(ms) == Some(open)
    ensures ids == open ==> Acceptable(ms + Interrupted(ids))
    ensures |ids| < |open| ==> !Acceptable(ms + Interrupted(ids))
    decreases |ids|
  {
    if ids == [] {
      assert ms + Interrupted(ids) == ms;
    } else {
      var first := Tool(ids[0], INTERRUPTED, NoRemark);
      assert ms + Interrupted(ids) == (ms + [first]) + Interrupted(ids[1..]);
      PendingSnoc(ms, first);
      if open != [] && open[0] == ids[0] {
        AnsweringInOrder(ms + [first], open[1..], ids[1..]);
      } else {
        BrokenStaysBroken(ms + [first], Interrupted(ids[1..]));
      }
    }
  }

  /** After a cancellation with calls `k..` open, repair invents one result for each, in order. */
  lemma RepairAnswersTheRest(ms: seq<Message>, rs: seq<Request>, k: nat)
    requires Answering(ms, rs, k) && GoodIds(rs)
    ensures Unanswered(ms) == RequestIds(rs)[k..]
    ensures Answering(ms + Interrupted(Unanswered(ms)), rs, |rs|)
    ensures MidTurn(ms, rs, k) ==> Acceptable(ms + Interrupted(Unanswered(ms)))
  {
    UnansweredAreTheRest(ms, rs, k);
    InterruptedAnswers(ms, rs, k);
    if MidTurn(ms, rs, k) {
      MidTurnPending(ms, rs, k);
      AnsweringInOrder(ms, RequestIds(rs)[k..], RequestIds(rs)[k..]);
    }
  }

  lemma UnansweredAreTheRest(ms: seq<Message>, rs: seq<Request>, k: nat)
    requires Answering(ms, rs, k) && GoodIds(rs)
    ensures Unanswered(ms) == RequestIds(rs)[k..]
  {
    var ids := RequestIds(rs);
    AnsweringLacks(ms, rs, k);
    LackingAll(ids[k..], AnsweredIds(ms[|ms| - k..]));
    assert AllNew(ids[k..], AnsweredIds(ms[|ms| - k..]));
  }

  lemma InterruptedAnswers(ms: seq<Message>, rs: seq<Request>, k: nat)
    requires Answering(ms, rs, k)
    ensures Answering(ms + Interrupted(RequestIds(rs)[k..]), rs, |rs|)
  {
    var ids, i := RequestIds(rs)[k..], |ms| - 1 - k;
    var now := ms + Interrupted(ids);
    forall j | i < j < |now| ensures now[j].Tool? && now[j].id == rs[j - i - 1].call.id {
      if j >= |ms| { assert now[j].id == ids[j - |ms|] == RequestIds(rs)[j - i - 1]; }
    }
  }

  /** For any ids at all: repair closes the turn exactly when the open ids are new and not empty. */
  lemma RepairClosesIff(ms: seq<Message>, rs: seq<Request>, k: nat)
    requires MidTurn(ms, rs, k)
    ensures Acceptable(ms + Interrupted(Unanswered(ms)))
       <==> forall id :: id in RequestIds(rs)[k..] ==> id != "" && id !in RequestIds(rs)[..k]
  {
    var open := RequestIds(rs)[k..];
    AnsweringLacks(ms, rs, k);
    LackingAll(open, AnsweredIds(ms[|ms| - k..]));
    MidTurnPending(ms, rs, k);
    AnsweringInOrder(ms, open, Unanswered(ms));
  }

  /** On any transcript whatever, a second repair adds nothing. */
  lemma RepairIsIdempotent(ms: seq<Message>)
    ensures Unanswered(ms + Interrupted(Unanswered(ms))) == []
  {
    var ids := Unanswered(ms);
    var more := Interrupted(ids);
    AnswersOf(more, ids);
    LastAssistantAfter(ms, more);
    if LastAssistant(ms).Some? {
      var i := LastAssistant(ms).value;
      UnansweredAfter(ms, i, more);
      LackingAfterAnswers(Ids(ms[i].calls), AnsweredIds(ms[i + 1..]), AnsweredIds(more));
    }
  }

  lemma AnsweredConcat(a: seq<Message>, b: seq<Message>)
    ensures AnsweredIds(a + b) == AnsweredIds(a) + AnsweredIds(b)
  {
    forall id | id in AnsweredIds(a) + AnsweredIds(b) ensures id in AnsweredIds(a + b) {
      var m :| (m in a || m in b) && m.Tool? && m.id == id;
      assert m in a + b;
    }
  }

  lemma LastAssistantAfter(ms: seq<Message>, more: seq<Message>)
    requires forall m :: m in more ==> !m.Assistant?
    ensures LastAssistant(ms + more) == LastAssistant(ms)
  {
    var now := ms + more;
    NoneAfterLastAssistant(ms);
    assert forall j :: |ms| <= j < |now| ==> now[j] in more;
    assert forall j :: 0 <= j < |ms| ==> now[j] == ms[j];
    if LastAssistant(ms).Some? {
      LastAssistantIs(now, LastAssistant(ms).value);
    } else {
      NoAssistant(now);
    }
  }

  lemma UnansweredAfter(ms: seq<Message>, i: nat, more: seq<Message>)
    requires LastAssistant(ms) == Some(i) && forall m :: m in more ==> !m.Assistant?
    ensures Unanswered(ms + more) == Lacking(Ids(ms[i].calls), AnsweredIds(ms[i + 1..]) + AnsweredIds(more))
  {
    LastAssistantAfter(ms, more);
    UnansweredIs(ms + more, i);
    SuffixAfter(ms, i + 1, more);
    AnsweredConcat(ms[i + 1..], more);
  }

  lemma SuffixAfter(ms: seq<Message>, n: nat, more: seq<Message>)
    requires n <= |ms|
    ensures (ms + more)[n..] == ms[n..] + more
    ensures forall i :: 0 <= i < n ==> (ms + more)[i] == ms[i]
  {
  }

  lemma {:induction false} LackingAfterAnswers(ids: seq<string>, before: set<string>, added: set<string>)
    requires forall id :: id in Lacking(ids, before) ==> id in added
    ensures Lacking(ids, before + added) == []
    decreases |ids|
  {
    if ids != [] { LackingAfterAnswers(ids[1..], before, added); }
  }

  // ----- the archive -----

  lemma ArchivedSnoc(ms: seq<Message>, history: seq<Message>, more: seq<Message>)
    requires Archived(ms, history)
    ensures Archived(ms + more, history + more)
  {
    if ms != history {
      var j :| 1 <= j <= |history| && ms[2..] == history[j..];
      assert (ms + more)[2..] == ms[2..] + more == history[j..] + more == (history + more)[j..];
    }
  }

  lemma ArchivedCompaction(ms: seq<Message>, history: seq<Message>, j: nat, n: nat)
    requires Archived(ms, history) && 1 < j <= |ms|
    ensures Archived([ms[0], Notice(n)] + ms[j..], history)
  {
    var now := [ms[0], Notice(n)] + ms[j..];
    assert now[2..] == ms[j..];
    if ms != history {
      var i :| 1 <= i <= |history| && ms[2..] == history[i..];
      assert ms[j..] == ms[2..][j - 2..] == history[i..][j - 2..] == history[i + j - 2..];
    }
  }

  // ----- every step, then every run -----

  /** What an event adds to both lists. */
  function Appended(s: State, e: Event): seq<Message> {
    match s.phase
    case Idle => if e.Ask? then [User(!s.rulesSent, e.text)] else []
    case Starting(_) => []
    case Asking(_) => AppendedAsking(s.messages, e)
    case Deciding(_, rs, k) => if k < |rs| then AppendedDeciding(rs[k], e) else []
    case Running(_, rs, k) => if k < |rs| then AppendedRunning(s, rs[k], e) else []
  }

  function AppendedAsking(ms: seq<Message>, e: Event): seq<Message> {
    match e
    case Reply(content, rs, malformed) =>
      [Assistant(content, Stored(rs))]
      + if rs == [] && malformed != [] then [User(false, PleaseRetry(malformed))] else []
    case Cancel => Interrupted(Unanswered(ms))
    case _ => []
  }

  function AppendedDeciding(r: Request, e: Event): seq<Message> {
    match e
    case Decide(Declined) => [Tool(r.call.id, DECLINED, NoRemark)]
    case Decide(Unaskable) => [Tool(r.call.id, NOT_ASKED, NoRemark)]
    case _ => []
  }

  function AppendedRunning(s: State, r: Request, e: Event): seq<Message> {
    match e
    case Done(o) => [Tool(r.call.id, o.content, RemarkOn(Note(s.failures, r, o), r, o))]
    case Cancel => Interrupted(Unanswered(s.messages))
    case _ => []
  }

  predicate Appends(s: State, t: State, more: seq<Message>) {
    t.messages == s.messages + more && t.history == s.history + more && t.sent == s.sent
  }

  lemma AskingAppends(s: State, n: nat, e: Event)
    ensures Appends(s, StepAsking(s, n, e), AppendedAsking(s.messages, e))
  {
    if e.Reply? {
      var first := [Assistant(e.content, Stored(e.requests))];
      assert first + [] == first;
      assert forall ms: seq<Message>, m: Message :: ms + first + [m] == ms + (first + [m]);
    }
  }

  lemma DecidingAppends(s: State, n: nat, rs: seq<Request>, k: nat, e: Event)
    requires k < |rs|
    ensures Appends(s, StepDeciding(s, n, rs, k, e), AppendedDeciding(rs[k], e))
  {
  }

  lemma RunningAppends(s: State, n: nat, rs: seq<Request>, k: nat, e: Event)
    requires k < |rs|
    ensures Appends(s, StepRunning(s, n, rs, k, e), AppendedRunning(s, rs[k], e))
  {
  }

  /** Every step but a compaction appends the same messages to both lists. */
  lemma StepAppends(s: State, e: Event)
    requires !s.phase.Starting?
    ensures Appends(s, Step(s, e), Appended(s, e))
  {
    match s.phase
    case Idle =>
    case Asking(n) => AskingAppends(s, n, e);
    case Deciding(n, rs, k) => if k < |rs| { DecidingAppends(s, n, rs, k, e); }
    case Running(n, rs, k) => if k < |rs| { RunningAppends(s, n, rs, k, e); }
  }

  lemma BeginKeepsInv(s: State, e: Event)
    requires Inv(s) && s.phase.Starting? && e.Begin? && Fair(s, e)
    ensures Inv(Step(s, e))
    ensures var t := Step(s, e); t.sent == s.sent || (t.sent == s.sent + [t.messages] && Acceptable(t.messages))
  {
    if Compact(s.messages, e.over, e.edited).Compacted? {
      CompactionKeepsInv(s.messages, s.history, e.over, e.edited);
    }
  }

  lemma CompactionKeepsInv(ms: seq<Message>, history: seq<Message>, over: bool, edited: set<string>)
    requires Compact(ms, over, edited).Compacted? && Harmless(ms, edited)
    requires Acceptable(ms) && Plain(ms[0]) && Archived(ms, history)
    ensures
      var now := Compact(ms, over, edited).messages;
      Acceptable(now) && now != [] && now[0] == ms[0] && Archived(now, history)
  {
    var j := CompactionKeepsEnds(ms, over, edited);
    CompactionKeepsOrder(ms, over, edited);
    CompactionKeepsArchive(ms, history, over, edited);
  }

  lemma AskingKeepsOrder(s: State, e: Event)
    requires Orderly(s) && s.phase.Asking? && Fair(s, e)
    ensures Orderly(StepAsking(s, s.phase.step, e))
  {
    match e
    case Reply(content, rs, malformed) => ReplyKeepsOrder(s.messages, content, rs, malformed);
    case Cancel =>
      NothingOpen(s.messages);
      assert s.messages + Interrupted([]) == s.messages;
    case _ =>
  }

  lemma ReplyKeepsOrder(ms: seq<Message>, content: string, rs: seq<Request>, malformed: seq<string>)
    requires Acceptable(ms)
    ensures
      var now := ms + [Assistant(content, Stored(rs))];
      if rs != [] then MidTurn(now, rs, 0)
      else Acceptable(now) && Acceptable(now + [User(false, PleaseRetry(malformed))])
  {
    var a := Assistant(content, Stored(rs));
    if rs != [] {
      StartTurn(ms, content, rs);
    } else {
      assert Ids(Stored([])) == [];
      PendingSnoc(ms, a);
      PendingSnoc(ms + [a], User(false, PleaseRetry(malformed)));
    }
  }

  /** With nothing pending, repair has nothing to add. */
  lemma NothingOpen(ms: seq<Message>)
    requires Acceptable(ms)
    ensures Unanswered(ms) == []
  {
    AcceptableIff(ms);
    if LastAssistant(ms).Some? {
      var i := LastAssistant(ms).value;
      var ids, results := Ids(ms[i].calls), ms[i + 1..];
      forall id | id in ids ensures id in AnsweredIds(results) {
        var k :| 0 <= k < |ids| && ids[k] == id;
        assert InBlock(ms, i, i + 1 + k) && Answers(ms, i, i + 1 + k);
        assert results[k].Tool? && results[k].id == id;
      }
      LackingNothing(ids, AnsweredIds(results));
    }
  }

  /** Recording the next result keeps order, whether the turn goes on or its last call ends it. */
  lemma ResultKeepsOrder(s: State, n: nat, rs: seq<Request>, k: nat, t: Message, failures: map<string, nat>)
    requires Orderly(s) && k < |rs| && (s.phase == Deciding(n, rs, k) || s.phase == Running(n, rs, k))
    requires t.Tool? && t.id == rs[k].call.id
    ensures Orderly(Say(s, t).(failures := failures, phase := AfterCall(n, rs, k)))
    ensures k + 1 == |rs| ==> Orderly(Say(s, t).(failures := failures, phase := Idle))
  {
    AnswerNext(s.messages, rs, k, t);
    assert k + 1 == |rs| ==> RequestIds(rs)[k + 1..] == [];
  }

  lemma DecidingKeepsOrder(s: State, e: Event)
    requires Orderly(s) && s.phase.Deciding? && Fair(s, e)
    ensures Orderly(StepDeciding(s, s.phase.step, s.phase.requests, s.phase.k, e))
  {
    var Deciding(n, rs, k) := s.phase;
    ResultKeepsOrder(s, n, rs, k, Tool(rs[k].call.id, DECLINED, NoRemark), s.failures);
    ResultKeepsOrder(s, n, rs, k, Tool(rs[k].call.id, NOT_ASKED, NoRemark), s.failures);
  }

  lemma RunningKeepsOrder(s: State, e: Event)
    requires Orderly(s) && s.phase.Running? && Fair(s, e)
    ensures Orderly(StepRunning(s, s.phase.step, s.phase.requests, s.phase.k, e))
  {
    var Running(n, rs, k) := s.phase;
    match e
    case Done(o) =>
      var failures := Note(s.failures, rs[k], o);
      ResultKeepsOrder(s, n, rs, k, Tool(rs[k].call.id, o.content, RemarkOn(failures, rs[k], o)), failures);
    case Cancel =>
      RepairAnswersTheRest(s.messages, rs, k);
    case _ =>
  }

  lemma StepKeepsInv(s: State, e: Event)
    requires Inv(s) && Fair(s, e)
    ensures Inv(Step(s, e))
    ensures var t := Step(s, e); t.sent == s.sent || (t.sent == s.sent + [t.messages] && Acceptable(t.messages))
  {
    if s.phase.Starting? {
      if e.Begin? { BeginKeepsInv(s, e); }
    } else {
      StepKeepsOrder(s, e);
      StepAppends(s, e);
      ArchivedSnoc(s.messages, s.history, Appended(s, e));
    }
  }

  lemma StepKeepsOrder(s: State, e: Event)
    requires Orderly(s) && Fair(s, e) && !s.phase.Starting?
    ensures Orderly(Step(s, e))
  {
    match s.phase
    case Idle => PendingSnoc(s.messages, User(!s.rulesSent, if e.Ask? then e.text else ""));
    case Asking(_) => AskingKeepsOrder(s, e);
    case Deciding(_, _, _) => DecidingKeepsOrder(s, e);
    case Running(_, _, _) => RunningKeepsOrder(s, e);
  }

  /**
   Over every fair run, from any acceptable transcript: whatever is cancelled or
   compacted, every transcript sent is one the gateway accepts.
   */
  lemma {:induction false} EveryTranscriptSentIsAcceptable(s: State, es: seq<Event>)
    requires Inv(s) && FairRun(s, es)
    ensures Inv(Run(s, es))
    ensures s.sent <= Run(s, es).sent
    ensures forall n :: |s.sent| <= n < |Run(s, es).sent| ==> EveryCallAnsweredOnce(Run(s, es).sent[n])
    decreases |es|
  {
    if es != [] {
      var t := Step(s, es[0]);
      StepKeepsInv(s, es[0]);
      EveryTranscriptSentIsAcceptable(t, es[1..]);
      if t.sent != s.sent {
        AcceptableIff(t.messages);
        assert Run(t, es[1..]).sent[|s.sent|] == t.sent[|s.sent|];
      }
    }
  }

  /** Whatever happens, fair or not, the archive only grows at its end. */
  lemma {:induction false} HistoryOnlyGrows(s: State, es: seq<Event>)
    ensures s.history <= Run(s, es).history
    decreases |es|
  {
    if es != [] {
      if !s.phase.Starting? { StepAppends(s, es[0]); }
      HistoryOnlyGrows(Step(s, es[0]), es[1..]);
    }
  }

  // ----- the rules, and a transcript under its budget -----

  predicate HasRules(m: Message) { m.User? && m.rules }

  /** The rules stand in the first message of the archive, if there is one, and in no other. */
  predicate RulesFirst(s: State) {
    && (!s.rulesSent ==> s.history == [] && s.phase.Idle?)
    && (s.rulesSent ==> s.history != [])
    && forall k :: 0 <= k < |s.history| ==> (HasRules(s.history[k]) <==> k == 0)
  }

  /** Behind the first question nothing has rules. */
  lemma AppendedRules(s: State, e: Event)
    requires !s.phase.Idle? || s.rulesSent
    ensures forall m :: m in Appended(s, e) ==> !HasRules(m)
  {
  }

  lemma StepKeepsRulesFirst(s: State, e: Event)
    requires RulesFirst(s)
    ensures RulesFirst(Step(s, e))
  {
    if !s.phase.Starting? {
      StepAppends(s, e);
      if s.rulesSent { AppendedRules(s, e); }
      var more := Appended(s, e);
      assert forall k :: |s.history| <= k < |s.history + more| ==> (s.history + more)[k] in more;
    }
  }

  /** From a new session on, over every run: the rules open the first question and stand nowhere else. */
  lemma {:induction false} RulesOpenTheSession(s: State, es: seq<Event>)
    requires RulesFirst(s)
    ensures RulesFirst(Run(s, es))
    decreases |es|
  {
    if es != [] {
      StepKeepsRulesFirst(s, es[0]);
      RulesOpenTheSession(Step(s, es[0]), es[1..]);
    }
  }

  /** The estimate never says that the transcript is over its budget. */
  predicate Unpressed(es: seq<Event>) {
    forall i :: 0 <= i < |es| && es[i].Begin? ==> !es[i].over
  }

  /** The archive as it stands at each request of a run. */
  function AtRequests(s: State, es: seq<Event>): seq<seq<Message>>
    decreases |es|
  {
    if es == [] then []
    else (if s.phase.Starting? && es[0].Begin? then [s.history] else []) + AtRequests(Step(s, es[0]), es[1..])
  }

  /** Under its budget a session drops nothing: the model is sent the whole archive at every request. */
  lemma {:induction false} UnpressedSendsAll(s: State, es: seq<Event>)
    requires s.messages == s.history && Unpressed(es)
    ensures Run(s, es).messages == Run(s, es).history
    ensures Run(s, es).sent == s.sent + AtRequests(s, es)
    decreases |es|
  {
    if es == [] {
      assert s.sent + [] == s.sent;
    } else {
      var t := Step(s, es[0]);
      if s.phase.Starting? {
        if es[0].Begin? { UnderBudgetIsKept(s.messages, es[0].edited); }
      } else {
        StepAppends(s, es[0]);
      }
      UnpressedSendsAll(t, es[1..]);
      SentOn(s.sent, if s.phase.Starting? && es[0].Begin? then [s.history] else [], AtRequests(t, es[1..]));
    }
  }

  lemma SentOn(sent: seq<seq<Message>>, now: seq<seq<Message>>, later: seq<seq<Message>>)
    ensures sent + now + later == sent + (now + later)
    ensures now == [] ==> sent + now == sent
  {
  }

  // ----- what every run keeps, fair or not -----

  /** While a turn's calls are handled, those answered are a prefix of them; elsewhere nothing is claimed. */
  predicate InTurn(s: State) {
    match s.phase
    case Deciding(_, rs, k) => k < |rs| && Answering(s.messages, rs, k)
    case Running(_, rs, k) => k < |rs| && Answering(s.messages, rs, k)
    case _ => true
  }

  lemma ReplyStartsTurn(s: State, n: nat, e: Event)
    ensures InTurn(StepAsking(s, n, e)) || StepAsking(s, n, e) == s
  {
    if e.Reply? && e.requests != [] {
      var now := s.messages + [Assistant(e.content, Stored(e.requests))];
      assert Answering(now, e.requests, 0);
    }
  }

  lemma DecidingStaysInTurn(s: State, n: nat, rs: seq<Request>, k: nat, e: Event)
    requires s.phase == Deciding(n, rs, k) && InTurn(s)
    ensures InTurn(StepDeciding(s, n, rs, k, e))
  {
    AnswerOneMore(s.messages, rs, k, Tool(rs[k].call.id, DECLINED, NoRemark));
  }

  lemma RunningStaysInTurn(s: State, n: nat, rs: seq<Request>, k: nat, e: Event)
    requires s.phase == Running(n, rs, k) && InTurn(s)
    ensures InTurn(StepRunning(s, n, rs, k, e))
  {
    if e.Done? { AnswerOneMore(s.messages, rs, k, AppendedRunning(s, rs[k], e)[0]); }
  }

  lemma StepStaysInTurn(s: State, e: Event)
    requires InTurn(s)
    ensures InTurn(Step(s, e))
  {
    match s.phase
    case Idle =>
    case Starting(_) =>
    case Asking(n) => ReplyStartsTurn(s, n, e);
    case Deciding(n, rs, k) => DecidingStaysInTurn(s, n, rs, k, e);
    case Running(n, rs, k) => RunningStaysInTurn(s, n, rs, k, e);
  }

  /** At every point of every run, the answered calls of the last assistant message are a prefix of its calls. */
  lemma {:induction false} AnsweredIsPrefix(s: State, es: seq<Event>)
    requires InTurn(s)
    ensures InTurn(Run(s, es))
    decreases |es|
  {
    if es != [] {
      StepStaysInTurn(s, es[0]);
      AnsweredIsPrefix(Step(s, es[0]), es[1..]);
    }
  }

  /**
   Whatever came before, abandoned turns included, a cancellation while call k
   runs gives each of the calls from k on one invented result, in order, in
   both lists, and leaves none of the turn's calls open.
   */
  lemma CancelAnswersTheRest(s: State, es: seq<Event>)
    requires InTurn(s) && Run(s, es).phase.Running? && GoodIds(Run(s, es).phase.requests)
    ensures InTurn(Run(s, es))
    ensures
      var t, u := Run(s, es), Step(Run(s, es), Cancel);
      var rest := t.phase.requests[t.phase.k..];
      var more := seq(|rest|, j requires 0 <= j < |rest| =>
                        Tool(rest[j].call.id, "The user interrupted this turn before the tool ran.", NoRemark));
      && u.messages == t.messages + more && u.history == t.history + more
      && Answering(u.messages, t.phase.requests, |t.phase.requests|) && Unanswered(u.messages) == []
  {
    AnsweredIsPrefix(s, es);
    var t := Run(s, es);
    RepairAnswersTheRest(t.messages, t.phase.requests, t.phase.k);
    RepairIsIdempotent(t.messages);
    InterruptedIs(t.phase.requests, t.phase.k);
  }

  lemma InterruptedIs(rs: seq<Request>, k: nat)
    requires k <= |rs|
    ensures
      var rest := rs[k..];
      Interrupted(RequestIds(rs)[k..])
      == seq(|rest|, j requires 0 <= j < |rest| =>
               Tool(rest[j].call.id, "The user interrupted this turn before the tool ran.", NoRemark))
  {
  }

  /** Every compaction of the run meets no surviving result of a file being edited. */
  predicate HarmlessRun(s: State, es: seq<Event>)
    decreases |es|
  {
    es == []
    || ((s.phase.Starting? && es[0].Begin? ==> Harmless(s.messages, es[0].edited))
        && HarmlessRun(Step(s, es[0]), es[1..]))
  }

  lemma StepKeepsArchive(s: State, e: Event)
    requires Archived(s.messages, s.history)
    requires s.phase.Starting? && e.Begin? ==> Harmless(s.messages, e.edited)
    ensures Archived(Step(s, e).messages, Step(s, e).history)
  {
    if !s.phase.Starting? {
      StepAppends(s, e);
      ArchivedSnoc(s.messages, s.history, Appended(s, e));
    } else if e.Begin? && Compact(s.messages, e.over, e.edited).Compacted? {
      CompactionKeepsArchive(s.messages, s.history, e.over, e.edited);
    }
  }

  lemma CompactionKeepsArchive(ms: seq<Message>, history: seq<Message>, over: bool, edited: set<string>)
    requires Compact(ms, over, edited).Compacted? && Harmless(ms, edited) && Archived(ms, history)
    ensures Archived(Compact(ms, over, edited).messages, history)
  {
    var j := CompactionKeepsEnds(ms, over, edited);
    ArchivedCompaction(ms, history, j, j - 1);
  }

  /**
   At every state a run reaches, abandoned turns, crashes and any ids included,
   the working list is the archive, or its first message, one notice, and a
   contiguous suffix of it.
   */
  lemma {:induction false} ArchiveIsKept(s: State, es: seq<Event>)
    requires Archived(s.messages, s.history) && HarmlessRun(s, es)
    ensures Archived(Run(s, es).messages, Run(s, es).history)
    decreases |es|
  {
    if es != [] {
      StepKeepsArchive(s, es[0]);
      ArchiveIsKept(Step(s, es[0]), es[1..]);
    }
  }

  // ----- sessions as the client feeds them -----

  /** These calls are what the client made of some stream that gave no id to two of them. */
  ghost predicate FromClient(rs: seq<Request>) {
    exists ps, reason :: ClientMade(rs, ps, reason) && Client.NoClash(ps, reason)
  }

  predicate ClientMade(rs: seq<Request>, ps: Client.Partials, reason: string) {
    |rs| == |Client.Calls(Client.Ruling(ps, reason))|
    && forall k :: 0 <= k < |rs| ==> rs[k].call == Client.Calls(Client.Ruling(ps, reason))[k]
  }

  /**
   What is left to ask of the environment of a real session: no turn stops with
   later calls open, and no reply gives two calls one id, or one call the id that
   another, sent without any, falls back on.
   */
  ghost predicate Real(s: State, e: Event) {
    match e
    case Begin(_, _) => true
    case Reply(_, rs, _) => FromClient(rs)
    case _ => Fair(s, e)
  }

  ghost predicate RealRun(s: State, es: seq<Event>)
    decreases |es|
  {
    es == [] || (Real(s, es[0]) && RealRun(Step(s, es[0]), es[1..]))
  }

  lemma ClientIdsAreGood(rs: seq<Request>)
    requires FromClient(rs)
    ensures GoodIds(rs)
  {
    var ps, reason :| ClientMade(rs, ps, reason) && Client.NoClash(ps, reason);
    Client.IdsAreNeverEmpty(ps, reason);
    Client.IdsAreDistinctIff(ps, reason);
  }

  /** Nothing at all is asked of a reply that came without ids. */
  lemma IdlessRepliesAreReal(s: State, content: string, rs: seq<Request>, malformed: seq<string>,
                             ps: Client.Partials, reason: string)
    requires ClientMade(rs, ps, reason) && forall i :: i in ps ==> ps[i].id == ""
    ensures Real(s, Reply(content, rs, malformed))
  {
    Client.IdlessCallsAreDistinct(ps, reason);
    Client.IdsAreDistinctIff(ps, reason);
  }

  lemma TextAppends(a: seq<Message>, b: seq<Message>)
    requires TextOnly(a) && TextOnly(b)
    ensures TextOnly(a + b)
  {
  }

  /** Stored calls hold text, so a transcript that starts with text arguments keeps them. */
  lemma StepStaysText(s: State, e: Event)
    requires TextOnly(s.messages)
    ensures TextOnly(Step(s, e).messages)
  {
    if !s.phase.Starting? {
      StepAppends(s, e);
      TextAppends(s.messages, Appended(s, e));
    } else if e.Begin? && Compact(s.messages, e.over, e.edited).Compacted? {
      TextIsHarmless(s.messages, e.edited);
      var j := CompactionKeepsEnds(s.messages, e.over, e.edited);
    }
  }

  lemma RealIsFair(s: State, e: Event)
    requires Real(s, e) && TextOnly(s.messages)
    ensures Fair(s, e)
  {
    match e
    case Begin(_, edited) => TextIsHarmless(s.messages, edited);
    case Reply(_, rs, _) => ClientIdsAreGood(rs);
    case _ =>
  }

  lemma {:induction false} RealRunIsFair(s: State, es: seq<Event>)
    requires RealRun(s, es) && TextOnly(s.messages)
    ensures FairRun(s, es)
    decreases |es|
  {
    if es != [] {
      RealIsFair(s, es[0]);
      StepStaysText(s, es[0]);
      RealRunIsFair(Step(s, es[0]), es[1..]);
    }
  }

  /**
   A real session, new or resumed from an acceptable transcript with text
   arguments, sends only acceptable transcripts, whatever is being edited when
   it compacts.
   */
  lemma RealSessionsStayAcceptable(s: State, es: seq<Event>)
    requires Inv(s) && TextOnly(s.messages) && RealRun(s, es)
    ensures forall n :: |s.sent| <= n < |Run(s, es).sent| ==> EveryCallAnsweredOnce(Run(s, es).sent[n])
  {
    RealRunIsFair(s, es);
    EveryTranscriptSentIsAcceptable(s, es);
  }

  lemma {:induction false} TextRunIsHarmless(s: State, es: seq<Event>)
    requires TextOnly(s.messages)
    ensures HarmlessRun(s, es)
    decreases |es|
  {
    if es != [] {
      if es[0].Begin? { TextIsHarmless(s.messages, es[0].edited); }
      StepStaysText(s, es[0]);
      TextRunIsHarmless(Step(s, es[0]), es[1..]);
    }
  }

  /** With text arguments, as the client stores them, the archive theorem holds of every run without exception. */
  lemma TextArchiveIsKept(s: State, es: seq<Event>)
    requires Archived(s.messages, s.history) && TextOnly(s.messages)
    ensures Archived(Run(s, es).messages, Run(s, es).history)
  {
    TextRunIsHarmless(s, es);
    ArchiveIsKept(s, es);
  }

  // ----- the archive, and sessions resumed from it -----

  /** The archive has open what the working list has. */
  predicate InStep(s: State) {
    Pending(s.history) == Pending(s.messages)
  }

  lemma StepStaysInStep(s: State, e: Event)
    requires Inv(s) && InStep(s) && Fair(s, e)
    ensures InStep(Step(s, e))
  {
    if s.phase.Starting? {
      if e.Begin? { BeginKeepsInv(s, e); }
    } else {
      var more := Appended(s, e);
      StepAppends(s, e);
      PendingConcat(s.messages, more);
      PendingConcat(s.history, more);
    }
  }

  /**
   Over every fair run, whatever is compacted, the archive is acceptable whenever
   the working list is, and so at rest.
   */
  lemma {:induction false} ArchiveIsAcceptable(s: State, es: seq<Event>)
    requires Inv(s) && InStep(s) && FairRun(s, es)
    ensures Inv(Run(s, es)) && InStep(Run(s, es))
    ensures Run(s, es).phase.Idle? ==> EveryCallAnsweredOnce(Run(s, es).history)
    decreases |es|
  {
    if es == [] {
      if s.phase.Idle? { AcceptableIff(s.history); }
    } else {
      StepKeepsInv(s, es[0]);
      StepStaysInStep(s, es[0]);
      ArchiveIsAcceptable(Step(s, es[0]), es[1..]);
    }
  }

  /** A new session given the saved archive; the record of what was sent goes on. */
  function Resumed(s: State): State {
    State(s.history, s.history, map[], s.history != [], s.sent, Idle)
  }

  /** What a session needs so that it, and those resumed from it, send only what is accepted. */
  ghost predicate Sound(s: State) {
    && Inv(s) && InStep(s) && TextOnly(s.messages) && TextOnly(s.history)
    && (s.history != [] ==> Plain(s.history[0]))
  }

  lemma RealStepStaysSound(s: State, e: Event)
    requires Sound(s) && Real(s, e)
    ensures Sound(Step(s, e))
  {
    RealIsFair(s, e);
    StepKeepsInv(s, e);
    StepStaysInStep(s, e);
    StepStaysText(s, e);
    if !s.phase.Starting? {
      StepAppends(s, e);
      TextAppends(s.history, Appended(s, e));
    }
  }

  /** One session after another, each resumed from what the one before saved at rest. */
  function Lives(s: State, runs: seq<seq<Event>>): State
    decreases |runs|
  {
    if runs == [] then s else Lives(Resumed(Run(s, runs[0])), runs[1..])
  }

  ghost predicate RealLives(s: State, runs: seq<seq<Event>>)
    decreases |runs|
  {
    runs == []
    || (RealRun(s, runs[0]) && Run(s, runs[0]).phase.Idle? && RealLives(Resumed(Run(s, runs[0])), runs[1..]))
  }

  lemma {:induction false} RealRunStaysSound(s: State, es: seq<Event>)
    requires Sound(s) && RealRun(s, es)
    ensures Sound(Run(s, es))
    decreases |es|
  {
    if es != [] {
      RealStepStaysSound(s, es[0]);
      RealRunStaysSound(Step(s, es[0]), es[1..]);
    }
  }

  lemma ResumedIsSound(s: State)
    requires Sound(s) && s.phase.Idle?
    ensures Sound(Resumed(s))
  {
  }

  /** Resuming and compacting, as often as you like: every transcript sent is acceptable. */
  lemma {:induction false} ResumedSessionsStayAcceptable(s: State, runs: seq<seq<Event>>)
    requires Sound(s) && RealLives(s, runs)
    ensures Sound(Lives(s, runs)) && s.sent <= Lives(s, runs).sent
    ensures forall n :: |s.sent| <= n < |Lives(s, runs).sent| ==> EveryCallAnsweredOnce(Lives(s, runs).sent[n])
    decreases |runs|
  {
    if runs != [] {
      var t := Run(s, runs[0]);
      RealSessionsStayAcceptable(s, runs[0]);
      SentOnlyGrows(s, runs[0]);
      RealRunStaysSound(s, runs[0]);
      ResumedIsSound(t);
      ResumedSessionsStayAcceptable(Resumed(t), runs[1..]);
      assert forall n :: |s.sent| <= n < |t.sent| ==> Lives(s, runs).sent[n] == t.sent[n];
    }
  }

  lemma {:induction false} SentOnlyGrows(s: State, es: seq<Event>)
    ensures s.sent <= Run(s, es).sent
    decreases |es|
  {
    if es != [] {
      if !s.phase.Starting? { StepAppends(s, es[0]); }
      SentOnlyGrows(Step(s, es[0]), es[1..]);
    }
  }

  // ----- what an unfair stop leaves behind -----

  /** A turn given up at call k, or whose user cannot be asked, leaves exactly the later calls open. */
  lemma AbandonedTurnLeavesOpen(s: State, t: Message)
    requires Inv(s) && (s.phase.Deciding? || s.phase.Running?)
    requires t.Tool? && t.id == s.phase.requests[s.phase.k].call.id
    ensures Pending(Say(s, t).messages) == Some(RequestIds(s.phase.requests)[s.phase.k + 1..])
  {
    AnswerNext(s.messages, s.phase.requests, s.phase.k, t);
  }

  /** So after the stop the transcript is acceptable exactly when the call was the turn's last. */
  lemma StopIsAcceptableIff(s: State, e: Event)
    requires Inv(s)
    requires || (s.phase.Running? && e.Done? && GivesUp(s, e.outcome))
             || (s.phase.Deciding? && e == Decide(Unaskable))
             || (s.phase.Running? && e.Crash?) || (s.phase.Deciding? && e.Crash?)
    ensures Step(s, e).phase.Idle?
    ensures Acceptable(Step(s, e).messages) <==> !e.Crash? && s.phase.k + 1 == |s.phase.requests|
  {
    var rs, k := s.phase.requests, s.phase.k;
    if e.Crash? {
      MidTurnPending(s.messages, rs, k);
      assert |RequestIds(rs)[k..]| == |rs| - k;
    } else {
      var t := Step(s, e).messages[|s.messages|];
      assert Step(s, e).messages == Say(s, t).messages;
      AbandonedTurnLeavesOpen(s, t);
      assert |RequestIds(rs)[k + 1..]| == |rs| - k - 1;
    }
  }

  /** Something is open or out of order that no message added at the end can mend. */
  predicate Spoiled(s: State) {
    if s.phase.Idle? then !Acceptable(s.messages) else Pending(s.messages) == None
  }

  /** No compaction of the run does anything. */
  predicate Uncompacted(s: State, es: seq<Event>)
    decreases |es|
  {
    es == []
    || ((s.phase.Starting? && es[0].Begin? ==> !Compact(s.messages, es[0].over, es[0].edited).Compacted?)
        && Uncompacted(Step(s, es[0]), es[1..]))
  }

  lemma StepStaysSpoiled(s: State, e: Event)
    requires Spoiled(s)
    requires s.phase.Starting? && e.Begin? ==> !Compact(s.messages, e.over, e.edited).Compacted?
    ensures Spoiled(Step(s, e))
    ensures Step(s, e).sent == s.sent || (Step(s, e).sent == s.sent + [s.messages] && !Acceptable(s.messages))
  {
    if s.phase.Idle? {
      if e.Ask? { PendingSnoc(s.messages, User(!s.rulesSent, e.text)); }
    } else if !s.phase.Starting? {
      StepAppends(s, e);
      BrokenStaysBroken(s.messages, Appended(s, e));
    }
  }

  /**
   What an abandoned turn leaves is never mended: from then on every transcript
   any run sends is unacceptable, until a compaction, whatever is answered,
   cancelled or repaired meanwhile.
   */
  lemma {:induction false} SpoiledUntilCompacted(s: State, es: seq<Event>)
    requires Spoiled(s) && Uncompacted(s, es)
    ensures Spoiled(Run(s, es)) && s.sent <= Run(s, es).sent
    ensures forall n :: |s.sent| <= n < |Run(s, es).sent| ==> !EveryCallAnsweredOnce(Run(s, es).sent[n])
    decreases |es|
  {
    if es != [] {
      var t := Step(s, es[0]);
      StepStaysSpoiled(s, es[0]);
      SpoiledUntilCompacted(t, es[1..]);
      if t.sent != s.sent {
        AcceptableIff(s.messages);
        assert Run(t, es[1..]).sent[|s.sent|] == t.sent[|s.sent|];
      }
    }
  }

  /** A turn that stops with later calls open spoils the session in that way. */
  lemma AbandonedTurnSpoils(s: State, e: Event)
    requires Inv(s)
    requires || (s.phase.Running? && e.Done? && GivesUp(s, e.outcome))
             || (s.phase.Deciding? && e == Decide(Unaskable))
             || (s.phase.Running? && e.Crash?) || (s.phase.Deciding? && e.Crash?)
    requires e.Crash? || s.phase.k + 1 < |s.phase.requests|
    ensures Spoiled(Step(s, e))
  {
    StopIsAcceptableIff(s, e);
  }

  /** The archive has something open or out of order that nothing can mend. */
  predicate SpoiledArchive(s: State) {
    if s.phase.Idle? then !Acceptable(s.history) else Pending(s.history) == None
  }

  lemma StepStaysSpoiledArchive(s: State, e: Event)
    requires SpoiledArchive(s)
    ensures SpoiledArchive(Step(s, e))
  {
    if s.phase.Idle? {
      if e.Ask? { PendingSnoc(s.history, User(!s.rulesSent, e.text)); }
    } else if !s.phase.Starting? {
      StepAppends(s, e);
      BrokenStaysBroken(s.history, Appended(s, e));
    }
  }

  /** No run whatever mends the archive: compaction, which can mend the working list, does not touch it. */
  lemma {:induction false} ArchiveIsNeverMended(s: State, es: seq<Event>)
    requires SpoiledArchive(s)
    ensures SpoiledArchive(Run(s, es))
    decreases |es|
  {
    if es != [] {
      StepStaysSpoiledArchive(s, es[0]);
      ArchiveIsNeverMended(Step(s, es[0]), es[1..]);
    }
  }

  /** A turn that stops with later calls open spoils the archive too. */
  lemma AbandonedTurnSpoilsArchive(s: State, e: Event)
    requires Inv(s) && InStep(s)
    requires || (s.phase.Running? && e.Done? && GivesUp(s, e.outcome))
             || (s.phase.Deciding? && e == Decide(Unaskable))
             || (s.phase.Running? && e.Crash?) || (s.phase.Deciding? && e.Crash?)
    requires e.Crash? || s.phase.k + 1 < |s.phase.requests|
    ensures SpoiledArchive(Step(s, e))
  {
    StopIsAcceptableIff(s, e);
    StepAppends(s, e);
    PendingConcat(s.messages, Appended(s, e));
    PendingConcat(s.history, Appended(s, e));
  }

  /**
   So what a compaction hides comes back: whatever happened since, a session
   resumed from a spoiled archive sends nothing acceptable until it compacts.
   */
  lemma HiddenCallsComeBack(s: State, es: seq<Event>, more: seq<Event>)
    requires SpoiledArchive(s) && Run(s, es).phase.Idle? && Uncompacted(Resumed(Run(s, es)), more)
    ensures
      var t := Resumed(Run(s, es));
      forall n :: |t.sent| <= n < |Run(t, more).sent| ==> !EveryCallAnsweredOnce(Run(t, more).sent[n])
  {
    ArchiveIsNeverMended(s, es);
    SpoiledUntilCompacted(Resumed(Run(s, es)), more);
  }

  /** The transcript a next question is about to send, before it is compacted. */
  function Asked(s: State, text: string): seq<Message> {
    s.messages + [User(!s.rulesSent, text)]
  }

  /** What the next question sends: its transcript, compacted or not, or nothing if compacting raises. */
  lemma NextAskSends(s: State, text: string, over: bool, edited: set<string>)
    requires s.phase.Idle?
    ensures
      var t := Run(s, [Ask(text), Begin(over, edited)]);
      t.sent == s.sent + match Compact(Asked(s, text), over, edited)
                         case Raised => []
                         case Kept => [Asked(s, text)]
                         case Compacted(ms) => [ms]
  {
    assert [Ask(text), Begin(over, edited)][1..] == [Begin(over, edited)];
    var u := Step(s, Ask(text));
    assert u.messages == Asked(s, text) && u.sent == s.sent;
    assert Run(u, [Begin(over, edited)]) == Step(u, Begin(over, edited)) by {
      assert [Begin(over, edited)][1..] == [];
    }
  }

  /** Sent whole, it is acceptable exactly when nothing was left open. */
  lemma NextAskIsAcceptableIff(s: State, text: string)
    requires s.phase.Idle?
    ensures Acceptable(Asked(s, text)) <==> Acceptable(s.messages)
  {
    PendingSnoc(s.messages, User(!s.rulesSent, text));
  }

  /**
   Compacted, it is acceptable exactly when the suffix that survives is, if
   nothing is copied; and never, with ids distinct within each message, if
   something is.
   */
  lemma CompactedAskIsAcceptableIff(s: State, text: string, over: bool, edited: set<string>) returns (j: nat)
    requires s.phase.Idle? && Plain(Asked(s, text)[0])
    requires Compact(Asked(s, text), over, edited).Compacted?
    ensures 1 < j <= |Asked(s, text)| && Survivors(Asked(s, text)) == Asked(s, text)[j..]
    ensures Harmless(Asked(s, text), edited) ==>
              (Acceptable(Compact(Asked(s, text), over, edited).messages) <==> Acceptable(Asked(s, text)[j..]))
    ensures !Harmless(Asked(s, text), edited) && DistinctIds(Asked(s, text)) ==>
              !Acceptable(Compact(Asked(s, text), over, edited).messages)
  {
    var ms := Asked(s, text);
    j := SurvivorsAreSuffix(ms);
    CompactedPending(ms, over, edited, j);
  }

  /**
   So compaction can hide what an abandoned turn left open: when the last six
   messages are results and the question, only the question survives, and what
   is sent is acceptable whatever was open.
   */
  lemma CompactionHidesOpenCalls(ms: seq<Message>, over: bool, edited: set<string>)
    requires |ms| > SHORT && Plain(ms[0]) && ms[|ms| - 1].User? && Compact(ms, over, edited).Compacted?
    requires forall k :: |ms| - KEEP <= k < |ms| - 1 ==> ms[k].Tool?
    ensures Compact(ms, over, edited).messages == [ms[0], Notice(|ms| - 2), ms[|ms| - 1]]
    ensures Acceptable(Compact(ms, over, edited).messages)
  {
    SurvivorsStartAt(ms, |ms| - 1);
    OneSurvivor(ms, over, edited);
    QuestionStands(ms[0], |ms| - 2, ms[|ms| - 1]);
  }

  /** And it happens: one call of six left open, compacted away by the next question. */
  lemma OpenCallIsHidden()
    ensures Pending(SixCalls()) == Some(["f"])
    ensures
      var ms := SixCalls() + [User(false, "")];
      Compact(ms, true, {}).Compacted? && !Acceptable(ms) && Acceptable(Compact(ms, true, {}).messages)
  {
    var ms := SixCalls() + [User(false, "")];
    SixCallsPending();
    PendingSnoc(SixCalls(), User(false, ""));
    var j := TextRaisesIff(ms, {});
    SurvivorsStartAt(ms, 8);
    assert !NamingRaises(ms, ms[1..j]);
    CompactionHidesOpenCalls(ms, true, {});
  }

  function SixCalls(): seq<Message> {
    var ids := ["a", "b", "c", "d", "e", "f"];
    [User(false, ""), User(false, ""),
     Assistant("", seq(6, k requires 0 <= k < 6 => Call(ids[k], "grep", Text("{}"))))]
    + seq(5, k requires 0 <= k < 5 => Tool(ids[k], "", NoRemark))
  }

  lemma SixCallsPending()
    ensures Pending(SixCalls()) == Some(["f"])
  {
    var ms := SixCalls();
    var rs := seq(6, k requires 0 <= k < 6 => Request(Client.ToolCall(ms[2].calls[k].id, "grep", "{}"), ""));
    assert Stored(rs) == ms[2].calls;
    TwoQuestions(ms[..2]);
    MidTurnPending(ms, rs, 5);
    assert RequestIds(rs)[5..] == ["f"];
  }

  lemma TwoQuestions(ms: seq<Message>)
    requires |ms| == 2 && ms[0].User? && ms[1].User?
    ensures Acceptable(ms)
  {
    assert [] + [ms[0]] == [ms[0]] && [ms[0]] + [ms[1]] == ms;
    PendingSnoc([], ms[0]);
    PendingSnoc([ms[0]], ms[1]);
  }

  lemma QuestionStands(head: Message, n: nat, question: Message)
    requires Plain(head) && question.User?
    ensures Acceptable([head, Notice(n), question])
  {
    HeadStands(head, n, [question]);
    assert [head, Notice(n)] + [question] == [head, Notice(n), question];
    assert [] + [question] == [question];
    PendingSnoc([], question);
  }

  lemma OneSurvivor(ms: seq<Message>, over: bool, edited: set<string>)
    requires Compact(ms, over, edited).Compacted? && Survivors(ms) == ms[|ms| - 1..] && !ms[|ms| - 1].Tool?
    ensures Harmless(ms, edited)
    ensures Compact(ms, over, edited).messages == [ms[0], Notice(|ms| - 2), ms[|ms| - 1]]
  {
    assert ms[|ms| - 1..] == [ms[|ms| - 1]];
    var i := CompactionKeepsEnds(ms, over, edited);
    assert |ms[i..]| == 1;
  }

  // ----- how a question goes on, and how it ends -----

  /** What a call of a turn that goes on comes to: the user says no, or it runs. */
  datatype Answer = No | Ran(outcome: ToolOutcome)

  function AnswerEvents(a: Answer): seq<Event> {
    match a case No => [Decide(Declined)] case Ran(o) => [Decide(Go), Done(o)]
  }

  function AnswersEvents(answers: seq<Answer>): seq<Event> {
    if answers == [] then []
    else AnswersEvents(answers[..|answers| - 1]) + AnswerEvents(answers[|answers| - 1])
  }

  /** Call `k` ran, failed, and has this signature. */
  predicate FailedAs(rs: seq<Request>, answers: seq<Answer>, k: nat, key: string)
    requires k < |answers| <= |rs|
  {
    answers[k].Ran? && answers[k].outcome.isError && Signature(rs[k]) == key
  }

  /** How many of a turn's first `k` calls failed with this signature. */
  function FailedBefore(rs: seq<Request>, answers: seq<Answer>, k: nat, key: string): nat
    requires k <= |answers| <= |rs|
  {
    if k == 0 then 0
    else FailedBefore(rs, answers, k - 1, key) + if FailedAs(rs, answers, k - 1, key) then 1 else 0
  }

  /** Which failure of its signature call `k` is, if it is one. */
  function FailureNumber(s: State, rs: seq<Request>, answers: seq<Answer>, k: nat): nat
    requires k < |answers| <= |rs|
  {
    Count(s.failures, Signature(rs[k])) + FailedBefore(rs, answers, k + 1, Signature(rs[k]))
  }

  /** No call of the turn is a fourth failure. */
  predicate Bearable(s: State, rs: seq<Request>, answers: seq<Answer>)
    requires |answers| <= |rs|
  {
    forall k :: 0 <= k < |answers| && answers[k].Ran? && answers[k].outcome.isError ==>
      FailureNumber(s, rs, answers, k) < 4
  }

  /** The result that goes into the transcript for call `k`. */
  predicate ResultOf(s: State, rs: seq<Request>, answers: seq<Answer>, k: nat, m: Message)
    requires k < |answers| <= |rs|
  {
    && m.Tool? && m.id == rs[k].call.id
    && match answers[k]
       case No => m.content == "The user declined this one call." && m.remark == NoRemark
       case Ran(o) =>
         && m.content == o.content
         && m.remark == if o.isError && FailureNumber(s, rs, answers, k) >= 2
                        then Repeated(FailureNumber(s, rs, answers, k)) else NoRemark
  }

  predicate ResultsOf(s: State, rs: seq<Request>, answers: seq<Answer>, results: seq<Message>)
    requires |answers| <= |rs|
  {
    |results| == |answers| && forall k :: 0 <= k < |answers| ==> ResultOf(s, rs, answers, k, results[k])
  }

  /** After the first answers of a turn: `s` with their results said, and their failures counted. */
  ghost predicate Answered(s: State, t: State, n: nat, rs: seq<Request>, answers: seq<Answer>, results: seq<Message>)
    requires |answers| <= |rs|
  {
    && ResultsOf(s, rs, answers, results)
    && t.messages == s.messages + results && t.history == s.history + results
    && t.rulesSent == s.rulesSent && t.sent == s.sent
    && CountsOn(s.failures, t.failures, rs, answers)
    && t.phase == if |answers| < |rs| then Deciding(n, rs, |answers|) else if n + 1 < 40 then Starting(n + 1) else Idle
  }

  ghost predicate CountsOn(before: map<string, nat>, after: map<string, nat>, rs: seq<Request>, answers: seq<Answer>)
    requires |answers| <= |rs|
  {
    forall key :: Count(after, key) == Count(before, key) + FailedBefore(rs, answers, |answers|, key)
  }

  lemma {:induction false} FailedBeforePrefix(rs: seq<Request>, answers: seq<Answer>, more: seq<Answer>,
                                              k: nat, key: string)
    requires k <= |answers| <= |answers + more| <= |rs|
    ensures FailedBefore(rs, answers + more, k, key) == FailedBefore(rs, answers, k, key)
    decreases k
  {
    if k > 0 {
      FailedBeforePrefix(rs, answers, more, k - 1, key);
      assert (answers + more)[k - 1] == answers[k - 1];
    }
  }

  lemma PrefixResults(s: State, rs: seq<Request>, answers: seq<Answer>, a: Answer)
    requires |answers| < |rs| && Bearable(s, rs, answers + [a])
    ensures Bearable(s, rs, answers)
    ensures forall k, m :: 0 <= k < |answers| ==>
              (ResultOf(s, rs, answers, k, m) <==> ResultOf(s, rs, answers + [a], k, m))
  {
    forall k | 0 <= k < |answers|
      ensures FailureNumber(s, rs, answers, k) == FailureNumber(s, rs, answers + [a], k)
      ensures (answers + [a])[k] == answers[k]
    {
      FailedBeforePrefix(rs, answers, [a], k + 1, Signature(rs[k]));
    }
  }

  /** One more answer. */
  lemma AnswersOnce(s: State, t: State, n: nat, rs: seq<Request>, answers: seq<Answer>, results: seq<Message>,
                    a: Answer) returns (more: Message)
    requires |answers| < |rs| && Answered(s, t, n, rs, answers, results) && Bearable(s, rs, answers + [a])
    ensures Answered(s, Run(t, AnswerEvents(a)), n, rs, answers + [a], results + [more])
  {
    var k, key := |answers|, Signature(rs[|answers|]);
    PrefixResults(s, rs, answers, a);
    forall other ensures FailedBefore(rs, answers + [a], k, other) == FailedBefore(rs, answers, k, other) {
      FailedBeforePrefix(rs, answers, [a], k, other);
    }
    assert Count(t.failures, key) == Count(s.failures, key) + FailedBefore(rs, answers, k, key);
    match a
    case No =>
      more := Tool(rs[k].call.id, DECLINED, NoRemark);
      RunOne(t, Decide(Declined));
      ToBoth(s, t, results, more);
    case Ran(o) =>
      var failures := Note(t.failures, rs[k], o);
      more := Tool(rs[k].call.id, o.content, RemarkOn(failures, rs[k], o));
      RunTwo(t, Decide(Go), Done(o));
      ToBoth(s, t, results, more);
      assert Bearable(s, rs, answers + [a]) && (answers + [a])[k] == a;
      assert o.isError ==> Count(failures, key) == FailureNumber(s, rs, answers + [a], k) < 4;
      NotedOnce(s.failures, t.failures, rs, answers, o);
  }

  lemma ToBoth(s: State, t: State, results: seq<Message>, more: Message)
    requires t.messages == s.messages + results && t.history == s.history + results
    ensures Say(t, more).messages == s.messages + (results + [more])
    ensures Say(t, more).history == s.history + (results + [more])
  {
  }

  lemma NotedOnce(before: map<string, nat>, now: map<string, nat>, rs: seq<Request>, answers: seq<Answer>,
                  o: ToolOutcome)
    requires |answers| < |rs| && CountsOn(before, now, rs, answers)
    ensures CountsOn(before, Note(now, rs[|answers|], o), rs, answers + [Ran(o)])
  {
    var k, after := |answers|, Note(now, rs[|answers|], o);
    forall key ensures Count(after, key) == Count(before, key) + FailedBefore(rs, answers + [Ran(o)], k + 1, key) {
      FailedBeforePrefix(rs, answers, [Ran(o)], k, key);
      assert Count(now, key) == Count(before, key) + FailedBefore(rs, answers, k, key);
    }
  }

  lemma {:induction false} AnswersAreRecorded(s: State, n: nat, rs: seq<Request>, answers: seq<Answer>)
    returns (results: seq<Message>)
    requires rs != [] && s.phase == Deciding(n, rs, 0) && |answers| <= |rs| && Bearable(s, rs, answers)
    ensures Answered(s, Run(s, AnswersEvents(answers)), n, rs, answers, results)
    decreases |answers|
  {
    if answers == [] {
      results := [];
      assert s.messages + [] == s.messages && s.history + [] == s.history;
    } else {
      var front, a := answers[..|answers| - 1], answers[|answers| - 1];
      assert front + [a] == answers;
      PrefixResults(s, rs, front, a);
      var before := AnswersAreRecorded(s, n, rs, front);
      var more := AnswersOnce(s, Run(s, AnswersEvents(front)), n, rs, front, before, a);
      RunConcat(s, AnswersEvents(front), AnswerEvents(a));
      results := before + [more];
    }
  }

  /**
   A question goes on after a turn's calls: whatever the user refuses and
   whatever fails, as long as no call fails a fourth time, the next request is
   the transcript, the reply with its calls, and the result of each in order.
   */
  lemma TurnIsSent(s: State, n: nat, content: string, rs: seq<Request>, malformed: seq<string>,
                   answers: seq<Answer>, over: bool, edited: set<string>)
    returns (calls: seq<Call>, results: seq<Message>)
    requires s.phase == Asking(n) && n + 1 < 40 && rs != [] && |answers| == |rs| && Bearable(s, rs, answers)
    ensures |calls| == |rs| && forall k :: 0 <= k < |rs| ==>
              calls[k] == Call(rs[k].call.id, rs[k].call.name, Text(rs[k].call.arguments))
    ensures ResultsOf(s, rs, answers, results)
    ensures
      var said := s.messages + [Assistant(content, calls)] + results;
      var t := Run(s, [Reply(content, rs, malformed)] + AnswersEvents(answers) + [Begin(over, edited)]);
      Compact(said, over, edited).Kept? ==>
        t.messages == said && t.sent == s.sent + [said] && t.phase == Asking(n + 1)
  {
    calls := Stored(rs);
    var reply := Reply(content, rs, malformed);
    var u := Step(s, reply);
    RunOne(s, reply);
    results := AnswersAreRecorded(u, n, rs, answers);
    RunConcat(s, [reply], AnswersEvents(answers));
    RunConcat(s, [reply] + AnswersEvents(answers), [Begin(over, edited)]);
    RunOne(Run(u, AnswersEvents(answers)), Begin(over, edited));
    assert forall k :: 0 <= k < |answers| ==>
      FailureNumber(s, rs, answers, k) == FailureNumber(u, rs, answers, k);
  }

  /** So it does when nothing of what the model called could run: it is asked to try again. */
  lemma RetryIsSent(s: State, n: nat, content: string, malformed: seq<string>, over: bool, edited: set<string>)
    requires s.phase == Asking(n) && n + 1 < 40 && malformed != []
    ensures
      var said := s.messages
        + [Assistant(content, []),
           User(false, "Your tool call did not arrive intact: " + Joined(malformed) + ". Please try again.")];
      var t := Run(s, [Reply(content, [], malformed), Begin(over, edited)]);
      Compact(said, over, edited).Kept? ==>
        t.messages == said && t.sent == s.sent + [said] && t.phase == Asking(n + 1)
  {
    RunTwo(s, Reply(content, [], malformed), Begin(over, edited));
    var a, u := Assistant(content, []), User(false, PleaseRetry(malformed));
    assert Stored([]) == [];
    assert s.messages + [a] + [u] == s.messages + [a, u];
  }

  /** The notes stand one behind the other, with "; " between any two. */
  lemma {:induction false} JoinedIs(texts: seq<string>, last: string)
    ensures Joined([]) == "" && Joined([last]) == last
    ensures texts != [] ==> Joined(texts + [last]) == Joined(texts) + "; " + last
    decreases |texts|
  {
    if |texts| == 1 {
      assert (texts + [last])[1..] == [last];
    } else if |texts| > 1 {
      assert (texts + [last])[0] == texts[0] && (texts + [last])[1..] == texts[1..] + [last];
      JoinedIs(texts[1..], last);
    }
  }

  /** Asking a user who cannot be asked is answered so, and ends the question. */
  lemma UnaskableIsAnswered(s: State)
    requires s.phase.Deciding? && s.phase.k < |s.phase.requests|
    ensures
      var t := Step(s, Decide(Unaskable));
      var m := Tool(s.phase.requests[s.phase.k].call.id, "The user could not be asked, so this did not run.", NoRemark);
      t.messages == s.messages + [m] && t.history == s.history + [m] && t.phase.Idle?
  {
  }

  /** An event that ends a question, and why. */
  predicate Ends(s: State, e: Event) {
    match s.phase
    case Idle => false
    case Starting(_) => e.Begin? && Compact(s.messages, e.over, e.edited).Raised?
    case Asking(n) =>
      || e.NoReply? || e.Cancel?
      || (e.Reply? && e.requests == [] && (e.malformed == [] || n + 1 >= 40))    // an answer, or the fortieth request
    case Deciding(n, rs, k) =>
      k < |rs| && (e.Crash? || e == Decide(Unaskable) || (e == Decide(Declined) && k + 1 == |rs| && n + 1 >= 40))
    case Running(n, rs, k) =>
      k < |rs| &&
      (|| e.Crash? || e.Cancel?
       || (e.Done? && e.outcome.isError && Count(s.failures, Signature(rs[k])) + 1 >= 4)    // a fourth failure
       || (e.Done? && k + 1 == |rs| && n + 1 >= 40))
  }

  /** A question comes back to rest only so. */
  lemma QuestionEndsIff(s: State, e: Event)
    requires !s.phase.Idle?
    ensures Step(s, e).phase.Idle? <==> Ends(s, e)
  {
  }

  // ----- the guards against loops -----
  // ----- the guards against loops -----

  /** This event is one execution, and failure, of the call with this signature. */
  predicate Fails(s: State, e: Event, key: string) {
    && s.phase.Running? && s.phase.k < |s.phase.requests| && e.Done? && e.outcome.isError
    && Signature(s.phase.requests[s.phase.k]) == key
  }

  /** How often that happens in a run. */
  function Failures(s: State, es: seq<Event>, key: string): nat
    decreases |es|
  {
    if es == [] then 0
    else (if Fails(s, es[0], key) then 1 else 0) + Failures(Step(s, es[0]), es[1..], key)
  }

  lemma FailureIsCounted(s: State, e: Event, key: string)
    ensures Count(Step(s, e).failures, key) == Count(s.failures, key) + if Fails(s, e, key) then 1 else 0
    ensures Fails(s, e, key) && Count(s.failures, key) + 1 >= REPEAT_ABORT ==> Step(s, e).phase.Idle?
  {
  }

  /** How many questions a run asks. */
  function Asks(s: State, es: seq<Event>): nat
    decreases |es|
  {
    if es == [] then 0 else (if s.phase.Idle? && es[0].Ask? then 1 else 0) + Asks(Step(s, es[0]), es[1..])
  }

  lemma {:induction false} FailuresAreCounted(s: State, es: seq<Event>, key: string)
    ensures Count(Run(s, es).failures, key) == Count(s.failures, key) + Failures(s, es, key)
    decreases |es|
  {
    if es != [] {
      FailureIsCounted(s, es[0], key);
      FailuresAreCounted(Step(s, es[0]), es[1..], key);
    }
  }

  /** Names without a colon keep the signatures of all calls apart. */
  lemma SignatureIsInjective(a: Request, b: Request)
    requires ':' !in a.call.name && ':' !in b.call.name
    ensures Signature(a) == Signature(b) <==> a.call.name == b.call.name && a.decoded == b.decoded
  {
    if Signature(a) == Signature(b) {
      var m, n := |a.call.name|, |b.call.name|;
      assert Signature(a)[m] == ':' && Signature(b)[n] == ':';
      assert forall i :: 0 <= i < m ==> Signature(a)[i] == a.call.name[i];
      assert forall i :: 0 <= i < n ==> Signature(b)[i] == b.call.name[i];
      assert m == n;
      assert a.call.name == Signature(a)[..m] && b.call.name == Signature(b)[..n];
      assert a.decoded == Signature(a)[m + 1..] && b.decoded == Signature(b)[n + 1..];
    }
  }

  /**
   Over a whole session: the first failure of a call passes without a remark,
   the second and third are remarked on with their number, and from the fourth
   on the question is given up.  A call that succeeds is never remarked on.
   */
  lemma RemarkIsByCount(s: State, es: seq<Event>, o: ToolOutcome)
    requires s.failures == map[] && Run(s, es).phase.Running?
    requires Run(s, es).phase.k < |Run(s, es).phase.requests|
    ensures
      var t := Run(s, es);
      var r := t.phase.requests[t.phase.k];
      var c := Failures(s, es, Signature(r)) + 1;
      && Step(t, Done(o)).messages == t.messages + [Tool(r.call.id, o.content,
           if !o.isError || c == 1 then NoRemark else if c <= 3 then Repeated(c) else GivingUp(c))]
      && (o.isError && c >= 4 ==> Step(t, Done(o)).phase.Idle?)
  {
    var t := Run(s, es);
    FailuresAreCounted(s, es, Signature(t.phase.requests[t.phase.k]));
  }

  function Max(a: int, b: int): int { if a < b then b else a }

  lemma {:induction false} CountIsBounded(s: State, es: seq<Event>, key: string, limit: nat, asks: nat)
    requires limit >= REPEAT_ABORT - 1
    requires Count(s.failures, key) <= limit + asks - (if s.phase.Idle? then 0 else 1)
    requires !s.phase.Idle? ==> asks >= 1
    ensures Count(Run(s, es).failures, key) <= limit + asks + Asks(s, es)
    decreases |es|
  {
    if es != [] {
      FailureIsCounted(s, es[0], key);
      CountIsBounded(Step(s, es[0]), es[1..], key, limit, asks + if s.phase.Idle? && es[0].Ask? then 1 else 0);
    }
  }

  /**
   From any resting state, u questions let one call run and fail at most
   max(0, 3 - c) + u times, where c is how often it has failed already: at most
   four times in one question, at most 3 + u in a session of u.
   */
  lemma LoopsAreBounded(s: State, es: seq<Event>, key: string)
    requires s.phase.Idle?
    ensures Failures(s, es, key) <= Max(0, REPEAT_ABORT - 1 - Count(s.failures, key)) + Asks(s, es)
  {
    CountIsBounded(s, es, key, Max(REPEAT_ABORT - 1, Count(s.failures, key)), 0);
    FailuresAreCounted(s, es, key);
  }

  /** Requests sent so far in the current question. */
  function SentThisAsk(p: Phase): nat {
    match p
    case Idle => MAX_STEPS
    case Starting(n) => n
    case Asking(n) => n + 1
    case Deciding(n, _, _) => n + 1
    case Running(n, _, _) => n + 1
  }

  /** Within a question its requests are numbered; outside, a question may send forty. */
  predicate Numbered(p: Phase) {
    match p case Starting(n) => n < MAX_STEPS case _ => SentThisAsk(p) <= MAX_STEPS
  }

  lemma StepSends(s: State, e: Event)
    requires Numbered(s.phase)
    ensures Numbered(Step(s, e).phase)
    ensures
      var t, more := Step(s, e), if s.phase.Idle? && e.Ask? then MAX_STEPS else 0;
      |t.sent| + SentThisAsk(s.phase) <= |s.sent| + SentThisAsk(t.phase) + more
  {
    if !s.phase.Starting? { StepAppends(s, e); }
  }

  lemma {:induction false} RequestsAreCounted(s: State, es: seq<Event>)
    requires Numbered(s.phase)
    ensures |Run(s, es).sent| + SentThisAsk(s.phase) <= |s.sent| + MAX_STEPS + MAX_STEPS * Asks(s, es)
    decreases |es|
  {
    if es != [] {
      StepSends(s, es[0]);
      RequestsAreCounted(Step(s, es[0]), es[1..]);
    }
  }

  /** u questions send at most 40u requests. */
  lemma RequestsAreBounded(s: State, es: seq<Event>)
    requires s.phase.Idle?
    ensures |Run(s, es).sent| <= |s.sent| + MAX_STEPS * Asks(s, es)
  {
    RequestsAreCounted(s, es);
  }
}

/**
 The loops of `Session`, proved to follow the state machine of module Protocol
 event by event, whatever the environment does at each await.
 */
module Sessions {
  import opened Wrappers
  import opened Transcript
  import opened Compaction
  import opened Protocol

  // ----- what the environment does -----

  /** One call: asked about and, if approved, run. */
  datatype CallScript =
    | Refused
    | NobodyToAsk
    | PreviewRaises
    | Returns(outcome: ToolOutcome)
    | RunCancelled
    | RunRaises

  datatype ReplyScript =
    | Arrives(content: string, requests: seq<Request>, malformed: seq<string>, calls: nat -> CallScript)
    | Fails
    | ReplyCancelled

  /** One iteration: the token estimate's answer, the files being edited, and the reply. */
  datatype TurnScript = TurnScript(over: bool, edited: set<string>, reply: ReplyScript)

  function CallEvent(c: CallScript): seq<Event> {
    match c
    case Refused => [Decide(Declined)]
    case NobodyToAsk => [Decide(Unaskable)]
    case PreviewRaises => [Crash]
    case Returns(o) => [Decide(Go), Done(o)]
    case RunCancelled => [Decide(Go), Cancel]
    case RunRaises => [Decide(Go), Crash]
  }

  function CallEvents(calls: nat -> CallScript, n: nat, k: nat): seq<Event>
    decreases n - k
  {
    if k >= n then [] else CallEvent(calls(k)) + CallEvents(calls, n, k + 1)
  }

  function ReplyEvents(r: ReplyScript): seq<Event> {
    match r
    case Arrives(content, requests, malformed, calls) =>
      [Reply(content, requests, malformed)] + CallEvents(calls, |requests|, 0)
    case Fails => [NoReply]
    case ReplyCancelled => [Cancel]
  }

  /** The events of iterations `step`, `step + 1`, ... of one question. */
  function TurnEvents(env: nat -> TurnScript, step: nat): seq<Event>
    decreases MAX_STEPS - step, env
  {
    if step >= MAX_STEPS then []
    else [Begin(env(step).over, env(step).edited)] + (ReplyEvents(env(step).reply) + TurnEvents(env, step + 1))
  }

  function AskEvents(text: string, env: nat -> TurnScript): seq<Event> {
    [Ask(text)] + TurnEvents(env, 0)
  }

  // ----- runs of scripts -----

  predicate AsksNothing(es: seq<Event>) {
    forall i :: 0 <= i < |es| ==> !es[i].Ask?
  }

  lemma {:induction false} IdleIgnores(s: State, es: seq<Event>)
    requires s.phase.Idle? && AsksNothing(es)
    ensures Run(s, es) == s
    decreases |es|
  {
    if es != [] { IdleIgnores(s, es[1..]); }
  }

  lemma {:induction false} CallsAskNothing(calls: nat -> CallScript, n: nat, k: nat)
    ensures AsksNothing(CallEvents(calls, n, k))
    decreases n - k
  {
    if k < n { CallsAskNothing(calls, n, k + 1); }
  }

  lemma BothAskNothing(a: seq<Event>, b: seq<Event>)
    requires AsksNothing(a) && AsksNothing(b)
    ensures AsksNothing(a + b)
  {
  }

  lemma ReplyAsksNothing(reply: ReplyScript)
    ensures AsksNothing(ReplyEvents(reply))
  {
    if reply.Arrives? { CallsAskNothing(reply.calls, |reply.requests|, 0); }
  }

  lemma {:induction false} TurnsAskNothing(env: nat -> TurnScript, step: nat)
    ensures AsksNothing(TurnEvents(env, step))
    decreases MAX_STEPS - step
  {
    if step < MAX_STEPS {
      var begin := Begin(env(step).over, env(step).edited);
      var reply, rest := ReplyEvents(env(step).reply), TurnEvents(env, step + 1);
      ReplyAsksNothing(env(step).reply);
      TurnsAskNothing(env, step + 1);
      BothAskNothing(reply, rest);
      FirstAsksNothing(begin, reply + rest);
      TurnEventsAre(env, step);
    }
  }

  lemma TurnEventsAre(env: nat -> TurnScript, step: nat)
    requires step < MAX_STEPS
    ensures TurnEvents(env, step)
         == [Begin(env(step).over, env(step).edited)] + (ReplyEvents(env(step).reply) + TurnEvents(env, step + 1))
  {
  }

  lemma FirstAsksNothing(e: Event, es: seq<Event>)
    requires !e.Ask? && AsksNothing(es)
    ensures AsksNothing([e] + es)
  {
  }

  /** One call's events, then the rest: `t` is where its events lead. */
  lemma AfterOneCall(s: State, calls: nat -> CallScript, n: nat, k: nat, t: State)
    requires k < n && t == Run(s, CallEvent(calls(k)))
    ensures Run(s, CallEvents(calls, n, k)) == Run(t, CallEvents(calls, n, k + 1))
    ensures t.phase.Idle? ==> Run(s, CallEvents(calls, n, k)) == t
  {
    RunConcat(s, CallEvent(calls(k)), CallEvents(calls, n, k + 1));
    if t.phase.Idle? {
      CallsAskNothing(calls, n, k + 1);
      IdleIgnores(t, CallEvents(calls, n, k + 1));
    }
  }

  /** Where one call's events lead from the point before it. */
  function AfterScript(s: State, n: nat, rs: seq<Request>, k: nat, c: CallScript): State
    requires k < |rs|
  {
    match c
    case Refused => Say(s, Tool(rs[k].call.id, DECLINED, NoRemark)).(phase := AfterCall(n, rs, k))
    case NobodyToAsk => Say(s, Tool(rs[k].call.id, NOT_ASKED, NoRemark)).(phase := Idle)
    case PreviewRaises => s.(phase := Idle)
    case Returns(o) => StepRunning(s, n, rs, k, Done(o))
    case RunCancelled => Repair(s).(phase := Idle)
    case RunRaises => s.(phase := Idle)
  }

  lemma ScriptLeads(s: State, n: nat, rs: seq<Request>, k: nat, c: CallScript)
    requires k < |rs| && s.phase == Deciding(n, rs, k)
    ensures Run(s, CallEvent(c)) == AfterScript(s, n, rs, k, c)
  {
    if c.Refused? || c.NobodyToAsk? || c.PreviewRaises? {
      OneEventLeads(s, n, rs, k, c);
    } else {
      TwoEventsLead(s, n, rs, k, c);
    }
  }

  lemma OneEventLeads(s: State, n: nat, rs: seq<Request>, k: nat, c: CallScript)
    requires k < |rs| && s.phase == Deciding(n, rs, k) && (c.Refused? || c.NobodyToAsk? || c.PreviewRaises?)
    ensures Run(s, CallEvent(c)) == AfterScript(s, n, rs, k, c)
  {
    var e := if c.Refused? then Decide(Declined) else if c.NobodyToAsk? then Decide(Unaskable) else Crash;
    assert CallEvent(c) == [e];
    StepsOnce(s, n, rs, k, e);
    assert StepDeciding(s, n, rs, k, e) == AfterScript(s, n, rs, k, c);
  }

  lemma TwoEventsLead(s: State, n: nat, rs: seq<Request>, k: nat, c: CallScript)
    requires k < |rs| && s.phase == Deciding(n, rs, k) && (c.Returns? || c.RunCancelled? || c.RunRaises?)
    ensures Run(s, CallEvent(c)) == AfterScript(s, n, rs, k, c)
  {
    var e := if c.Returns? then Done(c.outcome) else if c.RunCancelled? then Cancel else Crash;
    assert CallEvent(c) == [Decide(Go), e];
    GoThen(s, n, rs, k, e);
    EndsAs(s, n, rs, k, c, e);
  }

  lemma EndsAs(s: State, n: nat, rs: seq<Request>, k: nat, c: CallScript, e: Event)
    requires k < |rs| && s.phase == Deciding(n, rs, k) && (c.Returns? || c.RunCancelled? || c.RunRaises?)
    requires e == if c.Returns? then Done(c.outcome) else if c.RunCancelled? then Cancel else Crash
    ensures StepRunning(s.(phase := Running(n, rs, k)), n, rs, k, e) == AfterScript(s, n, rs, k, c)
  {
  }

  lemma StepsOnce(s: State, n: nat, rs: seq<Request>, k: nat, e: Event)
    requires k < |rs| && s.phase == Deciding(n, rs, k)
    ensures Run(s, [e]) == StepDeciding(s, n, rs, k, e)
  {
    RunOne(s, e);
  }

  /** An approved call is run from the same lists. */
  lemma GoThen(s: State, n: nat, rs: seq<Request>, k: nat, e: Event)
    requires k < |rs| && s.phase == Deciding(n, rs, k)
    ensures Run(s, [Decide(Go), e]) == StepRunning(s.(phase := Running(n, rs, k)), n, rs, k, e)
  {
    var running := s.(phase := Running(n, rs, k));
    RunTwo(s, Decide(Go), e);
    assert Step(s, Decide(Go)) == running;
    assert Step(running, e) == StepRunning(running, n, rs, k, e);
  }

  /** A compaction and a reply's own events, then the later iterations. */
  lemma AfterOneTurn(s: State, env: nat -> TurnScript, step: nat, t: State)
    requires step < MAX_STEPS
    requires t == Run(Step(s, Begin(env(step).over, env(step).edited)), ReplyEvents(env(step).reply))
    ensures Run(s, TurnEvents(env, step)) == Run(t, TurnEvents(env, step + 1))
    ensures t.phase.Idle? ==> Run(s, TurnEvents(env, step)) == t
  {
    var begin := Begin(env(step).over, env(step).edited);
    var rest := TurnEvents(env, step + 1);
    RunConcat(s, [begin], ReplyEvents(env(step).reply) + rest);
    RunOne(s, begin);
    RunConcat(Step(s, begin), ReplyEvents(env(step).reply), rest);
    TurnsAskNothing(env, step + 1);
    if t.phase.Idle? { IdleIgnores(t, rest); }
  }

  lemma ReplyThenCalls(s: State, content: string, rs: seq<Request>, malformed: seq<string>, calls: nat -> CallScript)
    ensures Run(s, ReplyEvents(Arrives(content, rs, malformed, calls)))
         == Run(Step(s, Reply(content, rs, malformed)), CallEvents(calls, |rs|, 0))
  {
    RunConcat(s, [Reply(content, rs, malformed)], CallEvents(calls, |rs|, 0));
    RunOne(s, Reply(content, rs, malformed));
  }

  // ----- how a question ends -----

  /** How running a turn's calls, or a whole question, ended: `Fell` is an exception, `Cancelled` a cancellation. */
  datatype Exit = GoesOn | Stops | Cancelled | Fell

  /** An event that ends a question ends it so. */
  function KindOf(e: Event): Exit {
    match e
    case Cancel => Cancelled
    case Crash => Fell
    case Begin(_, _) => Fell
    case _ => Stops
  }

  /** How these events end the question that is going on, if they do. */
  function EndOf(s: State, es: seq<Event>): Exit
    decreases |es|
  {
    if s.phase.Idle? || es == [] then GoesOn
    else if Step(s, es[0]).phase.Idle? then KindOf(es[0])
    else EndOf(Step(s, es[0]), es[1..])
  }

  /** The same for the caller, to whom coming to the end is no exception. */
  predicate Same(a: Exit, b: Exit) {
    a == b || (!a.Cancelled? && !a.Fell? && !b.Cancelled? && !b.Fell?)
  }

  /** These events lead to this state, and end the question so. */
  predicate Reaches(s: State, es: seq<Event>, end: State, how: Exit) {
    Run(s, es) == end && Same(EndOf(s, es), how)
  }

  function AtStep(step: nat): Phase {
    if step < MAX_STEPS then Starting(step) else Idle
  }

  lemma AllTaken(s: State, env: nat -> TurnScript, end: State, how: Exit)
    requires s.phase.Idle? && Reaches(s, TurnEvents(env, MAX_STEPS), end, how)
    ensures s == end && Same(Stops, how)
  {
  }

  lemma {:induction false} EndConcat(s: State, a: seq<Event>, b: seq<Event>)
    requires !s.phase.Idle? && AsksNothing(a) && AsksNothing(b)
    ensures EndOf(s, a + b) == if Run(s, a).phase.Idle? then EndOf(s, a) else EndOf(Run(s, a), b)
    decreases |a|
  {
    if a == [] {
      assert a + b == b;
    } else {
      assert (a + b)[0] == a[0] && (a + b)[1..] == a[1..] + b;
      var t := Step(s, a[0]);
      if t.phase.Idle? {
        IdleIgnores(t, a[1..]);
      } else {
        EndConcat(t, a[1..], b);
      }
    }
  }

  lemma EndAfterOneCall(s: State, calls: nat -> CallScript, n: nat, k: nat, t: State)
    requires k < n && !s.phase.Idle? && t == Run(s, CallEvent(calls(k)))
    ensures EndOf(s, CallEvents(calls, n, k))
         == if t.phase.Idle? then EndOf(s, CallEvent(calls(k))) else EndOf(t, CallEvents(calls, n, k + 1))
  {
    CallsAskNothing(calls, n, k + 1);
    EndConcat(s, CallEvent(calls(k)), CallEvents(calls, n, k + 1));
  }

  /** What one call's script makes of the question. */
  function ExitBy(c: CallScript): Exit {
    match c
    case Refused => GoesOn
    case NobodyToAsk => Stops
    case PreviewRaises => Fell
    case Returns(_) => GoesOn
    case RunCancelled => Cancelled
    case RunRaises => Fell
  }

  lemma ScriptEnds(s: State, n: nat, rs: seq<Request>, k: nat, c: CallScript)
    requires k < |rs| && s.phase == Deciding(n, rs, k)
    ensures Same(EndOf(s, CallEvent(c)), ExitBy(c))
    ensures ExitBy(c).Cancelled? || ExitBy(c).Fell? ==> Run(s, CallEvent(c)).phase.Idle?
  {
    ScriptLeads(s, n, rs, k, c);
    if c.Refused? || c.NobodyToAsk? || c.PreviewRaises? {
      EndOfOne(s, CallEvent(c)[0]);
    } else {
      EndOfTwo(s, Decide(Go), CallEvent(c)[1]);
    }
  }

  lemma EndOfOne(s: State, e: Event)
    requires !s.phase.Idle?
    ensures EndOf(s, [e]) == if Step(s, e).phase.Idle? then KindOf(e) else GoesOn
  {
    assert [e][1..] == [];
  }

  lemma EndOfTwo(s: State, e: Event, f: Event)
    requires !s.phase.Idle? && !Step(s, e).phase.Idle?
    ensures EndOf(s, [e, f]) == if Step(Step(s, e), f).phase.Idle? then KindOf(f) else GoesOn
  {
    assert [e, f][1..] == [f];
    EndOfOne(Step(s, e), f);
  }

  lemma EndAfterReply(s: State, content: string, rs: seq<Request>, malformed: seq<string>, calls: nat -> CallScript)
    requires !s.phase.Idle?
    ensures
      var t := Step(s, Reply(content, rs, malformed));
      EndOf(s, ReplyEvents(Arrives(content, rs, malformed, calls)))
      == if t.phase.Idle? then Stops else EndOf(t, CallEvents(calls, |rs|, 0))
  {
    var e, rest := Reply(content, rs, malformed), CallEvents(calls, |rs|, 0);
    assert ([e] + rest)[0] == e && ([e] + rest)[1..] == rest;
  }

  lemma EndAfterBegin(s: State, over: bool, edited: set<string>, rest: seq<Event>)
    requires !s.phase.Idle?
    ensures
      var t := Step(s, Begin(over, edited));
      EndOf(s, [Begin(over, edited)] + rest) == if t.phase.Idle? then Fell else EndOf(t, rest)
  {
    var e := Begin(over, edited);
    assert ([e] + rest)[0] == e && ([e] + rest)[1..] == rest;
  }

  lemma EndAfterOneTurn(s: State, env: nat -> TurnScript, step: nat, t: State)
    requires step < MAX_STEPS && !s.phase.Idle?
    requires t == Run(Step(s, Begin(env(step).over, env(step).edited)), ReplyEvents(env(step).reply))
    ensures EndOf(s, TurnEvents(env, step))
         == if t.phase.Idle? then EndOf(s, [Begin(env(step).over, env(step).edited)] + ReplyEvents(env(step).reply))
            else EndOf(t, TurnEvents(env, step + 1))
  {
    ReplyAsksNothing(env(step).reply);
    TurnsAskNothing(env, step + 1);
    TurnEventsAre(env, step);
    EndInTwo(s, Begin(env(step).over, env(step).edited), ReplyEvents(env(step).reply), TurnEvents(env, step + 1));
  }

  lemma EndInTwo(s: State, first: Event, a: seq<Event>, b: seq<Event>)
    requires !s.phase.Idle? && !first.Ask? && AsksNothing(a) && AsksNothing(b)
    ensures
      var t := Run(Step(s, first), a);
      EndOf(s, [first] + (a + b)) == if t.phase.Idle? then EndOf(s, [first] + a) else EndOf(t, b)
  {
    FirstAsksNothing(first, a);
    RunConcat(s, [first], a);
    RunOne(s, first);
    EndConcat(s, [first] + a, b);
    assert [first] + (a + b) == ([first] + a) + b;
  }

  // ----- the class -----

  class Session {
    var messages: seq<Message>
    var history: seq<Message>
    var failures: map<string, nat>
    var rulesSent: bool
    ghost var sent: seq<seq<Message>>

    ghost function Now(p: Phase): State
      reads this
    {
      State(messages, history, failures, rulesSent, sent, p)
    }

    constructor (initial: seq<Message>)
      ensures Now(Idle) == State(initial, initial, map[], initial != [], [], Idle)
    {
      messages, history := initial, initial;
      failures, rulesSent, sent := map[], initial != [], [];
    }

    method SayMessage(m: Message)
      modifies this`messages, this`history
      ensures messages == old(messages) + [m] && history == old(history) + [m]
    {
      messages := messages + [m];
      history := history + [m];
    }

    method Repetition(r: Request, o: ToolOutcome) returns (remark: Remark, giveUp: bool)
      modifies this`failures
      ensures failures == Note(old(failures), r, o)
      ensures remark == RemarkOn(failures, r, o) && giveUp == remark.GivingUp?
    {
      if !o.isError {
        return NoRemark, false;
      }
      var signature := Signature(r);
      failures := failures[signature := (if signature in failures then failures[signature] else 0) + 1];
      var count := failures[signature];
      if count < REPEAT_WARN {
        return NoRemark, false;
      }
      if count >= REPEAT_ABORT {
        return GivingUp(count), true;
      }
      return Repeated(count), false;
    }

    /** One call: ask, run, record. */
    method ExecuteOne(ghost n: nat, requests: seq<Request>, k: nat, script: CallScript) returns (exit: Exit)
      requires k < |requests|
      modifies this`messages, this`history, this`failures
      ensures
        var end := AfterScript(old(Now(Deciding(n, requests, k))), n, requests, k, script);
        match exit
        case GoesOn => Now(AfterCall(n, requests, k)) == end
        case Cancelled => Repair(Now(Idle)) == end
        case _ => Now(Idle) == end
      ensures Same(exit, ExitBy(script))
    {
      var request := requests[k];
      match script {
        case PreviewRaises =>
          return Fell;
        case NobodyToAsk =>
          SayMessage(Tool(request.call.id, NOT_ASKED, NoRemark));
          return Stops;
        case Refused =>
          SayMessage(Tool(request.call.id, DECLINED, NoRemark));
          return GoesOn;
        case RunCancelled =>
          return Cancelled;
        case RunRaises =>
          return Fell;
        case Returns(outcome) =>
          var remark, giveUp := Repetition(request, outcome);
          SayMessage(Tool(request.call.id, outcome.content, remark));
          return if giveUp then Stops else GoesOn;
      }
    }

    /** Run one turn's calls, answering each. */
    method Execute(ghost n: nat, requests: seq<Request>, calls: nat -> CallScript) returns (exit: Exit)
      requires requests != []
      modifies this`messages, this`history, this`failures
      ensures
        var end := Run(old(Now(Deciding(n, requests, 0))), CallEvents(calls, |requests|, 0));
        match exit
        case GoesOn => Now(NextStep(n)) == end
        case Cancelled => Repair(Now(Idle)) == end
        case _ => Now(Idle) == end
      ensures Same(exit, EndOf(old(Now(Deciding(n, requests, 0))), CallEvents(calls, |requests|, 0)))
    {
      ghost var end := Run(Now(Deciding(n, requests, 0)), CallEvents(calls, |requests|, 0));
      ghost var how := EndOf(Now(Deciding(n, requests, 0)), CallEvents(calls, |requests|, 0));
      for k := 0 to |requests|
        invariant Run(Now(if k < |requests| then Deciding(n, requests, k) else NextStep(n)),
                      CallEvents(calls, |requests|, k)) == end
        invariant Same(EndOf(Now(if k < |requests| then Deciding(n, requests, k) else NextStep(n)),
                             CallEvents(calls, |requests|, k)), how)
      {
        ghost var s := Now(Deciding(n, requests, k));
        ScriptLeads(s, n, requests, k, calls(k));
        AfterOneCall(s, calls, |requests|, k, AfterScript(s, n, requests, k, calls(k)));
        ScriptEnds(s, n, requests, k, calls(k));
        EndAfterOneCall(s, calls, |requests|, k, AfterScript(s, n, requests, k, calls(k)));
        exit := ExecuteOne(n, requests, k, calls(k));
        if !exit.GoesOn? { return; }
      }
      return GoesOn;
    }

    /** Ids requested by the most recent assistant message but never answered. */
    method UnansweredToolCalls() returns (ids: seq<string>)
      ensures ids == Unanswered(messages)
    {
      for index := |messages| downto 0
        invariant forall j :: index <= j < |messages| ==> !messages[j].Assistant?
      {
        if !messages[index].Assistant? { continue; }
        LastAssistantIs(messages, index);
        UnansweredIs(messages, index);
        var calls := messages[index].calls;
        if calls == [] { return []; }
        var answered := AnsweredIds(messages[index + 1..]);
        return Lacking(Ids(calls), answered);
      }
      NoAssistant(messages);
      return [];
    }

    method RepairAfterCancel() returns (closed: nat)
      modifies this`messages, this`history
      ensures Now(Idle) == old(Repair(Now(Idle)))
      ensures closed == |Unanswered(old(messages))|
    {
      var open := UnansweredToolCalls();
      for k := 0 to |open|
        invariant messages == old(messages) + Interrupted(open[..k])
        invariant history == old(history) + Interrupted(open[..k])
      {
        InterruptedOneMore(open, k);
        AppendOneMore(old(messages), Interrupted(open[..k]), Tool(open[k], INTERRUPTED, NoRemark));
        AppendOneMore(old(history), Interrupted(open[..k]), Tool(open[k], INTERRUPTED, NoRemark));
        SayMessage(Tool(open[k], INTERRUPTED, NoRemark));
      }
      assert open[..|open|] == open;
      return |open|;
    }

    /** How many copies of a result the tail gets; None when reading the arguments raises. */
    method CopiesToKeep(id: string, edited: set<string>) returns (copies: Option<nat>)
      ensures copies == Copies(messages, id, edited)
    {
      var count := 0;
      for i := 0 to |messages|
        invariant Copies(messages[..i], id, edited) == Some(count)
      {
        assert messages[..i + 1][..i] == messages[..i];
        var previous := messages[i];
        if !previous.Assistant? { continue; }
        var hit := false;
        for k := 0 to |previous.calls|
          invariant !hit && ProbeCalls(previous.calls[k..], id, edited) == ProbeCalls(previous.calls, id, edited)
        {
          var call := previous.calls[k];
          assert previous.calls[k..][1..] == previous.calls[k + 1..];
          if call.id == id && TouchesFile(call.name) {
            if call.arguments.Text? {
              RaisingPrefix(messages, i + 1, id, edited);
              return None;
            }
            if call.arguments.path in edited {
              hit := true;
              break;
            }
          }
        }
        if hit { count := count + 1; }
      }
      assert messages[..|messages|] == messages;
      return Some(count);
    }

    /** Whether naming the files of the dropped results raises. */
    method NamingFails(dropped: seq<Message>) returns (raised: bool)
      ensures raised == NamingRaises(messages, dropped)
    {
      for i := 0 to |dropped|
        invariant !NamingRaises(messages, dropped[..i])
      {
        assert dropped[..i + 1] == dropped[..i] + [dropped[i]];
        var result := dropped[i];
        if !result.Tool? { continue; }
        for j := 0 to |messages|
          invariant !NamingRaises(messages[..j], [result])
        {
          var previous := messages[j];
          assert messages[..j + 1] == messages[..j] + [previous];
          if !previous.Assistant? { continue; }
          for k := 0 to |previous.calls|
            invariant forall l :: 0 <= l < k ==>
              !(previous.calls[l].id == result.id && previous.calls[l].name == "read_file"
                && previous.calls[l].arguments.Text?)
          {
            var call := previous.calls[k];
            if call.id == result.id && call.name == "read_file" && call.arguments.Text? {
              return true;
            }
          }
        }
        assert messages[..|messages|] == messages;
      }
      assert dropped[..|dropped|] == dropped;
      return false;
    }

    /** The last messages, newest first, each put behind its copies; None when that raises. */
    method BuildTail(window: seq<Message>, edited: set<string>) returns (tail: Option<seq<Message>>)
      ensures tail == Tail(messages, window, edited)
    {
      var built: seq<Message> := [];
      for i := |window| downto 0
        invariant Tail(messages, window[i..], edited) == Some(built)
      {
        var message := window[i];
        assert window[i..][1..] == window[i + 1..];
        var copies := 0;
        if message.Tool? && edited != {} {
          var found := CopiesToKeep(message.id, edited);
          if found.None? {
            RaisingSuffix(messages, window, i, edited);
            return None;
          }
          copies := found.value;
        }
        built := Repeat(message, copies + 1) + built;
      }
      assert window[0..] == window;
      return Some(built);
    }

    /** `over` is what the token estimate says. */
    method CompactIfNeeded(over: bool, edited: set<string>) returns (raised: bool)
      modifies this`messages
      ensures
        match Compact(old(messages), over, edited)
        case Raised => raised && messages == old(messages)
        case Kept => !raised && messages == old(messages)
        case Compacted(ms) => !raised && messages == ms
    {
      if !over { return false; }
      if |messages| <= SHORT { return false; }
      assert messages[|messages| - KEEP..] == LastOf(messages);
      var built := BuildTail(messages[|messages| - KEEP..], edited);
      if built.None? { return true; }
      var tail := built.value;
      while tail != [] && tail[0].Tool?
        invariant DropResults(tail) == DropResults(built.value)
      {
        tail := tail[1..];
      }
      if |messages| <= 1 + |tail| { return false; }
      var dropped := |messages| - 1 - |tail|;
      raised := NamingFails(messages[1..|messages| - |tail|]);
      if !raised {
        messages := messages[..1] + [Notice(dropped)] + tail;
      }
    }

    /** One iteration: compact, ask for a reply, run its calls. */
    method OneTurn(ghost step: nat, turn: TurnScript) returns (exit: Exit)
      modifies this
      ensures
        var end := Run(Step(old(Now(Starting(step))), Begin(turn.over, turn.edited)), ReplyEvents(turn.reply));
        match exit
        case GoesOn => Now(NextStep(step)) == end
        case Cancelled => Repair(Now(Idle)) == end
        case _ => Now(Idle) == end
      ensures Same(exit, EndOf(old(Now(Starting(step))), [Begin(turn.over, turn.edited)] + ReplyEvents(turn.reply)))
    {
      EndAfterBegin(Now(Starting(step)), turn.over, turn.edited, ReplyEvents(turn.reply));
      var raised := CompactIfNeeded(turn.over, turn.edited);
      if raised {
        NothingMore(Now(Idle), turn.reply);
        return Fell;
      }
      sent := sent + [messages];
      exit := OneReply(step, turn.reply);
    }

    /** The reply and its calls, once the transcript is sent. */
    method OneReply(ghost step: nat, reply: ReplyScript) returns (exit: Exit)
      modifies this`messages, this`history, this`failures
      ensures
        var end := Run(old(Now(Asking(step))), ReplyEvents(reply));
        match exit
        case GoesOn => Now(NextStep(step)) == end
        case Cancelled => Repair(Now(Idle)) == end
        case _ => Now(Idle) == end
      ensures Same(exit, EndOf(old(Now(Asking(step))), ReplyEvents(reply)))
    {
      ghost var asking := Now(Asking(step));
      match reply {
        case Fails =>
          RunOne(asking, NoReply);
          EndOfOne(asking, NoReply);
          return Stops;
        case ReplyCancelled =>
          RunOne(asking, Cancel);
          EndOfOne(asking, Cancel);
          return Cancelled;
        case Arrives(content, requests, malformed, calls) =>
          ReplyThenCalls(asking, content, requests, malformed, calls);
          EndAfterReply(asking, content, requests, malformed, calls);
          SayMessage(Assistant(content, Stored(requests)));
          if requests != [] {
            exit := Execute(step, requests, calls);
            return;
          }
          if malformed == [] { return Stops; }
          SayMessage(User(false, PleaseRetry(malformed)));
          return GoesOn;
      }
    }

    /** One question, up to its end or its cancellation. */
    method AskOnce(text: string, env: nat -> TurnScript) returns (exit: Exit)
      modifies this
      ensures
        var end := Run(old(Now(Idle)), AskEvents(text, env));
        if exit.Cancelled? then Repair(Now(Idle)) == end else Now(Idle) == end
      ensures Same(exit, EndOf(Step(old(Now(Idle)), Ask(text)), TurnEvents(env, 0)))
    {
      ghost var start := Now(Idle);
      AskStarts(start, text, env);
      var rules := !rulesSent;
      rulesSent := true;
      SayMessage(User(rules, text));
      assert Now(Starting(0)) == Step(start, Ask(text));
      exit := StepLoop(env);
    }

    /** The loop over steps. */
    method StepLoop(env: nat -> TurnScript) returns (exit: Exit)
      modifies this
      ensures
        var end := Run(old(Now(Starting(0))), TurnEvents(env, 0));
        if exit.Cancelled? then Repair(Now(Idle)) == end else Now(Idle) == end
      ensures Same(exit, EndOf(old(Now(Starting(0))), TurnEvents(env, 0)))
    {
      ghost var end := Run(Now(Starting(0)), TurnEvents(env, 0));
      ghost var how := EndOf(Now(Starting(0)), TurnEvents(env, 0));
      for step := 0 to MAX_STEPS
        invariant Reaches(Now(AtStep(step)), TurnEvents(env, step), end, how)
      {
        exit := OneStep(env, step);
        if !exit.GoesOn? { return; }
      }
      AllTaken(Now(Idle), env, end, how);
      return Stops;
    }

    /** One iteration, as part of the rest of the question. */
    method OneStep(env: nat -> TurnScript, step: nat) returns (exit: Exit)
      requires step < MAX_STEPS
      modifies this
      ensures
        var end := Run(old(Now(Starting(step))), TurnEvents(env, step));
        match exit
        case GoesOn =>
          Reaches(Now(AtStep(step + 1)), TurnEvents(env, step + 1),
                  end, EndOf(old(Now(Starting(step))), TurnEvents(env, step)))
        case Cancelled => Repair(Now(Idle)) == end
        case _ => Now(Idle) == end
      ensures !exit.GoesOn? ==> Same(exit, EndOf(old(Now(Starting(step))), TurnEvents(env, step)))
    {
      ghost var s := Now(Starting(step));
      exit := OneTurn(step, env(step));
      ghost var t := match exit
                     case GoesOn => Now(NextStep(step))
                     case Cancelled => Repair(Now(Idle))
                     case _ => Now(Idle);
      AfterOneTurn(s, env, step, t);
      EndAfterOneTurn(s, env, step, t);
    }

    /** One question; a cancellation is repaired before it goes on to the caller. */
    method AskSession(text: string, env: nat -> TurnScript) returns (exit: Exit)
      modifies this
      ensures Now(Idle) == Run(old(Now(Idle)), AskEvents(text, env))
      ensures Same(exit, EndOf(Step(old(Now(Idle)), Ask(text)), TurnEvents(env, 0)))
    {
      exit := AskOnce(text, env);
      if exit.Cancelled? {
        var closed := RepairAfterCancel();
      }
    }
  }

  lemma AskStarts(s: State, text: string, env: nat -> TurnScript)
    ensures Run(s, AskEvents(text, env)) == Run(Step(s, Ask(text)), TurnEvents(env, 0))
  {
    RunConcat(s, [Ask(text)], TurnEvents(env, 0));
    RunOne(s, Ask(text));
  }

  lemma InterruptedOneMore(ids: seq<string>, k: nat)
    requires k < |ids|
    ensures Interrupted(ids[..k + 1]) == Interrupted(ids[..k]) + [Tool(ids[k], INTERRUPTED, NoRemark)]
  {
  }

  lemma AppendOneMore(ms: seq<Message>, more: seq<Message>, m: Message)
    ensures ms + more + [m] == ms + (more + [m])
  {
  }

  lemma NothingMore(s: State, reply: ReplyScript)
    requires s.phase.Idle?
    ensures Run(s, ReplyEvents(reply)) == s
  {
    ReplyAsksNothing(reply);
    IdleIgnores(s, ReplyEvents(reply));
  }

  lemma {:induction false} RaisingPrefix(ms: seq<Message>, n: nat, id: string, edited: set<string>)
    requires n <= |ms| && Copies(ms[..n], id, edited) == None
    ensures Copies(ms, id, edited) == None
    decreases |ms| - n
  {
    if n < |ms| {
      assert ms[..n + 1][..n] == ms[..n];
      RaisingPrefix(ms, n + 1, id, edited);
    } else {
      assert ms[..n] == ms;
    }
  }

  lemma {:induction false} RaisingSuffix(ms: seq<Message>, window: seq<Message>, i: nat, edited: set<string>)
    requires i <= |window| && Tail(ms, window[i..], edited) == None
    ensures Tail(ms, window, edited) == None
    decreases i
  {
    if i == 0 {
      assert window[0..] == window;
    } else {
      assert window[i - 1..][1..] == window[i..];
      RaisingSuffix(ms, window, i - 1, edited);
    }
  }
}

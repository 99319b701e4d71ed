/** The analyst loop (app/graphs/graph.py, app/graphs/nodes.py, app/graphs/analysis/turn_audit.py) as a step
    machine. Events carry everything the model, the tools and the human decide. */
module TurnLoop {
  import opened Wrappers

  datatype Message = Human | Assistant(calls: seq<string>) | ToolResult(call: string)

  datatype Node = Triage | Converse | Orchestrator | Analyze | Tools | Summarize | End

  /** `node` runs next; `analyses` counts analyze steps since the last human boundary. */
  datatype State = State(node: Node, messages: seq<Message>, turnCount: nat, recentToolCalls: seq<string>, analyses: nat)

  datatype Settings = Settings(maxAgentTurns: int, summaryTriggerEvery: int)

  datatype Event =
    | TriageStep(converse: bool)
    | ConverseReply
    | OrchestratorStep
    | AnalyzeStep(calls: seq<string>, fingerprint: string)
    | ToolsStep(resumed: bool, reply: bool)
    | SummarizeStep
    | NextMessage
    | FailedTurnMessage

  const REPEATED_TOOL_CALL_EXIT_THRESHOLD := 3
  const RECENT_TOOL_CALLS_MAXLEN := REPEATED_TOOL_CALL_EXIT_THRESHOLD

  // ----- routing

  /** The last three fingerprints are the same. */
  predicate HasRepeatedToolCalls(recent: seq<string>) {
    var n := |recent|;
    n >= REPEATED_TOOL_CALL_EXIT_THRESHOLD && recent[n - 1] == recent[n - 2] == recent[n - 3]
  }

  function AppendTurnFingerprint(recent: seq<string>, calls: seq<string>, fingerprint: string): seq<string> {
    var more := if calls == [] then recent else recent + [fingerprint];
    if |more| <= RECENT_TOOL_CALLS_MAXLEN then more else more[|more| - RECENT_TOOL_CALLS_MAXLEN..]
  }

  datatype StopReason = MaxAgentTurns | RepeatedToolCalls

  function PendingDispatchStopReason(settings: Settings, nextTurnCount: nat, recent: seq<string>): Option<StopReason> {
    if nextTurnCount >= settings.maxAgentTurns then Some(MaxAgentTurns)
    else if HasRepeatedToolCalls(recent) then Some(RepeatedToolCalls)
    else None
  }

  predicate LastMessageHasToolCalls(messages: seq<Message>) {
    messages != [] && messages[|messages| - 1].Assistant? && messages[|messages| - 1].calls != []
  }

  function RouteNode(settings: Settings, turnCount: nat, recent: seq<string>, messages: seq<Message>): Node {
    if turnCount >= settings.maxAgentTurns then End
    else if HasRepeatedToolCalls(recent) then End
    else if LastMessageHasToolCalls(messages) then Tools
    else End
  }

  function HumanTurns(messages: seq<Message>): nat {
    if messages == [] then 0 else HumanTurns(messages[1..]) + if messages[0].Human? then 1 else 0
  }

  function RouteBeforeAnalyze(settings: Settings, messages: seq<Message>): Node {
    if messages == [] || !messages[|messages| - 1].Human? then Orchestrator
    else
      var afterInitial := if HumanTurns(messages) == 0 then 0 else HumanTurns(messages) - 1;
      if settings.summaryTriggerEvery > 0 && afterInitial > 0 && afterInitial % settings.summaryTriggerEvery == 0
      then Summarize else Orchestrator
  }

  // ----- the analyze node's update

  function Results(calls: seq<string>): seq<Message> {
    seq(|calls|, i requires 0 <= i < |calls| => ToolResult(calls[i]))
  }

  function AnalyzeMessages(settings: Settings, s: State, calls: seq<string>, fingerprint: string): seq<Message> {
    if calls == [] then s.messages
    else
      s.messages + [Assistant(calls)] +
        if PendingDispatchStopReason(settings, s.turnCount + 1, AppendTurnFingerprint(s.recentToolCalls, calls, fingerprint)).Some?
        then Results(calls) else []
  }

  /** The state the analyze node leaves, as the code assembles it: calls the loop will not run are closed
      by synthetic results at once. */
  method AnalysisTurnResult(settings: Settings, s: State, calls: seq<string>, fingerprint: string)
    returns (turnCount: nat, recent: seq<string>, messages: seq<Message>)
    ensures turnCount == s.turnCount + 1
    ensures recent == AppendTurnFingerprint(s.recentToolCalls, calls, fingerprint)
    ensures messages == AnalyzeMessages(settings, s, calls, fingerprint)
  {
    turnCount := s.turnCount + 1;
    recent := s.recentToolCalls;
    if calls != [] {
      recent := recent + [fingerprint];
    }
    if |recent| > RECENT_TOOL_CALLS_MAXLEN {
      recent := recent[|recent| - RECENT_TOOL_CALLS_MAXLEN..];
    }
    messages := s.messages;
    if calls != [] {
      messages := messages + [Assistant(calls)];
      var reason := PendingDispatchStopReason(settings, turnCount, recent);
      if reason.Some? {
        messages := messages + Results(calls);
      }
    }
  }

  // ----- one step of the graph

  /** The calls the tools node answers: those of the last message. */
  function PendingCalls(messages: seq<Message>): seq<string> {
    if LastMessageHasToolCalls(messages) then messages[|messages| - 1].calls else []
  }

  /** The state after an event, if the event is possible at the node that runs next. A resumed interrupt
      and a new message are human boundaries: they reset the turn counter. */
  function Next(settings: Settings, s: State, e: Event): Option<State> {
    match e
    case TriageStep(converse) =>
      if s.node.Triage? then Some(s.(node := if converse then Converse else Orchestrator)) else None
    case ConverseReply =>
      if s.node.Converse?
      then Some(s.(node := Orchestrator, messages := s.messages + [Assistant([]), Human], turnCount := 0, analyses := 0))
      else None
    case OrchestratorStep => if s.node.Orchestrator? then Some(s.(node := Analyze)) else None
    case AnalyzeStep(calls, fingerprint) =>
      if s.node.Analyze? then
        var recent := AppendTurnFingerprint(s.recentToolCalls, calls, fingerprint);
        var messages := AnalyzeMessages(settings, s, calls, fingerprint);
        Some(State(RouteNode(settings, s.turnCount + 1, recent, messages), messages, s.turnCount + 1, recent, s.analyses + 1))
      else None
    case ToolsStep(resumed, reply) =>
      if s.node.Tools? then
        var messages := s.messages + Results(PendingCalls(s.messages)) + if reply then [Human] else [];
        Some(s.(node := RouteBeforeAnalyze(settings, messages), messages := messages,
                turnCount := if resumed then 0 else s.turnCount, analyses := if resumed then 0 else s.analyses))
      else None
    case SummarizeStep => if s.node.Summarize? then Some(s.(node := Orchestrator)) else None
    case NextMessage =>
      if s.node.End? then Some(State(Triage, s.messages + [Human], 0, [], 0)) else None
    case FailedTurnMessage =>
      Some(s.(node := Triage, messages := s.messages + [Human], turnCount := 0, analyses := 0))
  }

  predicate IsBoundary(e: Event) {
    e.ConverseReply? || e.NextMessage? || e.FailedTurnMessage? || (e.ToolsStep? && e.resumed)
  }

  /** The edges of the graph. */
  const EDGES := {
    (Triage, Converse), (Triage, Orchestrator), (Converse, Orchestrator), (Orchestrator, Analyze), (Analyze, Tools),
    (Analyze, End), (Tools, Summarize), (Tools, Orchestrator), (Summarize, Orchestrator)
  }

  /** Each step of the graph is possible at one node alone, and there always, and follows an edge; a message after
      the end, or after a failed turn at any node, enters at triage. */
  lemma {:induction false} StepFollowsGraph(settings: Settings, s: State, e: Event)
    ensures Next(settings, s, e).Some? <==>
      match e
      case TriageStep(_) => s.node == Triage
      case ConverseReply => s.node == Converse
      case OrchestratorStep => s.node == Orchestrator
      case AnalyzeStep(_, _) => s.node == Analyze
      case ToolsStep(_, _) => s.node == Tools
      case SummarizeStep => s.node == Summarize
      case NextMessage => s.node == End
      case FailedTurnMessage => true
    ensures Next(settings, s, e).Some? ==>
      var t := Next(settings, s, e).value;
      if e.NextMessage? || e.FailedTurnMessage? then t.node == Triage
      else (s.node, t.node) in EDGES && (e.TriageStep? ==> t.node == if e.converse then Converse else Orchestrator)
  {
  }

  // ----- calls and results

  /** The calls still open after `messages`, each closed by its result; None if a result closes nothing. */
  function OpenCalls(messages: seq<Message>): Option<seq<string>> {
    if messages == [] then Some([])
    else
      match OpenCalls(messages[..|messages| - 1])
      case None => None
      case Some(open) => Close(open, messages[|messages| - 1])
  }

  function Close(open: seq<string>, m: Message): Option<seq<string>> {
    match m
    case Human => Some(open)
    case Assistant(calls) => Some(open + calls)
    case ToolResult(call) => if open != [] && open[0] == call then Some(open[1..]) else None
  }

  /** Every call emitted so far has its result, in order, and no result stands alone. */
  predicate Closed(messages: seq<Message>) {
    OpenCalls(messages) == Some([])
  }

  function CallCount(messages: seq<Message>, id: string): nat {
    if messages == [] then 0
    else
      var last := messages[|messages| - 1];
      CallCount(messages[..|messages| - 1], id) + (if last.Assistant? then Occurrences(last.calls, id) else 0)
  }

  function ResultCount(messages: seq<Message>, id: string): nat {
    if messages == [] then 0
    else ResultCount(messages[..|messages| - 1], id) + (if messages[|messages| - 1] == ToolResult(id) then 1 else 0)
  }

  function Occurrences(ids: seq<string>, id: string): nat {
    if ids == [] then 0 else (if ids[0] == id then 1 else 0) + Occurrences(ids[1..], id)
  }

  lemma {:induction false} OccurrencesAppend(a: seq<string>, b: seq<string>, id: string)
    ensures Occurrences(a + b, id) == Occurrences(a, id) + Occurrences(b, id)
  {
    if a == [] {
      assert a + b == b;
    } else {
      assert (a + b)[1..] == a[1..] + b;
      OccurrencesAppend(a[1..], b, id);
    }
  }

  lemma {:induction false} OpenCallsCount(messages: seq<Message>, id: string)
    requires OpenCalls(messages).Some?
    ensures CallCount(messages, id) == ResultCount(messages, id) + Occurrences(OpenCalls(messages).value, id)
  {
    if messages != [] {
      var init, last := messages[..|messages| - 1], messages[|messages| - 1];
      OpenCallsCount(init, id);
      if last.Assistant? {
        OccurrencesAppend(OpenCalls(init).value, last.calls, id);
      }
    }
  }

  /** In a closed history each call has exactly as many results as times it was emitted: one, for unique ids. */
  lemma {:induction false} ClosedMeaning(messages: seq<Message>, id: string)
    requires Closed(messages)
    ensures ResultCount(messages, id) == CallCount(messages, id)
  {
    OpenCallsCount(messages, id);
  }

  lemma {:induction false} OpenCallsSnoc(messages: seq<Message>, m: Message)
    ensures OpenCalls(messages + [m]) ==
      if OpenCalls(messages).None? then None else Close(OpenCalls(messages).value, m)
  {
    assert (messages + [m])[..|messages|] == messages;
  }

  /** Results for all open calls close them. */
  lemma {:induction false} ResultsClose(messages: seq<Message>, calls: seq<string>)
    requires OpenCalls(messages) == Some(calls)
    ensures Closed(messages + Results(calls))
    decreases |calls|
  {
    if calls == [] {
      assert messages + Results(calls) == messages;
    } else {
      OpenCallsSnoc(messages, ToolResult(calls[0]));
      ResultsClose(messages + [ToolResult(calls[0])], calls[1..]);
      assert messages + Results(calls) == (messages + [ToolResult(calls[0])]) + Results(calls[1..]);
    }
  }

  // ----- what every step keeps

  function Limit(settings: Settings): nat {
    if settings.maxAgentTurns < 1 then 1 else settings.maxAgentTurns
  }

  /** The counter counts the analyze steps and leaves room for one more wherever one is ahead. */
  predicate Bounded(settings: Settings, s: State) {
    && s.analyses == s.turnCount <= Limit(settings)
    && (s.node.Orchestrator? || s.node.Analyze? || s.node.Summarize? || s.node.Triage? || s.node.Converse? ==>
          s.turnCount < settings.maxAgentTurns || s.turnCount == 0)
    && (s.node.Tools? ==> s.turnCount < settings.maxAgentTurns)
  }

  /** Calls wait at the tools node and nowhere else. */
  predicate Shaped(s: State) {
    s.node.Tools? <==> LastMessageHasToolCalls(s.messages)
  }

  /** Every call has its result, except those waiting at the tools node. */
  predicate Tidy(s: State) {
    if s.node.Tools? then OpenCalls(s.messages) == Some(PendingCalls(s.messages)) else Closed(s.messages)
  }

  /** More calls are open than the last message holds: some can never be closed again. */
  predicate Dangling(s: State) {
    OpenCalls(s.messages).None? || |OpenCalls(s.messages).value| > |PendingCalls(s.messages)|
  }

  ghost predicate Inv(settings: Settings, s: State) {
    Bounded(settings, s) && Shaped(s)
  }

  /** The stop reason agrees with the route: the loop dispatches the calls just emitted exactly when no
      reason was found, and it never goes on without calls. */
  lemma {:induction false} StopReasonAgreesWithRoute(settings: Settings, s: State, calls: seq<string>, fingerprint: string)
    requires !LastMessageHasToolCalls(s.messages)
    ensures var recent := AppendTurnFingerprint(s.recentToolCalls, calls, fingerprint);
      var messages := AnalyzeMessages(settings, s, calls, fingerprint);
      RouteNode(settings, s.turnCount + 1, recent, messages) ==
        if calls != [] && PendingDispatchStopReason(settings, s.turnCount + 1, recent).None? then Tools else End
  {
  }

  /** The reason not to dispatch, the limit before repetition, and where the loop goes without one. */
  lemma {:induction false} StopReasonMeaning(settings: Settings, turnCount: nat, recent: seq<string>, messages: seq<Message>)
    ensures var n := |recent|; var limit := turnCount >= settings.maxAgentTurns;
      var repeated := n >= 3 && recent[n - 1] == recent[n - 2] && recent[n - 2] == recent[n - 3];
      && PendingDispatchStopReason(settings, turnCount, recent) ==
           (if limit then Some(MaxAgentTurns) else if repeated then Some(RepeatedToolCalls) else None)
      && RouteNode(settings, turnCount, recent, messages) ==
           (if !limit && !repeated && LastMessageHasToolCalls(messages) then Tools else End)
  {
  }

  /** Every step keeps the counter bounded, whatever the model, the tools and the human do. */
  lemma {:induction false} StepKeepsInv(settings: Settings, s: State, e: Event)
    requires Inv(settings, s) && Next(settings, s, e).Some?
    ensures Inv(settings, Next(settings, s, e).value)
  {
    match e {
      case AnalyzeStep(calls, fingerprint) => StopReasonAgreesWithRoute(settings, s, calls, fingerprint);
      case _ =>
    }
  }

  lemma {:induction false} AnalyzeKeepsTidy(settings: Settings, s: State, calls: seq<string>, fingerprint: string)
    requires Inv(settings, s) && Tidy(s) && s.node.Analyze?
    ensures Tidy(Next(settings, s, AnalyzeStep(calls, fingerprint)).value)
  {
    var t := Next(settings, s, AnalyzeStep(calls, fingerprint)).value;
    StopReasonAgreesWithRoute(settings, s, calls, fingerprint);
    if calls != [] {
      var emitted := s.messages + [Assistant(calls)];
      OpenCallsSnoc(s.messages, Assistant(calls));
      assert OpenCalls(emitted) == Some(calls) by { assert [] + calls == calls; }
      if t.node.Tools? {
        assert t.messages == emitted;
      } else {
        ResultsClose(emitted, calls);
      }
    }
  }

  lemma {:induction false} AnswersClose(messages: seq<Message>, reply: bool)
    requires OpenCalls(messages) == Some(PendingCalls(messages))
    ensures Closed(messages + Results(PendingCalls(messages)) + if reply then [Human] else [])
  {
    var answered := messages + Results(PendingCalls(messages));
    ResultsClose(messages, PendingCalls(messages));
    OpenCallsSnoc(answered, Human);
    assert answered + [] == answered;
  }

  lemma {:induction false} ReplyKeepsClosed(messages: seq<Message>)
    requires Closed(messages)
    ensures Closed(messages + [Assistant([]), Human])
  {
    OpenCallsSnoc(messages, Assistant([]));
    var none: seq<string> := [];
    assert none + none == none;
    OpenCallsSnoc(messages + [Assistant([])], Human);
    assert messages + [Assistant([])] + [Human] == messages + [Assistant([]), Human];
  }

  /** Every step keeps the history tidy, except taking up a turn that failed at its tools. */
  lemma {:induction false} StepKeepsTidy(settings: Settings, s: State, e: Event)
    requires Inv(settings, s) && Tidy(s) && Next(settings, s, e).Some?
    requires !FailsAtTools(s, e)
    ensures Tidy(Next(settings, s, e).value)
  {
    match e {
      case AnalyzeStep(calls, fingerprint) => AnalyzeKeepsTidy(settings, s, calls, fingerprint);
      case ToolsStep(_, reply) => AnswersClose(s.messages, reply);
      case ConverseReply => ReplyKeepsClosed(s.messages);
      case NextMessage => OpenCallsSnoc(s.messages, Human);
      case FailedTurnMessage => OpenCallsSnoc(s.messages, Human);
      case _ =>
    }
  }

  /** A failed turn taken up while its calls wait at the tools node. */
  predicate FailsAtTools(s: State, e: Event) {
    e.FailedTurnMessage? && s.node.Tools?
  }

  lemma {:induction false} TidyIsNotDangling(s: State)
    requires Shaped(s)
    ensures !s.node.Tools? ==> (Dangling(s) <==> !Closed(s.messages))
    ensures Tidy(s) ==> !Dangling(s)
  {
  }

  /** `k` results close at most `k` calls. */
  lemma {:induction false} ResultsCloseAtMost(messages: seq<Message>, calls: seq<string>)
    ensures var after := OpenCalls(messages + Results(calls));
      after.None? || (OpenCalls(messages).Some? && |OpenCalls(messages).value| <= |after.value| + |calls|)
    decreases |calls|
  {
    if calls == [] {
      assert messages + Results(calls) == messages;
    } else {
      OpenCallsSnoc(messages, ToolResult(calls[0]));
      ResultsCloseAtMost(messages + [ToolResult(calls[0])], calls[1..]);
      assert messages + Results(calls) == (messages + [ToolResult(calls[0])]) + Results(calls[1..]);
    }
  }

  lemma {:induction false} AnalyzeKeepsDangling(settings: Settings, s: State, calls: seq<string>, fingerprint: string)
    requires Inv(settings, s) && Dangling(s) && s.node.Analyze?
    ensures Dangling(Next(settings, s, AnalyzeStep(calls, fingerprint)).value)
  {
    StopReasonAgreesWithRoute(settings, s, calls, fingerprint);
    if calls != [] {
      var emitted := s.messages + [Assistant(calls)];
      OpenCallsSnoc(s.messages, Assistant(calls));
      ResultsCloseAtMost(emitted, calls);
      assert emitted + [] == emitted;
    }
  }

  lemma {:induction false} ToolsKeepDangling(settings: Settings, s: State, resumed: bool, reply: bool)
    requires Inv(settings, s) && Dangling(s) && s.node.Tools?
    ensures Dangling(Next(settings, s, ToolsStep(resumed, reply)).value)
  {
    var answered := s.messages + Results(PendingCalls(s.messages));
    ResultsCloseAtMost(s.messages, PendingCalls(s.messages));
    OpenCallsSnoc(answered, Human);
    assert answered + [] == answered;
  }

  /** Once some call dangles, every later step leaves it so. */
  lemma {:induction false} StepKeepsDangling(settings: Settings, s: State, e: Event)
    requires Inv(settings, s) && Dangling(s) && Next(settings, s, e).Some?
    ensures Dangling(Next(settings, s, e).value)
  {
    match e {
      case AnalyzeStep(calls, fingerprint) => AnalyzeKeepsDangling(settings, s, calls, fingerprint);
      case ToolsStep(resumed, reply) => ToolsKeepDangling(settings, s, resumed, reply);
      case ConverseReply =>
        OpenCallsSnoc(s.messages, Assistant([]));
        OpenCallsSnoc(s.messages + [Assistant([])], Human);
        assert s.messages + [Assistant([])] + [Human] == s.messages + [Assistant([]), Human];
      case NextMessage => OpenCallsSnoc(s.messages, Human);
      case FailedTurnMessage => OpenCallsSnoc(s.messages, Human);
      case _ =>
    }
  }

  /** Taking up a turn that failed at its tools leaves its calls dangling. */
  lemma {:induction false} FailureDangles(settings: Settings, s: State, e: Event)
    requires Inv(settings, s) && Tidy(s) && FailsAtTools(s, e)
    ensures Dangling(Next(settings, s, e).value)
  {
    OpenCallsSnoc(s.messages, Human);
  }

  /** The state after a run of events, each possible where it occurs. */
  function Run(settings: Settings, s: State, events: seq<Event>): Option<State>
    decreases |events|
  {
    if events == [] then Some(s)
    else match Next(settings, s, events[0])
      case None => None
      case Some(t) => Run(settings, t, events[1..])
  }

  /** Along the run some failed turn is taken up at the tools node. */
  predicate SomeFailsAtTools(settings: Settings, s: State, events: seq<Event>)
    requires Run(settings, s, events).Some?
    decreases |events|
  {
    events != [] && (FailsAtTools(s, events[0]) || SomeFailsAtTools(settings, Next(settings, s, events[0]).value, events[1..]))
  }

  const START := State(Triage, [Human], 0, [], 0)

  lemma {:induction false} RunKeepsInv(settings: Settings, s: State, events: seq<Event>)
    requires Inv(settings, s) && Run(settings, s, events).Some?
    ensures Inv(settings, Run(settings, s, events).value)
    decreases |events|
  {
    if events != [] {
      StepKeepsInv(settings, s, events[0]);
      RunKeepsInv(settings, Next(settings, s, events[0]).value, events[1..]);
    }
  }

  lemma {:induction false} RunKeepsDangling(settings: Settings, s: State, events: seq<Event>)
    requires Inv(settings, s) && Dangling(s) && Run(settings, s, events).Some?
    ensures Dangling(Run(settings, s, events).value)
    decreases |events|
  {
    if events != [] {
      StepKeepsInv(settings, s, events[0]);
      StepKeepsDangling(settings, s, events[0]);
      RunKeepsDangling(settings, Next(settings, s, events[0]).value, events[1..]);
    }
  }

  /** From a tidy state a run ends tidy if no failed turn is taken up at the tools node, and else dangling. */
  lemma {:induction false} RunIsTidyOrDangling(settings: Settings, s: State, events: seq<Event>)
    requires Inv(settings, s) && Tidy(s) && Run(settings, s, events).Some?
    ensures var t := Run(settings, s, events).value;
      if SomeFailsAtTools(settings, s, events) then Dangling(t) else Tidy(t)
    decreases |events|
  {
    if events != [] {
      var next := Next(settings, s, events[0]).value;
      StepKeepsInv(settings, s, events[0]);
      if FailsAtTools(s, events[0]) {
        FailureDangles(settings, s, events[0]);
        RunKeepsDangling(settings, next, events[1..]);
      } else {
        StepKeepsTidy(settings, s, events[0]);
        RunIsTidyOrDangling(settings, next, events[1..]);
      }
    }
  }

  lemma {:induction false} StartInv(settings: Settings)
    ensures Inv(settings, START) && Tidy(START)
  {
    OpenCallsSnoc([], Human);
    assert [] + [Human] == [Human];
  }

  /** Main result, for any behaviour of model, tools and human, failures included: between human boundaries
      at most max(1, max_agent_turns) analyze steps happen, and wherever no calls wait at the tools node every
      call has its result, exactly when no failed turn was taken up at the tools node along the run. */
  lemma {:induction false} LoopIsBoundedAndClosed(settings: Settings, events: seq<Event>)
    requires Run(settings, START, events).Some?
    ensures var s := Run(settings, START, events).value;
      && s.analyses <= Limit(settings)
      && (!s.node.Tools? ==> (Closed(s.messages) <==> !SomeFailsAtTools(settings, START, events)))
      && (Closed(s.messages) ==> forall id :: ResultCount(s.messages, id) == CallCount(s.messages, id))
  {
    var s := Run(settings, START, events).value;
    StartInv(settings);
    RunKeepsInv(settings, START, events);
    RunIsTidyOrDangling(settings, START, events);
    TidyIsNotDangling(s);
    if Closed(s.messages) {
      forall id { ClosedMeaning(s.messages, id); }
    }
  }

  /** From any tidy state on: a failed turn taken up while its tools had not answered leaves calls open
      wherever the run goes, and only such a turn does. */
  lemma {:induction false} FailedTurnLeavesCallsOpen(settings: Settings, s: State, events: seq<Event>)
    requires Inv(settings, s) && Tidy(s) && Run(settings, s, [FailedTurnMessage] + events).Some?
    requires !Run(settings, s, [FailedTurnMessage] + events).value.node.Tools?
    requires var all := [FailedTurnMessage] + events; !SomeFailsAtTools(settings, Next(settings, s, all[0]).value, all[1..])
    ensures Closed(Run(settings, s, [FailedTurnMessage] + events).value.messages) <==> !s.node.Tools?
  {
    var all := [FailedTurnMessage] + events;
    RunKeepsInv(settings, s, all);
    RunIsTidyOrDangling(settings, s, all);
    TidyIsNotDangling(Run(settings, s, all).value);
  }

  lemma {:induction false} RunCons(settings: Settings, s: State, e: Event, rest: seq<Event>)
    requires Next(settings, s, e).Some?
    ensures var t := Next(settings, s, e).value;
      && Run(settings, s, [e] + rest) == Run(settings, t, rest)
      && (Run(settings, t, rest).Some? ==>
            (SomeFailsAtTools(settings, s, [e] + rest) <==> FailsAtTools(s, e) || SomeFailsAtTools(settings, t, rest)))
  {
    assert ([e] + rest)[0] == e && ([e] + rest)[1..] == rest;
  }

  /** The shortest such run: the first analyze step emits a call, and the turn fails before its tool answers. */
  lemma {:induction false} ToolFailureLeavesCallOpen(settings: Settings, call: string, fingerprint: string)
    ensures var events := [TriageStep(false), OrchestratorStep, AnalyzeStep([call], fingerprint), FailedTurnMessage];
      && Run(settings, START, events).Some? && !Run(settings, START, events).value.node.Tools?
      && (Closed(Run(settings, START, events).value.messages) <==> settings.maxAgentTurns < 2)
  {
    var analyze := AnalyzeStep([call], fingerprint);
    var events := [TriageStep(false), OrchestratorStep, analyze, FailedTurnMessage];
    var analyzing := START.(node := Analyze);
    var emitted := Next(settings, analyzing, analyze).value;
    StopReasonAgreesWithRoute(settings, analyzing, [call], fingerprint);
    assert emitted.node.Tools? <==> settings.maxAgentTurns >= 2;
    RunCons(settings, emitted, FailedTurnMessage, []);
    RunCons(settings, analyzing, analyze, [FailedTurnMessage]);
    RunCons(settings, START.(node := Orchestrator), OrchestratorStep, [analyze, FailedTurnMessage]);
    RunCons(settings, START, TriageStep(false), [OrchestratorStep, analyze, FailedTurnMessage]);
    assert [FailedTurnMessage] + [] == [FailedTurnMessage] && [analyze] + [FailedTurnMessage] == [analyze, FailedTurnMessage];
    assert [OrchestratorStep] + [analyze, FailedTurnMessage] == [OrchestratorStep, analyze, FailedTurnMessage];
    assert [TriageStep(false)] + [OrchestratorStep, analyze, FailedTurnMessage] == events;
    LoopIsBoundedAndClosed(settings, events);
  }

  // ----- repetition and summaries

  /** The fingerprints of the calls emitted since the last new message, after `events`, given those before. */
  function Emitted(before: seq<string>, events: seq<Event>): seq<string>
    decreases |events|
  {
    if events == [] then before else Emitted(EmittedBy(before, events[0]), events[1..])
  }

  function EmittedBy(before: seq<string>, e: Event): seq<string> {
    match e
    case AnalyzeStep(calls, fingerprint) => if calls == [] then before else before + [fingerprint]
    case NextMessage => []
    case _ => before
  }

  function LastThree(s: seq<string>): seq<string> {
    if |s| <= 3 then s else s[|s| - 3..]
  }

  lemma {:induction false} RunRemembersLastThree(settings: Settings, s: State, events: seq<Event>, before: seq<string>)
    requires Run(settings, s, events).Some? && s.recentToolCalls == LastThree(before)
    ensures Run(settings, s, events).value.recentToolCalls == LastThree(Emitted(before, events))
    decreases |events|
  {
    if events != [] {
      StepRemembersLastThree(settings, s, events[0], before);
      RunRemembersLastThree(settings, Next(settings, s, events[0]).value, events[1..], EmittedBy(before, events[0]));
    }
  }

  lemma {:induction false} StepRemembersLastThree(settings: Settings, s: State, e: Event, before: seq<string>)
    requires Next(settings, s, e).Some? && s.recentToolCalls == LastThree(before)
    ensures Next(settings, s, e).value.recentToolCalls == LastThree(EmittedBy(before, e))
  {
    if e.AnalyzeStep? && e.calls != [] {
      LastThreeSnoc(before, e.fingerprint);
    }
  }

  lemma {:induction false} LastThreeSnoc(s: seq<string>, x: string)
    ensures LastThree(LastThree(s) + [x]) == LastThree(s + [x])
    ensures LastThree(LastThree(s)) == LastThree(s)
  {
  }

  /** Over any run, failed turns included, calls count as repeated exactly when the last three sets emitted since
      the last new message have the same fingerprint. */
  lemma {:induction false} RepetitionMeaning(settings: Settings, events: seq<Event>)
    requires Run(settings, START, events).Some?
    ensures var emitted := Emitted([], events); var n := |emitted|;
      HasRepeatedToolCalls(Run(settings, START, events).value.recentToolCalls) <==>
        n >= 3 && emitted[n - 1] == emitted[n - 2] && emitted[n - 2] == emitted[n - 3]
  {
    RunRemembersLastThree(settings, START, events, []);
  }

  lemma {:induction false} HumanTurnsCount(messages: seq<Message>)
    ensures HumanTurns(messages) == multiset(messages)[Human]
  {
    if messages != [] {
      HumanTurnsCount(messages[1..]);
      assert messages == [messages[0]] + messages[1..];
    }
  }

  /** After the tools a summary comes exactly when the human has just spoken and the number of human messages
      after the first is a positive multiple of the setting. */
  lemma {:induction false} SummaryMeaning(settings: Settings, messages: seq<Message>)
    ensures RouteBeforeAnalyze(settings, messages) in {Summarize, Orchestrator}
    ensures RouteBeforeAnalyze(settings, messages) == Summarize <==>
      && messages != [] && messages[|messages| - 1] == Human && settings.summaryTriggerEvery > 0
      && multiset(messages)[Human] >= 2 && (multiset(messages)[Human] - 1) % settings.summaryTriggerEvery == 0
  {
    HumanTurnsCount(messages);
  }

  // ----- progress

  function Rank(node: Node): nat {
    match node
    case Triage => 5
    case Converse => 4
    case Tools => 4
    case Summarize => 3
    case Orchestrator => 2
    case Analyze => 1
    case End => 0
  }

  function Measure(settings: Settings, s: State): int {
    6 * (Limit(settings) - s.turnCount) + Rank(s.node)
  }

  /** Between human boundaries every step makes progress. */
  lemma {:induction false} StepProgresses(settings: Settings, s: State, e: Event)
    requires Inv(settings, s) && Next(settings, s, e).Some? && !IsBoundary(e)
    ensures 0 <= Measure(settings, Next(settings, s, e).value) < Measure(settings, s)
  {
    StepKeepsInv(settings, s, e);
  }

  /** Hence no run without a human boundary is longer than the measure it starts from. */
  lemma {:induction false} RunIsShort(settings: Settings, s: State, events: seq<Event>)
    requires Inv(settings, s) && Run(settings, s, events).Some?
    requires forall i :: 0 <= i < |events| ==> !IsBoundary(events[i])
    ensures |events| <= Measure(settings, s) <= 6 * Limit(settings) + 5
    decreases |events|
  {
    if events != [] {
      StepProgresses(settings, s, events[0]);
      StepKeepsInv(settings, s, events[0]);
      RunIsShort(settings, Next(settings, s, events[0]).value, events[1..]);
    }
  }
}

/** User messages of an agent session and the turns they start (app/services/agent_service.py). Each
    database transaction is one step; steps of different tasks may come in any order. */
module MessageQueue {
  import opened Wrappers
  import opened Text

  datatype Status = Active | WaitingForHuman | Completed | Failed | TurnFailed | Expired

  datatype Interrupt = AskHuman | ProposeArtifacts | StreamResponse

  /** A stored user message; `queued` is its queue flag, absent on a message that started a turn at once. */
  datatype UserMessage = UserMessage(content: string, modeHint: Option<string>, queued: Option<bool>)

  /** What a turn starts from: the whole initial state, the failed turn's state, or the interrupt it answers. */
  datatype StartKind = Fresh | AfterFailure | Resumption

  /** A graph task, in the order started: for a message at once, for a drained message, or for a decision. */
  datatype Turn =
    | Direct(message: nat, kind: StartKind, hint: Option<string>)
    | Drained(message: nat, kind: StartKind, hint: Option<string>)
    | Decision

  datatype State = State(status: Status, interrupt: Option<Interrupt>, messages: seq<UserMessage>, turns: seq<Turn>)

  datatype Outcome = Ended | Paused | TurnLimitHit | Crashed

  datatype Op =
    | UserSends(content: string, modeHint: Option<string>)
    | ToolPauses(status: Status, interrupt: Interrupt)
    | RunEnds(outcome: Outcome)
    | Drain
    | DecisionsResolved
    | ProposalsApproved
    | Abandoned

  // ----- the steps

  /** Queued without starting a turn. */
  function Queue(s: State, content: string, modeHint: Option<string>): State {
    s.(messages := s.messages + [UserMessage(content, modeHint, Some(true))])
  }

  predicate Busy(s: State) {
    (s.status == Active && s.interrupt != Some(StreamResponse))
    || (s.status !in {Completed, Failed, Expired} && s.interrupt == Some(ProposeArtifacts))
  }

  function StartOf(s: State): StartKind {
    if s.status == TurnFailed then AfterFailure else if s.interrupt.None? then Fresh else Resumption
  }

  /** A refused message (None) leaves no trace. */
  function Send(s: State, content: string, modeHint: Option<string>): Option<State> {
    if Busy(s) then Some(Queue(s, content, modeHint))
    else if s.status in {Completed, Failed, Expired} then None
    else
      var kind := StartOf(s);
      Some(State(Active, None, s.messages + [UserMessage(content, modeHint, None)],
                 s.turns + [Direct(|s.messages|, kind, if kind == AfterFailure then None else modeHint)]))
  }

  function FirstQueued(messages: seq<UserMessage>): (r: Option<nat>)
    ensures r.Some? ==> r.value < |messages| && messages[r.value].queued == Some(true)
    ensures r.Some? ==> forall i :: 0 <= i < r.value ==> messages[i].queued != Some(true)
    ensures r.None? ==> forall i :: 0 <= i < |messages| ==> messages[i].queued != Some(true)
  {
    if messages == [] then None
    else if messages[0].queued == Some(true) then Some(0)
    else match FirstQueued(messages[1..])
      case None =>
        assert forall i :: 0 < i < |messages| ==> messages[i] == messages[1..][i - 1];
        None
      case Some(i) =>
        assert forall j :: 0 < j <= i ==> messages[j] == messages[1..][j - 1];
        Some(i + 1)
  }

  function DrainOne(s: State): State {
    if s.status !in {Completed, Failed, TurnFailed} then s
    else match FirstQueued(s.messages)
      case None => s
      case Some(i) =>
        var kind := if s.status == TurnFailed then AfterFailure else Fresh;
        State(Active, None, s.messages[i := s.messages[i].(queued := Some(false))],
              s.turns + [Drained(i, kind, if kind == AfterFailure then None else s.messages[i].modeHint)])
  }

  function Apply(s: State, op: Op): State {
    match op
    case UserSends(content, modeHint) => Send(s, content, modeHint).GetOr(s)
    case ToolPauses(status, interrupt) =>
      if status in {Active, WaitingForHuman} then s.(status := status, interrupt := Some(interrupt)) else s
    case RunEnds(outcome) =>
      (match outcome
       case Paused => s
       case Ended => if s.status in {Active, WaitingForHuman} then s.(status := Completed) else s
       case TurnLimitHit => if s.status != Completed then s.(status := Failed) else s
       case Crashed =>
         if s.status !in {WaitingForHuman, Completed} then s.(status := TurnFailed, interrupt := None) else s)
    case Drain => DrainOne(s)
    case DecisionsResolved =>
      if s.status == WaitingForHuman then State(Active, None, s.messages, s.turns + [Decision]) else s
    case ProposalsApproved => if s.status == WaitingForHuman then s.(status := Completed, interrupt := None) else s
    case Abandoned => if s.status in {Active, WaitingForHuman} then s.(status := Expired, interrupt := None) else s
  }

  /** A turn is running and does not stream its reply, or proposals wait for a decision. */
  predicate MustWait(status: Status, interrupt: Option<Interrupt>) {
    if status == Active then interrupt != Some(StreamResponse) else interrupt == Some(ProposeArtifacts)
  }

  /** The turn a message starts at once: after a failed turn without its hint, else fresh, or as the answer to
      whatever the session waits for. */
  predicate Answers(turn: Turn, message: nat, modeHint: Option<string>, status: Status, interrupt: Option<Interrupt>) {
    && turn.Direct? && turn.message == message
    && turn.kind == (if status == TurnFailed then AfterFailure else if interrupt == None then Fresh else Resumption)
    && turn.hint == (if status == TurnFailed then None else modeHint)
  }

  /** The earliest message still queued has been marked drained and has started a turn; nothing else differs
      but that the session is active and waits for nothing. */
  ghost predicate TakenUp(before: State, after: State) {
    && after.status == Active && after.interrupt == None && |after.turns| == |before.turns| + 1
    && after.turns[..|before.turns|] == before.turns
    && exists i :: 0 <= i < |before.messages| && before.messages[i].queued == Some(true)
         && (forall j :: 0 <= j < i ==> before.messages[j].queued != Some(true))
         && after.messages == before.messages[i := before.messages[i].(queued := Some(false))]
         && after.turns[|before.turns|] ==
              (if before.status == TurnFailed then Drained(i, AfterFailure, None)
               else Drained(i, Fresh, before.messages[i].modeHint))
  }

  /** The status in which a run leaves the session. */
  predicate EndsIn(before: Status, outcome: Outcome, after: Status) {
    match outcome
    case Paused => after == before
    case Ended => after == if before == Active || before == WaitingForHuman then Completed else before
    case TurnLimitHit => after == if before == Completed then Completed else Failed
    case Crashed => after == if before == WaitingForHuman || before == Completed then before else TurnFailed
  }

  /** How the other transactions move the session. None touches messages or turns but a decision, which starts one;
      a crash that fails the turn also clears the interrupt. */
  lemma {:induction false} EventMeaning(s: State, op: Op)
    ensures var t := Apply(s, op); var live := s.status == Active || s.status == WaitingForHuman;
      match op
      case RunEnds(outcome) =>
        && EndsIn(s.status, outcome, t.status) && t.messages == s.messages && t.turns == s.turns
        && t.interrupt == if outcome == Crashed && t.status == TurnFailed then None else s.interrupt
      case ToolPauses(status, interrupt) =>
        t == if status == Active || status == WaitingForHuman then State(status, Some(interrupt), s.messages, s.turns) else s
      case DecisionsResolved =>
        t == if s.status == WaitingForHuman then State(Active, None, s.messages, s.turns + [Decision]) else s
      case ProposalsApproved => t == if s.status == WaitingForHuman then State(Completed, None, s.messages, s.turns) else s
      case Abandoned => t == if live then State(Expired, None, s.messages, s.turns) else s
      case UserSends(_, _) => |t.messages| <= |s.messages| + 1
      case Drain => |t.messages| == |s.messages|
  {
  }

  // ----- the service

  class Session {
    var status: Status
    var interrupt: Option<Interrupt>
    var messages: seq<UserMessage>
    var turns: seq<Turn>

    function Rows(): State
      reads this
    {
      State(status, interrupt, messages, turns)
    }

    constructor ()
      ensures Rows() == State(Active, None, [], []) && Sound(Rows())
    {
      status, interrupt, messages, turns := Active, None, [], [];
    }

    /** `accepted` is false for a refused message. */
    method HandleUserMessage(content: string, modeHint: Option<string>) returns (accepted: bool)
      requires Sound(Rows())
      modifies this
      ensures Sound(Rows())
      ensures Rows() == Apply(old(Rows()), UserSends(content, modeHint))
      ensures accepted == Send(old(Rows()), content, modeHint).Some?
      ensures !accepted ==> Rows() == old(Rows())
      ensures accepted ==> |messages| == |old(messages)| + 1 && messages[..|old(messages)|] == old(messages)
      ensures accepted ==> messages[|old(messages)|].content == content && messages[|old(messages)|].modeHint == modeHint
      ensures accepted <==> old(status) == Active || old(status) == WaitingForHuman || old(status) == TurnFailed
      ensures accepted && MustWait(old(status), old(interrupt)) ==>
        Rows() == old(Rows()).(messages := messages) && messages[|old(messages)|].queued == Some(true)
      ensures accepted && !MustWait(old(status), old(interrupt)) ==>
        && messages[|old(messages)|].queued == None && status == Active && interrupt == None
        && |turns| == |old(turns)| + 1 && turns[..|old(turns)|] == old(turns)
        && Answers(turns[|old(turns)|], |old(messages)|, modeHint, old(status), old(interrupt))
    {
      StepKeepsSound(Rows(), UserSends(content, modeHint));
      if status == Active {
        if interrupt != Some(StreamResponse) {
          QueueMessage(content, modeHint);
          return true;
        }
      }
      if status in {Completed, Failed, Expired} {
        return false;
      }
      if interrupt == Some(ProposeArtifacts) {
        QueueMessage(content, modeHint);
        return true;
      }
      var isTurnFailed := status == TurnFailed;
      var isFirstMessage := !isTurnFailed && interrupt.None?;
      messages := messages + [UserMessage(content, modeHint, None)];
      status := Active;
      interrupt := None;
      var message := |messages| - 1;
      if isTurnFailed {
        turns := turns + [Direct(message, AfterFailure, None)];
      } else if isFirstMessage {
        turns := turns + [Direct(message, Fresh, modeHint)];
      } else {
        turns := turns + [Direct(message, Resumption, modeHint)];
      }
      return true;
    }

    method QueueMessage(content: string, modeHint: Option<string>)
      modifies this`messages
      ensures Rows() == Queue(old(Rows()), content, modeHint)
    {
      messages := messages + [UserMessage(content, modeHint, Some(true))];
    }

    method DrainQueue()
      requires Sound(Rows())
      modifies this
      ensures Sound(Rows())
      ensures Rows() == Apply(old(Rows()), Drain)
      ensures var terminal := old(status) == Completed || old(status) == Failed || old(status) == TurnFailed;
        if terminal && exists i :: 0 <= i < |old(messages)| && old(messages)[i].queued == Some(true)
        then TakenUp(old(Rows()), Rows()) else Rows() == old(Rows())
    {
      StepKeepsSound(Rows(), Drain);
      if status == Expired {
        return;
      }
      if status !in {Completed, Failed, TurnFailed} {
        return;
      }
      var queued := FirstQueued(messages);
      if queued.None? {
        return;
      }
      var message := messages[queued.value];
      messages := messages[queued.value := message.(queued := Some(false))];
      var wasTurnFailed := status == TurnFailed;
      status := Active;
      interrupt := None;
      if wasTurnFailed {
        turns := turns + [Drained(queued.value, AfterFailure, None)];
      } else {
        turns := turns + [Drained(queued.value, Fresh, message.modeHint)];
      }
    }
  }

  // ----- order and conservation

  /** The positions of the messages whose flag is as asked. */
  function Positions(messages: seq<UserMessage>, flag: Option<bool>): seq<nat> {
    if messages == [] then []
    else
      var n := |messages| - 1;
      if messages[n].queued == flag then Positions(messages[..n], flag) + [n] else Positions(messages[..n], flag)
  }

  /** The positions of the messages that were ever queued. */
  function EverQueued(messages: seq<UserMessage>): seq<nat> {
    if messages == [] then []
    else
      var n := |messages| - 1;
      if messages[n].queued.Some? then EverQueued(messages[..n]) + [n] else EverQueued(messages[..n])
  }

  function DirectTurns(turns: seq<Turn>): seq<nat> {
    if turns == [] then []
    else
      var init, last := turns[..|turns| - 1], turns[|turns| - 1];
      if last.Direct? then DirectTurns(init) + [last.message] else DirectTurns(init)
  }

  function DrainedTurns(turns: seq<Turn>): seq<nat> {
    if turns == [] then []
    else
      var init, last := turns[..|turns| - 1], turns[|turns| - 1];
      if last.Drained? then DrainedTurns(init) + [last.message] else DrainedTurns(init)
  }

  /** The queue is first-in first-out and loses nothing: the messages ever queued are those drained, in the
      order drained, followed by those still queued; the others started their turns in order. */
  ghost predicate Sound(s: State) {
    && EverQueued(s.messages) == DrainedTurns(s.turns) + Positions(s.messages, Some(true))
    && DrainedTurns(s.turns) == Positions(s.messages, Some(false))
    && DirectTurns(s.turns) == Positions(s.messages, None)
  }

  lemma {:induction false} TurnsSnoc(turns: seq<Turn>, t: Turn)
    ensures DirectTurns(turns + [t]) == if t.Direct? then DirectTurns(turns) + [t.message] else DirectTurns(turns)
    ensures DrainedTurns(turns + [t]) == if t.Drained? then DrainedTurns(turns) + [t.message] else DrainedTurns(turns)
  {
    assert (turns + [t])[..|turns|] == turns;
  }

  lemma {:induction false} MessagesSnoc(messages: seq<UserMessage>, m: UserMessage, flag: Option<bool>)
    ensures EverQueued(messages + [m]) == if m.queued.Some? then EverQueued(messages) + [|messages|] else EverQueued(messages)
    ensures Positions(messages + [m], flag) == if m.queued == flag then Positions(messages, flag) + [|messages|] else Positions(messages, flag)
  {
    assert (messages + [m])[..|messages|] == messages;
  }

  /** Positions are increasing and are exactly those with the flag. */
  lemma {:induction false} PositionsMeaning(messages: seq<UserMessage>, flag: Option<bool>)
    ensures forall i :: i in Positions(messages, flag) <==> 0 <= i < |messages| && messages[i].queued == flag
    ensures forall i, j :: 0 <= i < j < |Positions(messages, flag)| ==> Positions(messages, flag)[i] < Positions(messages, flag)[j]
  {
    if messages != [] {
      var init := messages[..|messages| - 1];
      PositionsMeaning(init, flag);
      forall i | 0 <= i < |Positions(init, flag)| ensures Positions(init, flag)[i] < |init| {
        assert Positions(init, flag)[i] in Positions(init, flag);
      }
      assert forall i :: 0 <= i < |init| ==> init[i] == messages[i];
    }
  }

  lemma {:induction false} NoPositions(messages: seq<UserMessage>, flag: Option<bool>)
    requires forall i :: 0 <= i < |messages| ==> messages[i].queued != flag
    ensures Positions(messages, flag) == []
  {
    if messages != [] {
      NoPositions(messages[..|messages| - 1], flag);
    }
  }

  lemma {:induction false} EverQueuedIncreases(messages: seq<UserMessage>)
    ensures forall i :: i in EverQueued(messages) ==> 0 <= i < |messages|
    ensures forall i, j :: 0 <= i < j < |EverQueued(messages)| ==> EverQueued(messages)[i] < EverQueued(messages)[j]
  {
    if messages != [] {
      var init := messages[..|messages| - 1];
      EverQueuedIncreases(init);
      forall i | 0 <= i < |EverQueued(init)| ensures EverQueued(init)[i] < |init| {
        assert EverQueued(init)[i] in EverQueued(init);
      }
    }
  }

  /** In a sound queue whatever has been drained was sent before whatever is still queued. */
  lemma {:induction false} DrainedBeforeQueued(messages: seq<UserMessage>, drained: nat, waiting: nat)
    requires EverQueued(messages) == Positions(messages, Some(false)) + Positions(messages, Some(true))
    requires drained < |messages| && messages[drained].queued == Some(false)
    requires waiting < |messages| && messages[waiting].queued == Some(true)
    ensures drained < waiting
  {
    var f, t := Positions(messages, Some(false)), Positions(messages, Some(true));
    PositionsMeaning(messages, Some(false));
    PositionsMeaning(messages, Some(true));
    EverQueuedIncreases(messages);
    var i :| 0 <= i < |f| && f[i] == drained;
    var j :| 0 <= j < |t| && t[j] == waiting;
    assert (f + t)[i] == drained && (f + t)[|f| + j] == waiting;
  }

  /** Marking the first queued message drained moves it from one list to the other and nothing else. */
  lemma {:induction false} FlipFirst(messages: seq<UserMessage>, i: nat)
    requires i < |messages| && messages[i].queued == Some(true)
    requires forall j :: 0 <= j < i ==> messages[j].queued != Some(true)
    requires forall j :: i < j < |messages| ==> messages[j].queued != Some(false)
    ensures var flipped := messages[i := messages[i].(queued := Some(false))];
      && EverQueued(flipped) == EverQueued(messages)
      && Positions(flipped, None) == Positions(messages, None)
      && Positions(flipped, Some(false)) == Positions(messages, Some(false)) + [i]
      && Positions(messages, Some(true)) == [i] + Positions(flipped, Some(true))
    decreases |messages|
  {
    var n := |messages| - 1;
    var flipped := messages[i := messages[i].(queued := Some(false))];
    var init := messages[..n];
    if i == n {
      assert flipped[..n] == init;
      NoPositions(init, Some(true));
    } else {
      assert flipped[..n] == init[i := init[i].(queued := Some(false))];
      FlipFirst(init, i);
    }
  }

  lemma {:induction false} SendKeepsSound(s: State, content: string, modeHint: Option<string>)
    requires Sound(s) && Send(s, content, modeHint).Some?
    ensures Sound(Send(s, content, modeHint).value)
  {
    var t := Send(s, content, modeHint).value;
    var m := UserMessage(content, modeHint, if Busy(s) then Some(true) else None);
    assert t.messages == s.messages + [m];
    MessagesSnoc(s.messages, m, None);
    MessagesSnoc(s.messages, m, Some(false));
    MessagesSnoc(s.messages, m, Some(true));
    if !Busy(s) {
      TurnsSnoc(s.turns, t.turns[|s.turns|]);
    }
  }

  lemma {:induction false} NothingDrainedAfter(s: State, i: nat)
    requires Sound(s) && i < |s.messages| && s.messages[i].queued == Some(true)
    ensures forall j :: i < j < |s.messages| ==> s.messages[j].queued != Some(false)
  {
    forall j | 0 <= j < |s.messages| && s.messages[j].queued == Some(false) ensures j < i {
      DrainedBeforeQueued(s.messages, j, i);
    }
  }

  lemma {:induction false} DrainKeepsSound(s: State)
    requires Sound(s)
    ensures Sound(DrainOne(s))
  {
    if s.status in {Completed, Failed, TurnFailed} && FirstQueued(s.messages).Some? {
      var i := FirstQueued(s.messages).value;
      var kind := if s.status == TurnFailed then AfterFailure else Fresh;
      NothingDrainedAfter(s, i);
      FlipKeepsSound(s, i, Drained(i, kind, if kind == AfterFailure then None else s.messages[i].modeHint));
    }
  }

  lemma {:induction false} FlipKeepsSound(s: State, i: nat, turn: Turn)
    requires Sound(s) && i < |s.messages| && s.messages[i].queued == Some(true) && turn.Drained? && turn.message == i
    requires forall j :: 0 <= j < i ==> s.messages[j].queued != Some(true)
    requires forall j :: i < j < |s.messages| ==> s.messages[j].queued != Some(false)
    ensures Sound(State(Active, None, s.messages[i := s.messages[i].(queued := Some(false))], s.turns + [turn]))
  {
    FlipFirst(s.messages, i);
    TurnsSnoc(s.turns, turn);
    var flipped := s.messages[i := s.messages[i].(queued := Some(false))];
    Associates(DrainedTurns(s.turns), [i], Positions(flipped, Some(true)));
  }

  lemma {:induction false} SameQueue(s: State, t: State)
    requires Sound(s) && t.messages == s.messages && t.turns == s.turns
    ensures Sound(t)
  {
  }

  lemma {:induction false} DecisionKeepsSound(s: State, t: State)
    requires Sound(s) && t.messages == s.messages && t.turns == s.turns + [Decision]
    ensures Sound(t)
  {
    TurnsSnoc(s.turns, Decision);
  }

  lemma {:induction false} StepKeepsSound(s: State, op: Op)
    requires Sound(s)
    ensures Sound(Apply(s, op))
  {
    match op {
      case UserSends(content, modeHint) =>
        if Send(s, content, modeHint).Some? {
          SendKeepsSound(s, content, modeHint);
        }
      case Drain => DrainKeepsSound(s);
      case DecisionsResolved =>
        if s.status == WaitingForHuman {
          DecisionKeepsSound(s, Apply(s, op));
        }
      case RunEnds(_) => SameQueue(s, Apply(s, op));
      case ToolPauses(_, _) => SameQueue(s, Apply(s, op));
      case ProposalsApproved => SameQueue(s, Apply(s, op));
      case Abandoned => SameQueue(s, Apply(s, op));
    }
  }

  function Run(s: State, ops: seq<Op>): State {
    if ops == [] then s else Apply(Run(s, ops[..|ops| - 1]), ops[|ops| - 1])
  }

  const NEW_SESSION := State(Active, None, [], [])

  lemma {:induction false} RunKeepsSound(ops: seq<Op>)
    ensures Sound(Run(NEW_SESSION, ops))
  {
    if ops != [] {
      RunKeepsSound(ops[..|ops| - 1]);
      StepKeepsSound(Run(NEW_SESSION, ops[..|ops| - 1]), ops[|ops| - 1]);
    }
  }

  /** How often a turn was started for message `m`. */
  function Starts(turns: seq<Turn>, m: nat): nat {
    if turns == [] then 0
    else
      var last := turns[|turns| - 1];
      Starts(turns[..|turns| - 1], m) + (if !last.Decision? && last.message == m then 1 else 0)
  }

  function Count(positions: seq<nat>, m: nat): nat {
    if positions == [] then 0
    else Count(positions[..|positions| - 1], m) + (if positions[|positions| - 1] == m then 1 else 0)
  }

  lemma {:induction false} CountSnoc(positions: seq<nat>, k: nat, m: nat)
    ensures Count(positions + [k], m) == Count(positions, m) + (if k == m then 1 else 0)
  {
    assert (positions + [k])[..|positions|] == positions;
  }

  lemma {:induction false} StartsSplit(turns: seq<Turn>, m: nat)
    ensures Starts(turns, m) == Count(DirectTurns(turns), m) + Count(DrainedTurns(turns), m)
  {
    if turns != [] {
      var init, last := turns[..|turns| - 1], turns[|turns| - 1];
      StartsSplit(init, m);
      if !last.Decision? {
        CountSnoc(DirectTurns(init), last.message, m);
        CountSnoc(DrainedTurns(init), last.message, m);
      }
    }
  }

  lemma {:induction false} CountPositions(messages: seq<UserMessage>, flag: Option<bool>, m: nat)
    ensures Count(Positions(messages, flag), m) == if m < |messages| && messages[m].queued == flag then 1 else 0
  {
    if messages != [] {
      var n := |messages| - 1;
      CountPositions(messages[..n], flag, m);
      CountSnoc(Positions(messages[..n], flag), n, m);
    }
  }

  /** In a sound state each accepted message has started exactly one turn, directly or by being drained,
      or is still queued and has started none. */
  lemma {:induction false} SoundMeansOnce(s: State, m: nat)
    requires Sound(s) && m < |s.messages|
    ensures Starts(s.turns, m) == if s.messages[m].queued == Some(true) then 0 else 1
    ensures m in DirectTurns(s.turns) <==> s.messages[m].queued.None?
    ensures m in DrainedTurns(s.turns) <==> s.messages[m].queued == Some(false)
  {
    StartsSplit(s.turns, m);
    CountPositions(s.messages, None, m);
    CountPositions(s.messages, Some(false), m);
    PositionsMeaning(s.messages, None);
    PositionsMeaning(s.messages, Some(false));
    var queued := s.messages[m].queued;
    assert Starts(s.turns, m) == (if queued == None then 1 else 0) + (if queued == Some(false) then 1 else 0);
    assert queued.Some? ==> queued.value || queued == Some(false);
  }

  /** Main result: on every run each accepted message starts exactly one turn or waits in the queue, and
      messages leave the queue in the order they entered it. */
  lemma {:induction false} EveryMessageOnce(ops: seq<Op>, m: nat)
    requires m < |Run(NEW_SESSION, ops).messages|
    ensures var s := Run(NEW_SESSION, ops);
      && Starts(s.turns, m) == (if s.messages[m].queued == Some(true) then 0 else 1)
      && EverQueued(s.messages) == DrainedTurns(s.turns) + Positions(s.messages, Some(true))
  {
    RunKeepsSound(ops);
    SoundMeansOnce(Run(NEW_SESSION, ops), m);
  }

  /** Queueing and draining keep a message's mode hint, unless its turn takes up a failed one. */
  lemma {:induction false} HintIsReplayed(s: State)
    requires DrainOne(s) != s
    ensures var t := DrainOne(s); var turn := t.turns[|s.turns|];
      && turn.Drained? && t.messages[turn.message].content == s.messages[turn.message].content
      && (turn.hint == s.messages[turn.message].modeHint <==>
            s.status != TurnFailed || s.messages[turn.message].modeHint.None?)
  {
  }

  /** A hint lost: a message is queued with one while the session's first turn runs, that turn crashes, and
      the drain takes it up. */
  lemma {:induction false} CrashLosesHint() returns (ops: seq<Op>)
    ensures var s := Run(NEW_SESSION, ops); var t := DrainOne(s);
      t != s && t.turns == [Drained(0, AfterFailure, None)] && t.messages[0].modeHint == Some("critique")
  {
    ops := [UserSends("x", Some("critique")), RunEnds(Crashed)];
    assert ops[..1] == [ops[0]] && ops[..1][..0] == [];
    assert Run(NEW_SESSION, ops[..1]) == Queue(NEW_SESSION, "x", Some("critique"));
    assert FirstQueued([UserMessage("x", Some("critique"), Some(true))]) == Some(0);
  }
}

/** Artifacts, their versions and the tool calls that propose versions, as values; every operation of
    app/services/artifact_service.py, app/services/document_service.py and the approval path of
    app/services/agent_service.py as one atomic step. */
module ArtifactStore {
  import opened Wrappers
  import opened LifecycleResolver

  type Aid = nat
  type Vid = nat
  type Tid = nat

  datatype VersionStatus = VersionDraft | VersionAccepted | VersionRejected | VersionArchived

  datatype Artifact = Artifact(kind: string, parent: Option<Aid>, status: Status, current: Option<Vid>, title: string,
                               basedOn: map<RawId, RawId>)

  datatype Version = Version(artifact: Aid, number: nat, parent: Option<Vid>, status: VersionStatus, title: string,
                             basedOn: map<RawId, RawId>, toolCall: Option<Tid>)

  /** What a proposal recorded: the item it is for, the version it was drafted on, its predecessors. */
  datatype Proposal = Proposal(item: Aid, base: Option<Vid>, title: string, basedOn: map<RawId, RawId>)

  datatype ToolCallStatus = Proposed | CallRejected | Executed | Superseded

  datatype ToolCall = ToolCall(status: ToolCallStatus, proposal: Proposal)

  datatype State = State(
    artifacts: map<Aid, Artifact>,
    versions: map<Vid, Version>,
    toolCalls: map<Tid, ToolCall>,
    links: set<(Aid, Aid)>,
    nextArtifact: Aid,
    nextVersion: Vid,
    nextToolCall: Tid,
    reviews: seq<ReviewRow>
  )

  datatype ReviewRow = ReviewRow(artifact: Aid, version: Vid, outcome: Review)

  datatype Review = Approved | ReviewRejected | ChangesRequested

  datatype Error =
    | NotAMember | NotFound | ParentMismatch | IllegalTransition | NoCurrentVersion | VersionConflict | InUse
    | SessionEnded | NotProposed | StaleBase | StalePredecessors | NotReady

  /** The document registry: the item kinds of each container kind. */
  type Registry = map<string, seq<string>>

  datatype Op =
    | Create(isMember: bool, kind: string, parent: Option<Aid>, status: Status, title: string, basedOn: map<RawId, RawId>)
    | Update(isMember: bool, artifact: Aid, newTitle: Option<string>, newStatus: Option<Status>,
             newBasedOn: Option<map<RawId, RawId>>)
    | Restore(isMember: bool, artifact: Aid, version: Vid)
    | Archive(isMember: bool, artifact: Aid, supersededBy: Option<Aid>)
    | ReviewVersion(isMember: bool, artifact: Aid, version: Vid, outcome: Review)
    | Upsert(container: Aid, item: Option<Aid>, kind: string, status: Status, title: string,
             basedOn: map<RawId, RawId>, fromSystem: bool)
    | Propose(proposal: Proposal)
    | RejectCall(toolCall: Tid, sessionEnded: bool)
    | Approve(toolCall: Tid, sessionEnded: bool, ready: bool)

  // ----- building blocks

  function Children(registry: Registry, kind: string): seq<string> {
    if kind in registry then registry[kind] else []
  }

  /** The unique constraint on (artifact, version number). */
  predicate NumberTaken(versions: map<Vid, Version>, artifact: Aid, number: nat) {
    exists v | v in versions :: versions[v].artifact == artifact && versions[v].number == number
  }

  predicate IsCurrentVersion(s: State, id: Aid) {
    id in s.artifacts && s.artifacts[id].current.Some? && s.artifacts[id].current.value in s.versions
  }

  /** The number and parent of the version that follows the current one. */
  function NextNumber(s: State, id: Aid): nat {
    if IsCurrentVersion(s, id) then s.versions[s.artifacts[id].current.value].number + 1 else 1
  }

  function NextParent(s: State, id: Aid): Option<Vid> {
    if IsCurrentVersion(s, id) then s.artifacts[id].current else None
  }

  /** Insert a version after the current one and point the artifact at it. */
  function AddVersion(s: State, id: Aid, title: string, basedOn: map<RawId, RawId>, toolCall: Option<Tid>): State
    requires id in s.artifacts
  {
    var version := Version(id, NextNumber(s, id), NextParent(s, id), VersionDraft, title, basedOn, toolCall);
    s.(versions := s.versions[s.nextVersion := version],
       artifacts := s.artifacts[id := s.artifacts[id].(current := Some(s.nextVersion))],
       nextVersion := s.nextVersion + 1)
  }

  /** The container's status follows from which of its items have a version. */
  function RecomputeParent(s: State, registry: Registry, id: Aid): State
    requires id in s.artifacts
  {
    var parent := s.artifacts[id].parent;
    if parent.None? || parent.value !in s.artifacts then s
    else
      var expected := Children(registry, s.artifacts[parent.value].kind);
      if expected == [] then s
      else
        var complete := forall k | k in expected :: exists c | c in s.artifacts ::
          s.artifacts[c].parent == parent && s.artifacts[c].kind == k && s.artifacts[c].current.Some?;
        s.(artifacts := s.artifacts[parent.value :=
          s.artifacts[parent.value].(status := if complete then Accepted else Draft)])
  }

  predicate TransitionAllowed(from: Status, to: Status) {
    from == to || match from
    case Draft => to == NeedsClarification
    case NeedsClarification => to == Draft || to == Accepted
    case Rejected => to == Draft
    case Accepted => false
    case Archived => false
  }

  /** The entries of the current version's `based_on` with a key and a value. */
  function LiveBasedOn(s: State, id: Aid): map<RawId, RawId> {
    if !IsCurrentVersion(s, id) then map[]
    else
      var basedOn := s.versions[s.artifacts[id].current.value].basedOn;
      map k | k in basedOn && k != Malformed("") && basedOn[k] != Malformed("") :: basedOn[k]
  }

  /** Live artifacts that link to `id`, are its children, or name it in `based_on`. */
  function DownstreamUsers(s: State, id: Aid): set<Aid> {
    set a | a in s.artifacts && s.artifacts[a].status != Archived &&
      ((a, id) in s.links || s.artifacts[a].parent == Some(id) || (a != id && Canonical(id) in LiveBasedOn(s, a)))
  }

  /** A predecessor entry the approval guard turns down. */
  predicate Diverged(s: State, key: RawId, version: RawId) {
    match Parse(key)
    case None => true
    case Some(id) =>
      id !in s.artifacts || s.artifacts[id].status == Archived
      || s.artifacts[id].current.None? || Canonical(s.artifacts[id].current.value) != version
  }

  predicate AnyDiverged(s: State, basedOn: map<RawId, RawId>) {
    exists k | k in basedOn :: Diverged(s, k, basedOn[k])
  }

  predicate IsDocumentItem(s: State, id: Aid) {
    id in s.artifacts && s.artifacts[id].parent.Some?
  }

  /** The version an earlier run of the same tool call left behind. */
  predicate CallHasVersion(s: State, toolCall: Tid) {
    exists v | v in s.versions :: s.versions[v].toolCall == Some(toolCall)
  }

  // ----- the operations

  function TryCreate(s: State, registry: Registry, op: Op): (State, Option<Error>)
    requires op.Create?
  {
    if !op.isMember then (s, Some(NotAMember))
    else if op.parent.Some? && op.parent.value !in s.artifacts then (s, Some(NotFound))
    else if op.parent.Some? && (s.artifacts[op.parent.value].parent.Some?
                                || op.kind !in Children(registry, s.artifacts[op.parent.value].kind))
    then (s, Some(ParentMismatch))
    else
      var artifact := Artifact(op.kind, op.parent, op.status, None, op.title, op.basedOn);
      var added := s.(artifacts := s.artifacts[s.nextArtifact := artifact], nextArtifact := s.nextArtifact + 1);
      (AddVersion(added, s.nextArtifact, op.title, op.basedOn, None), None)
  }

  function TryUpdate(s: State, op: Op): (State, Option<Error>)
    requires op.Update?
  {
    if !op.isMember then (s, Some(NotAMember))
    else if op.artifact !in s.artifacts then (s, Some(NotFound))
    else
      var artifact := s.artifacts[op.artifact];
      if artifact.status == Archived then (s, Some(IllegalTransition))
      else if !IsCurrentVersion(s, op.artifact) then (s, Some(NoCurrentVersion))
      else if op.newStatus.Some? && !TransitionAllowed(artifact.status, op.newStatus.value)
      then (s, Some(IllegalTransition))
      else if NumberTaken(s.versions, op.artifact, NextNumber(s, op.artifact)) then (s, Some(VersionConflict))
      else
        var title := op.newTitle.GetOr(s.versions[artifact.current.value].title);
        var t := AddVersion(s, op.artifact, title, op.newBasedOn.GetOr(artifact.basedOn), None);
        (t.(artifacts := t.artifacts[op.artifact := t.artifacts[op.artifact].(
              title := title, status := op.newStatus.GetOr(artifact.status),
              basedOn := op.newBasedOn.GetOr(artifact.basedOn))]), None)
  }

  function TryRestore(s: State, op: Op): (State, Option<Error>)
    requires op.Restore?
  {
    if !op.isMember then (s, Some(NotAMember))
    else if op.artifact !in s.artifacts then (s, Some(NotFound))
    else if s.artifacts[op.artifact].status == Archived then (s, Some(IllegalTransition))
    else if op.version !in s.versions || s.versions[op.version].artifact != op.artifact then (s, Some(NotFound))
    else (s.(artifacts := s.artifacts[op.artifact := s.artifacts[op.artifact].(
               current := Some(op.version), title := s.versions[op.version].title)]), None)
  }

  function TryArchive(s: State, op: Op): (State, Option<Error>)
    requires op.Archive?
  {
    if !op.isMember then (s, Some(NotAMember))
    else if op.artifact !in s.artifacts then (s, Some(NotFound))
    else if op.supersededBy == Some(op.artifact) then (s, Some(IllegalTransition))
    else if op.supersededBy.Some? && op.supersededBy.value !in s.artifacts then (s, Some(NotFound))
    else if op.supersededBy.Some? && s.artifacts[op.supersededBy.value].status == Archived
    then (s, Some(IllegalTransition))
    else if DownstreamUsers(s, op.artifact) != {} then (s, Some(InUse))
    else
      var artifact := s.artifacts[op.artifact];
      (s.(artifacts := s.artifacts[op.artifact := artifact.(status := Archived)],
          versions := if IsCurrentVersion(s, op.artifact)
                      then s.versions[artifact.current.value :=
                             s.versions[artifact.current.value].(status := VersionArchived)]
                      else s.versions), None)
  }

  /** The side effects of a review on the version and its artifact. */
  function ReviewEffects(s: State, op: Op): State
    requires op.ReviewVersion? && op.artifact in s.artifacts && op.version in s.versions
  {
    var artifact, version := s.artifacts[op.artifact], s.versions[op.version];
    if op.outcome.Approved? then
      s.(versions := s.versions[op.version := version.(
           status := if version.status != VersionArchived then VersionAccepted else version.status)],
         artifacts := if artifact.status != Archived
                      then s.artifacts[op.artifact := artifact.(
                             status := Accepted, current := Some(op.version), title := version.title)]
                      else s.artifacts)
    else if version.status == VersionAccepted || version.status == VersionArchived then s
    else
      var rejected := s.(versions := s.versions[op.version := version.(status := VersionRejected)]);
      if artifact.current != Some(op.version) || artifact.status == Accepted || artifact.status == Archived
      then rejected
      else rejected.(artifacts := s.artifacts[op.artifact := artifact.(
             status := if op.outcome.ReviewRejected? then Rejected else NeedsClarification)])
  }

  /** The review is kept as a row, whether or not it has an effect. */
  function TryReview(s: State, op: Op): (State, Option<Error>)
    requires op.ReviewVersion?
  {
    if !op.isMember then (s, Some(NotAMember))
    else if op.artifact !in s.artifacts then (s, Some(NotFound))
    else if op.version !in s.versions || s.versions[op.version].artifact != op.artifact then (s, Some(NotFound))
    else
      var t := ReviewEffects(s, op);
      (t.(reviews := s.reviews + [ReviewRow(op.artifact, op.version, op.outcome)]), None)
  }

  /** The rows the container and item queries of `upsert_item` return. */
  predicate UpsertRows(s: State, registry: Registry, op: Op)
    requires op.Upsert?
  {
    && op.container in s.artifacts && s.artifacts[op.container].parent.None?
    && op.kind in Children(registry, s.artifacts[op.container].kind)
    && match op.item
       case Some(id) => id in s.artifacts && s.artifacts[id].parent == Some(op.container) && s.artifacts[id].kind == op.kind
       case None => forall a | a in s.artifacts :: !(s.artifacts[a].parent == Some(op.container) && s.artifacts[a].kind == op.kind)
  }

  /** The item row inserted, or updated where it exists. */
  function WithItem(s: State, registry: Registry, op: Op): State
    requires op.Upsert? && UpsertRows(s, registry, op)
  {
    match op.item
    case None =>
      s.(artifacts := s.artifacts[s.nextArtifact :=
           Artifact(op.kind, Some(op.container), op.status, None, op.title, op.basedOn)],
         nextArtifact := s.nextArtifact + 1)
    case Some(id) =>
      s.(artifacts := s.artifacts[id := s.artifacts[id].(
           status := op.status, title := if op.title != "" then op.title else s.artifacts[id].title,
           basedOn := op.basedOn)])
  }

  function TryUpsert(s: State, registry: Registry, op: Op): (State, Option<Error>)
    requires op.Upsert?
  {
    if !UpsertRows(s, registry, op) then (s, Some(NotFound))
    else
      var id := op.item.GetOr(s.nextArtifact);
      var t := WithItem(s, registry, op);
      if t.artifacts[id].current.None? && op.fromSystem then (RecomputeParent(t, registry, id), None)
      else if NumberTaken(t.versions, id, NextNumber(t, id)) then (s, Some(VersionConflict))
      else (RecomputeParent(AddVersion(t, id, t.artifacts[id].title, op.basedOn, None), registry, id), None)
  }

  /** `create_item_version` for a tool call whose version becomes the accepted one. */
  ghost function TryCreateItemVersion(s: State, registry: Registry, id: Aid, title: string, basedOn: map<RawId, RawId>,
                                toolCall: Tid): (State, Option<Error>)
  {
    if CallHasVersion(s, toolCall) then
      var v :| v in s.versions && s.versions[v].toolCall == Some(toolCall);
      var owner := s.versions[v].artifact;
      if !IsDocumentItem(s, owner) then (s, Some(NotFound))
      else
        var artifact := s.artifacts[owner].(
          current := Some(v), status := Accepted,
          title := if s.versions[v].title != "" then s.versions[v].title else s.artifacts[owner].title);
        (RecomputeParent(s.(artifacts := s.artifacts[owner := artifact]), registry, owner), None)
    else if !IsDocumentItem(s, id) then (s, Some(NotFound))
    else if NumberTaken(s.versions, id, NextNumber(s, id)) then (s, Some(VersionConflict))
    else
      var name := if title != "" then title else s.artifacts[id].title;
      var t := AddVersion(s, id, name, basedOn, Some(toolCall));
      var accepted := t.(artifacts := t.artifacts[id := t.artifacts[id].(title := name, status := Accepted)]);
      (RecomputeParent(accepted, registry, id), None)
  }

  function SetCall(s: State, toolCall: Tid, status: ToolCallStatus): State
    requires toolCall in s.toolCalls
  {
    s.(toolCalls := s.toolCalls[toolCall := s.toolCalls[toolCall].(status := status)])
  }

  /** Approving a proposal: both guards, then the version, then the executed mark, in one transaction.
      A proposal the guards turn down is superseded. */
  ghost function TryApprove(s: State, registry: Registry, op: Op): (State, Option<Error>)
    requires op.Approve?
  {
    if op.toolCall !in s.toolCalls then (s, Some(NotFound))
    else
      var call := s.toolCalls[op.toolCall];
      var item := call.proposal.item;
      if call.status == Executed then (s, None)
      else if op.sessionEnded then (s, Some(SessionEnded))
      else if call.status != Proposed then (s, Some(NotProposed))
      else if !IsDocumentItem(s, item) then (s, Some(NotFound))
      else if call.proposal.base != s.artifacts[item].current
      then (SetCall(s, op.toolCall, Superseded), Some(StaleBase))
      else if AnyDiverged(s, call.proposal.basedOn)
      then (SetCall(s, op.toolCall, Superseded), Some(StalePredecessors))
      else if !op.ready then (SetCall(s, op.toolCall, Superseded), Some(NotReady))
      else
        var r := TryCreateItemVersion(s, registry, item, call.proposal.title, call.proposal.basedOn, op.toolCall);
        if r.1.Some? then r else (SetCall(r.0, op.toolCall, Executed), None)
  }

  ghost function Try(s: State, registry: Registry, op: Op): (State, Option<Error>) {
    match op
    case Create(_, _, _, _, _, _) => TryCreate(s, registry, op)
    case Update(_, _, _, _, _) => TryUpdate(s, op)
    case Restore(_, _, _) => TryRestore(s, op)
    case Archive(_, _, _) => TryArchive(s, op)
    case ReviewVersion(_, _, _, _) => TryReview(s, op)
    case Upsert(_, _, _, _, _, _, _) => TryUpsert(s, registry, op)
    case Propose(proposal) =>
      (s.(toolCalls := s.toolCalls[s.nextToolCall := ToolCall(Proposed, proposal)], nextToolCall := s.nextToolCall + 1),
       None)
    case RejectCall(toolCall, sessionEnded) =>
      if toolCall !in s.toolCalls then (s, Some(NotFound))
      else if s.toolCalls[toolCall].status == CallRejected then (s, None)
      else if sessionEnded then (s, Some(SessionEnded))
      else if s.toolCalls[toolCall].status != Proposed then (s, Some(NotProposed))
      else (SetCall(s, toolCall, CallRejected), None)
    case Approve(_, _, _) => TryApprove(s, registry, op)
  }

  ghost function Run(s: State, registry: Registry, ops: seq<Op>): State
    decreases |ops|
  {
    if ops == [] then s else Run(Try(s, registry, ops[0]).0, registry, ops[1..])
  }

  /** A run is its operations one after the other. */
  lemma {:induction false} RunCons(s: State, registry: Registry, op: Op, ops: seq<Op>)
    ensures Run(s, registry, []) == s && Run(s, registry, [op] + ops) == Run(Try(s, registry, op).0, registry, ops)
  {
    assert ([op] + ops)[1..] == ops;
  }

  const EMPTY := State(map[], map[], map[], {}, 0, 0, 0, [])
}

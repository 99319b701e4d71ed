/** What each operation of the store changes and what it refuses, told from the rows before and after
    (app/services/artifact_service.py, app/services/document_service.py, app/services/agent_service.py). */
module StoreEffects {
  import opened Wrappers
  import opened LifecycleResolver
  import opened ArtifactStore
  import opened VersionHistory

  /** Of the artifacts and versions only those named may differ; tool calls and links are untouched. */
  ghost predicate SameBut(s: State, t: State, ids: set<Aid>, vids: set<Vid>) {
    && t.toolCalls == s.toolCalls && t.links == s.links && t.nextToolCall == s.nextToolCall
    && (forall a | a !in ids :: a in t.artifacts <==> a in s.artifacts)
    && (forall a | a !in ids && a in s.artifacts :: t.artifacts[a] == s.artifacts[a])
    && (forall v | v !in vids :: v in t.versions <==> v in s.versions)
    && (forall v | v !in vids && v in s.versions :: t.versions[v] == s.versions[v])
  }

  /** Nothing was numbered but so many artifacts and versions. */
  predicate Counted(s: State, t: State, artifacts: nat, versions: nat) {
    t.nextArtifact == s.nextArtifact + artifacts && t.nextVersion == s.nextVersion + versions
  }

  /** Version `v` is the draft that follows the current version of the artifact, or its first. */
  ghost predicate FollowsCurrent(s: State, id: Aid, version: Version) {
    && version.artifact == id && version.status == VersionDraft
    && (if IsCurrentVersion(s, id)
        then version.number == s.versions[s.artifacts[id].current.value].number + 1 && version.parent == s.artifacts[id].current
        else version.number == 1 && version.parent == None)
  }

  // ----- creating

  lemma {:induction false} CreateMeaning(s: State, registry: Registry, op: Op)
    requires op.Create? && s.nextArtifact !in s.artifacts
    ensures var r := TryCreate(s, registry, op); var t := r.0;
      if !op.isMember then r == (s, Some(NotAMember))
      else if op.parent.Some? && op.parent.value !in s.artifacts then r == (s, Some(NotFound))
      else if op.parent.Some? && !Holds(s, registry, op.parent.value, op.kind) then r == (s, Some(ParentMismatch))
      else
        && r.1 == None && SameBut(s, t, {s.nextArtifact}, {s.nextVersion}) && t.reviews == s.reviews
        && s.nextArtifact in t.artifacts && s.nextVersion in t.versions
        && t.artifacts[s.nextArtifact] == Artifact(op.kind, op.parent, op.status, Some(s.nextVersion), op.title, op.basedOn)
        && t.versions[s.nextVersion] == Version(s.nextArtifact, 1, None, VersionDraft, op.title, op.basedOn, None)
        && Counted(s, t, 1, 1)
  {
  }

  /** The artifact is a container, not itself an item, and the registry gives its kind items of this kind. */
  predicate Holds(s: State, registry: Registry, container: Aid, kind: string)
    requires container in s.artifacts
  {
    && s.artifacts[container].parent.None?
    && s.artifacts[container].kind in registry && kind in registry[s.artifacts[container].kind]
  }

  // ----- editing

  /** The status changes an edit may make. */
  const EDITS := {(Draft, NeedsClarification), (NeedsClarification, Draft), (NeedsClarification, Accepted), (Rejected, Draft)}

  lemma {:induction false} TransitionMeaning(before: Status, after: Status)
    ensures TransitionAllowed(before, after) <==> before == after || (before, after) in EDITS
  {
  }

  lemma {:induction false} UpdateMeaning(s: State, op: Op)
    requires op.Update?
    ensures var r := TryUpdate(s, op); var t := r.0; var id := op.artifact;
      if !op.isMember then r == (s, Some(NotAMember))
      else if id !in s.artifacts then r == (s, Some(NotFound))
      else if s.artifacts[id].status == Archived then r == (s, Some(IllegalTransition))
      else if !IsCurrentVersion(s, id) then r == (s, Some(NoCurrentVersion))
      else if op.newStatus.Some? && op.newStatus.value != s.artifacts[id].status
              && (s.artifacts[id].status, op.newStatus.value) !in EDITS then r == (s, Some(IllegalTransition))
      else if NumberTaken(s.versions, id, s.versions[s.artifacts[id].current.value].number + 1)
      then r == (s, Some(VersionConflict))
      else
        && r.1 == None && SameBut(s, t, {id}, {s.nextVersion}) && t.reviews == s.reviews
        && s.nextVersion in t.versions && id in t.artifacts && Counted(s, t, 0, 1)
        && EditedVersion(s, op, t.versions[s.nextVersion]) && EditedArtifact(s, op, t.artifacts[id])
  {
    if op.newStatus.Some? && op.artifact in s.artifacts {
      TransitionMeaning(s.artifacts[op.artifact].status, op.newStatus.value);
    }
  }

  /** The new version: what the edit leaves out is taken from the current version, the metadata from the artifact. */
  ghost predicate EditedVersion(s: State, op: Op, version: Version)
    requires op.Update? && IsCurrentVersion(s, op.artifact)
  {
    && FollowsCurrent(s, op.artifact, version) && version.toolCall == None
    && version.title == (if op.newTitle.Some? then op.newTitle.value else s.versions[s.artifacts[op.artifact].current.value].title)
    && version.basedOn == (if op.newBasedOn.Some? then op.newBasedOn.value else s.artifacts[op.artifact].basedOn)
  }

  ghost predicate EditedArtifact(s: State, op: Op, artifact: Artifact)
    requires op.Update? && IsCurrentVersion(s, op.artifact)
  {
    && artifact.kind == s.artifacts[op.artifact].kind && artifact.parent == s.artifacts[op.artifact].parent
    && artifact.current == Some(s.nextVersion)
    && artifact.title == (if op.newTitle.Some? then op.newTitle.value else s.versions[s.artifacts[op.artifact].current.value].title)
    && artifact.status == (if op.newStatus.Some? then op.newStatus.value else s.artifacts[op.artifact].status)
    && artifact.basedOn == (if op.newBasedOn.Some? then op.newBasedOn.value else s.artifacts[op.artifact].basedOn)
  }

  lemma {:induction false} RestoreMeaning(s: State, op: Op)
    requires op.Restore?
    ensures var r := TryRestore(s, op); var t := r.0; var id := op.artifact;
      if !op.isMember then r == (s, Some(NotAMember))
      else if id !in s.artifacts then r == (s, Some(NotFound))
      else if s.artifacts[id].status == Archived then r == (s, Some(IllegalTransition))
      else if op.version !in s.versions || s.versions[op.version].artifact != id then r == (s, Some(NotFound))
      else
        && r.1 == None && SameBut(s, t, {id}, {}) && t.reviews == s.reviews && id in t.artifacts && Counted(s, t, 0, 0)
        && t.artifacts[id].current == Some(op.version) && t.artifacts[id].title == s.versions[op.version].title
        && t.artifacts[id] == s.artifacts[id].(current := t.artifacts[id].current, title := t.artifacts[id].title)
  {
  }

  // ----- archiving

  /** A live artifact that an archive would leave behind: it links to `id`, hangs under it, or its current version
      names it, in its own spelling, in an entry that is not blank. */
  ghost predicate Uses(s: State, user: Aid, id: Aid) {
    && user in s.artifacts && s.artifacts[user].status != Archived
    && ((user, id) in s.links || s.artifacts[user].parent == Some(id) || (user != id && NamesNow(s, user, id)))
  }

  ghost predicate NamesNow(s: State, user: Aid, id: Aid)
    requires user in s.artifacts
  {
    && s.artifacts[user].current.Some? && s.artifacts[user].current.value in s.versions
    && var basedOn := s.versions[s.artifacts[user].current.value].basedOn;
       Canonical(id) in basedOn && basedOn[Canonical(id)] != Malformed("")
  }

  lemma {:induction false} UsersMeaning(s: State, id: Aid)
    ensures forall user :: user in DownstreamUsers(s, id) <==> Uses(s, user, id)
  {
  }

  lemma {:induction false} ArchiveMeaning(s: State, op: Op)
    requires op.Archive?
    ensures var r := TryArchive(s, op); var t := r.0; var id := op.artifact; var successor := op.supersededBy;
      if !op.isMember then r == (s, Some(NotAMember))
      else if id !in s.artifacts then r == (s, Some(NotFound))
      else if successor == Some(id) then r == (s, Some(IllegalTransition))
      else if successor.Some? && successor.value !in s.artifacts then r == (s, Some(NotFound))
      else if successor.Some? && s.artifacts[successor.value].status == Archived then r == (s, Some(IllegalTransition))
      else if exists user :: Uses(s, user, id) then r == (s, Some(InUse))
      else
        && r.1 == None && t.reviews == s.reviews && Counted(s, t, 0, 0)
        && SameBut(s, t, {id}, if IsCurrentVersion(s, id) then {s.artifacts[id].current.value} else {})
        && id in t.artifacts && t.artifacts[id] == s.artifacts[id].(status := Archived)
        && (IsCurrentVersion(s, id) ==>
              var v := s.artifacts[id].current.value;
              v in t.versions && t.versions[v] == s.versions[v].(status := VersionArchived))
  {
    UsersMeaning(s, op.artifact);
    if user :| Uses(s, user, op.artifact) {
      assert user in DownstreamUsers(s, op.artifact);
    }
    if user :| user in DownstreamUsers(s, op.artifact) {
      assert Uses(s, user, op.artifact);
    }
  }

  // ----- reviewing

  predicate Terminal(status: Status) {
    status == Accepted || status == Archived
  }

  predicate TerminalVersion(status: VersionStatus) {
    status == VersionAccepted || status == VersionArchived
  }

  /** What a review makes of the version's status. */
  ghost predicate ReviewedVersion(before: VersionStatus, outcome: Review, after: VersionStatus) {
    && (outcome == Approved ==> after == if before == VersionArchived then VersionArchived else VersionAccepted)
    && (outcome != Approved ==> after == if TerminalVersion(before) then before else VersionRejected)
  }

  /** What a review of version `v` makes of its artifact. */
  ghost predicate ReviewedArtifact(before: Artifact, version: Version, v: Vid, outcome: Review, after: Artifact) {
    && after.kind == before.kind && after.parent == before.parent && after.basedOn == before.basedOn
    && (outcome == Approved && before.status != Archived ==>
          after.status == Accepted && after.current == Some(v) && after.title == version.title)
    && (outcome == Approved && before.status == Archived ==> after == before)
    && (outcome != Approved ==> after.current == before.current && after.title == before.title)
    && (outcome != Approved ==>
          after.status ==
            if TerminalVersion(version.status) || before.current != Some(v) || Terminal(before.status) then before.status
            else match outcome
                 case ReviewRejected => Rejected
                 case ChangesRequested => NeedsClarification
                 case Approved => before.status)
  }

  lemma {:induction false} ReviewMeaning(s: State, op: Op)
    requires op.ReviewVersion?
    ensures var r := TryReview(s, op); var t := r.0; var id := op.artifact; var v := op.version;
      if !op.isMember then r == (s, Some(NotAMember))
      else if id !in s.artifacts || v !in s.versions || s.versions[v].artifact != id then r == (s, Some(NotFound))
      else
        && r.1 == None && SameBut(s, t, {id}, {v}) && t.reviews == s.reviews + [ReviewRow(id, v, op.outcome)]
        && id in t.artifacts && v in t.versions && Counted(s, t, 0, 0)
        && t.versions[v] == s.versions[v].(status := t.versions[v].status)
        && ReviewedVersion(s.versions[v].status, op.outcome, t.versions[v].status)
        && ReviewedArtifact(s.artifacts[id], s.versions[v], v, op.outcome, t.artifacts[id])
  {
  }

  // ----- document items

  /** Every kind of item the registry gives the container's kind has an item with a version in it. */
  ghost predicate Filled(s: State, registry: Registry, container: Aid)
    requires container in s.artifacts
  {
    forall kind :: s.artifacts[container].kind in registry && kind in registry[s.artifacts[container].kind] ==>
      exists item | item in s.artifacts :: HangsIn(s, item, container, kind)
  }

  ghost predicate HangsIn(s: State, item: Aid, container: Aid, kind: string)
    requires item in s.artifacts
  {
    s.artifacts[item].parent == Some(container) && s.artifacts[item].kind == kind && s.artifacts[item].current.Some?
  }

  /** Recomputing touches the status of the item's container alone, and only if the registry gives it items: it
      is accepted exactly when it is filled, and a draft otherwise. */
  lemma {:induction false} RecomputeMeaning(s: State, registry: Registry, id: Aid)
    requires id in s.artifacts
    ensures var t := RecomputeParent(s, registry, id); var parent := s.artifacts[id].parent;
      if parent.None? || parent.value !in s.artifacts then t == s
      else if s.artifacts[parent.value].kind !in registry || registry[s.artifacts[parent.value].kind] == [] then t == s
      else
        t == s.(artifacts := s.artifacts[parent.value :=
          s.artifacts[parent.value].(status := if Filled(s, registry, parent.value) then Accepted else Draft)])
  {
    var parent := s.artifacts[id].parent;
    if parent.Some? && parent.value in s.artifacts && s.artifacts[parent.value].kind in registry {
      var kinds := registry[s.artifacts[parent.value].kind];
      forall kind | kind in kinds
        ensures (exists item | item in s.artifacts :: HangsIn(s, item, parent.value, kind)) <==>
          exists c | c in s.artifacts ::
            s.artifacts[c].parent == parent && s.artifacts[c].kind == kind && s.artifacts[c].current.Some?
      {
        if c :| c in s.artifacts && s.artifacts[c].parent == parent && s.artifacts[c].kind == kind && s.artifacts[c].current.Some? {
          assert HangsIn(s, c, parent.value, kind);
        }
      }
    }
  }

  /** The rows an upsert needs: a container for the kind and, of that kind in it, the item asked for, or none. */
  ghost predicate FindsRows(s: State, registry: Registry, op: Op)
    requires op.Upsert?
  {
    && op.container in s.artifacts && Holds(s, registry, op.container, op.kind)
    && (op.item.Some? ==>
          && op.item.value in s.artifacts && s.artifacts[op.item.value].parent == Some(op.container)
          && s.artifacts[op.item.value].kind == op.kind)
    && (op.item.None? ==> forall a | a in s.artifacts :: s.artifacts[a].parent != Some(op.container) || s.artifacts[a].kind != op.kind)
  }

  /** The item as the upsert leaves it, its new version aside. */
  ghost predicate UpsertedItem(s: State, op: Op, artifact: Artifact)
    requires op.Upsert? && (op.item.Some? ==> op.item.value in s.artifacts)
  {
    && artifact.kind == op.kind && artifact.parent == Some(op.container) && artifact.status == op.status
    && artifact.basedOn == op.basedOn
    && artifact.title == if op.item.Some? && op.title == "" then s.artifacts[op.item.value].title else op.title
  }

  /** What an upsert does before the container is recomputed: nothing but the item's row and, unless the system
      reserves the slot of an item without a version, a version that follows its current one. */
  lemma {:induction false} UpsertMeaning(s: State, registry: Registry, op: Op) returns (u: State)
    requires Sound(s) && op.Upsert?
    ensures var r := TryUpsert(s, registry, op); var id := if op.item.Some? then op.item.value else s.nextArtifact;
      var reserves := op.fromSystem && (op.item.None? || (id in s.artifacts && s.artifacts[id].current.None?));
      if !FindsRows(s, registry, op) then r == (s, Some(NotFound))
      else if !reserves && NumberTaken(s.versions, id, NextNumber(s, id)) then r == (s, Some(VersionConflict))
      else
        && id in u.artifacts && r == (RecomputeParent(u, registry, id), None)
        && SameBut(s, u, {id}, if reserves then {} else {s.nextVersion}) && u.reviews == s.reviews
        && Counted(s, u, if op.item.None? then 1 else 0, if reserves then 0 else 1)
        && UpsertedItem(s, op, u.artifacts[id])
        && u.artifacts[id].current == (if reserves then None else Some(s.nextVersion))
        && (!reserves ==>
              && s.nextVersion in u.versions && FollowsCurrent(s, id, u.versions[s.nextVersion])
              && u.versions[s.nextVersion].title == u.artifacts[id].title
              && u.versions[s.nextVersion].basedOn == op.basedOn && u.versions[s.nextVersion].toolCall == None)
  {
    u := s;
    assert UpsertRows(s, registry, op) <==> FindsRows(s, registry, op);
    if FindsRows(s, registry, op) {
      var id := op.item.GetOr(s.nextArtifact);
      var t := WithItem(s, registry, op);
      u := if t.artifacts[id].current.None? && op.fromSystem then t
           else AddVersion(t, id, t.artifacts[id].title, op.basedOn, None);
      if op.item.None? {
        assert id !in s.artifacts;
      }
    }
  }

  // ----- tool calls

  /** Only the status of one tool call differs. */
  ghost predicate OnlyCall(s: State, t: State, toolCall: Tid, status: ToolCallStatus)
    requires toolCall in s.toolCalls
  {
    t == s.(toolCalls := s.toolCalls[toolCall := s.toolCalls[toolCall].(status := status)])
  }

  lemma {:induction false} ProposeMeaning(s: State, registry: Registry, proposal: Proposal)
    requires s.nextToolCall !in s.toolCalls
    ensures var r := Try(s, registry, Propose(proposal)); var t := r.0.toolCalls[s.nextToolCall := ToolCall(Proposed, proposal)];
      && r.1 == None && r.0 == s.(toolCalls := t, nextToolCall := s.nextToolCall + 1)
      && forall c | c in s.toolCalls :: c in t && t[c] == s.toolCalls[c]
  {
  }

  lemma {:induction false} RejectMeaning(s: State, registry: Registry, op: Op)
    requires op.RejectCall?
    ensures var r := Try(s, registry, op);
      if op.toolCall !in s.toolCalls then r == (s, Some(NotFound))
      else if s.toolCalls[op.toolCall].status == CallRejected then r == (s, None)
      else if op.sessionEnded then r == (s, Some(SessionEnded))
      else if s.toolCalls[op.toolCall].status != Proposed then r == (s, Some(NotProposed))
      else r.1 == None && OnlyCall(s, r.0, op.toolCall, CallRejected)
  {
  }

  /** A predecessor entry still holds: it names a live artifact at its current version. */
  ghost predicate EntryHolds(s: State, key: RawId, version: RawId) {
    && !key.Malformed? && key.id in s.artifacts && s.artifacts[key.id].status != Archived
    && s.artifacts[key.id].current.Some? && version == Canonical(s.artifacts[key.id].current.value)
  }

  /** Every way an approval ends: refused as it is, refused and superseded, or persisted. */
  lemma {:induction false} ApproveMeaning(s: State, registry: Registry, op: Op)
    requires Sound(s) && op.Approve?
    ensures var r := Try(s, registry, op);
      if op.toolCall !in s.toolCalls then r == (s, Some(NotFound))
      else
        var call := s.toolCalls[op.toolCall];
        if call.status == Executed then r == (s, None)
        else if op.sessionEnded then r == (s, Some(SessionEnded))
        else if call.status != Proposed then r == (s, Some(NotProposed))
        else if call.proposal.item !in s.artifacts || s.artifacts[call.proposal.item].parent.None? then r == (s, Some(NotFound))
        else if call.proposal.base != s.artifacts[call.proposal.item].current
        then r.1 == Some(StaleBase) && OnlyCall(s, r.0, op.toolCall, Superseded)
        else if exists k | k in call.proposal.basedOn :: !EntryHolds(s, k, call.proposal.basedOn[k])
        then r.1 == Some(StalePredecessors) && OnlyCall(s, r.0, op.toolCall, Superseded)
        else if !op.ready then r.1 == Some(NotReady) && OnlyCall(s, r.0, op.toolCall, Superseded)
        else if NumberTaken(s.versions, call.proposal.item, NextNumber(s, call.proposal.item))
        then r == (s, Some(VersionConflict))
        else r == (Persisted(s, registry, op.toolCall), None)
  {
    if op.toolCall in s.toolCalls {
      var basedOn := s.toolCalls[op.toolCall].proposal.basedOn;
      forall k | k in basedOn ensures Diverged(s, k, basedOn[k]) <==> !EntryHolds(s, k, basedOn[k]) {}
      ApprovePersists(s, registry, op);
      if s.toolCalls[op.toolCall].status == Proposed {
        ProposedCallHasNoVersion(s, op.toolCall);
      }
    }
  }

  /** What a persisted approval leaves before the container is recomputed: the version the proposal asked for,
      the item accepted at it under its title, and the call executed. */
  lemma {:induction false} PersistedMeaning(s: State, registry: Registry, toolCall: Tid) returns (u: State)
    requires Sound(s) && toolCall in s.toolCalls && s.toolCalls[toolCall].proposal.item in s.artifacts
    ensures var proposal := s.toolCalls[toolCall].proposal; var id := proposal.item;
      && SameBut(s, u, {id}, {s.nextVersion}) && u.reviews == s.reviews && Counted(s, u, 0, 1)
      && id in u.artifacts && s.nextVersion in u.versions
      && (exists t :: t == RecomputeParent(u, registry, id) && OnlyCall(t, Persisted(s, registry, toolCall), toolCall, Executed))
      && FollowsCurrent(s, id, u.versions[s.nextVersion])
      && u.versions[s.nextVersion].basedOn == proposal.basedOn && u.versions[s.nextVersion].toolCall == Some(toolCall)
      && u.versions[s.nextVersion].title == u.artifacts[id].title
      && u.artifacts[id] == s.artifacts[id].(status := Accepted, current := Some(s.nextVersion), title := u.artifacts[id].title)
      && u.artifacts[id].title == (if proposal.title == "" then s.artifacts[id].title else proposal.title)
  {
    var proposal := s.toolCalls[toolCall].proposal;
    var id := proposal.item;
    var name := if proposal.title != "" then proposal.title else s.artifacts[id].title;
    u := Accept(AddVersion(s, id, name, proposal.basedOn, Some(toolCall)), id, name);
    var t := RecomputeParent(u, registry, id);
    assert OnlyCall(t, Persisted(s, registry, toolCall), toolCall, Executed);
  }

  /** What finding the version of an earlier run leaves before the container is recomputed: its artifact is accepted
      at it, under its title unless that is empty; nothing else changes. */
  lemma {:induction false} FoundMeaning(s: State, registry: Registry, toolCall: Tid, id: Aid, title: string,
                                        basedOn: map<RawId, RawId>, v: Vid) returns (u: State)
    requires TwoLevels(s.artifacts) && OnlyVersionOf(s.versions, toolCall, v)
    requires IsDocumentItem(s, s.versions[v].artifact)
    ensures var owner := s.versions[v].artifact;
      && SameBut(s, u, {owner}, {}) && u.reviews == s.reviews && Counted(s, u, 0, 0) && owner in u.artifacts
      && TryCreateItemVersion(s, registry, id, title, basedOn, toolCall) == (RecomputeParent(u, registry, owner), None)
      && u.artifacts[owner] == s.artifacts[owner].(current := Some(v), status := Accepted, title := u.artifacts[owner].title)
      && u.artifacts[owner].title == (if s.versions[v].title == "" then s.artifacts[owner].title else s.versions[v].title)
  {
    var owner := s.versions[v].artifact;
    var name := if s.versions[v].title == "" then s.artifacts[owner].title else s.versions[v].title;
    u := s.(artifacts := s.artifacts[owner := s.artifacts[owner].(current := Some(v), status := Accepted, title := name)]);
    assert CallHasVersion(s, toolCall);
    forall w | w in s.versions && s.versions[w].toolCall == Some(toolCall) ensures w == v {}
  }
}

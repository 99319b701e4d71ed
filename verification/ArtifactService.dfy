/** The services over the stored rows, as one object whose methods update the rows in place. Each method
    refines its operation on values (`ArtifactStore.Try`) and keeps the history sound. */
module ArtifactService {
  import opened Wrappers
  import opened Graphs
  import opened ArtifactPolicy
  import opened LifecycleResolver
  import opened ArtifactStore
  import opened VersionHistory
  import opened Lifecycle

  datatype Divergence = InvalidArtifactId | MissingPredecessor | RetiredPredecessor | PredecessorVersionChanged

  /** Why the guard turns an entry down. */
  function DivergenceOf(s: State, key: RawId, version: RawId): Option<Divergence> {
    if Parse(key).None? then Some(InvalidArtifactId)
    else if Parse(key).value !in s.artifacts then Some(MissingPredecessor)
    else
      var predecessor := s.artifacts[Parse(key).value];
      if predecessor.status == Archived then Some(RetiredPredecessor)
      else if VersionText(predecessor.current) != Some(version) then Some(PredecessorVersionChanged)
      else None
  }

  /** What the reason says is so. */
  predicate Explains(s: State, key: RawId, reason: Divergence) {
    match reason
    case InvalidArtifactId => key.Malformed?
    case MissingPredecessor => !key.Malformed? && key.id !in s.artifacts
    case RetiredPredecessor => !key.Malformed? && key.id in s.artifacts && s.artifacts[key.id].status == Archived
    case PredecessorVersionChanged => !key.Malformed? && key.id in s.artifacts && s.artifacts[key.id].status != Archived
  }

  /** The snapshot of a kind: of its accepted artifact created first, at its current version, or of none. */
  ghost predicate Represents(s: State, kind: string, p: StructuralPredecessor) {
    && p.kind == kind && (p.found <==> HasAccepted(s, kind)) && (p.found ==> p.status == Accepted)
    && (p.found ==> exists a | a in s.artifacts :: IsFirstAccepted(s, kind, a) && CurrentAt(s.artifacts[a], kind, p.version))
  }

  predicate CurrentAt(artifact: Artifact, kind: string, version: Option<RawId>) {
    artifact.kind == kind && artifact.current.Some? && version == Some(Canonical(artifact.current.value))
  }

  lemma {:induction false} SnapshotRepresents(s: State, kind: string)
    ensures Represents(s, kind, StructuralSnapshot(s, kind))
  {
    if HasAccepted(s, kind) {
      HasFirst(s, kind);
    }
  }

  lemma {:induction false} SnapshotsRepresent(s: State, kinds: seq<string>)
    ensures forall i :: 0 <= i < |kinds| ==> Represents(s, kinds[i], StructuralPredecessors(s, kinds)[i])
  {
    if kinds != [] {
      var n := |kinds| - 1;
      SnapshotsRepresent(s, kinds[..n]);
      SnapshotRepresents(s, kinds[n]);
    }
  }

  /** `kinds` are the kinds that lie before `kind`, each once, nearest first. */
  ghost predicate Ancestors(predecessors: map<string, seq<string>>, kind: string, kinds: seq<string>) {
    && NoDuplicates(kinds) && NearestFirst(Edges(predecessors), kind, kinds)
    && forall k :: k in kinds <==> ReachesOver(Edges(predecessors), kind, k)
  }

  class Service {
    const registry: Registry
    var artifacts: map<Aid, Artifact>
    var versions: map<Vid, Version>
    var toolCalls: map<Tid, ToolCall>
    var links: set<(Aid, Aid)>
    var nextArtifact: Aid
    var nextVersion: Vid
    var nextToolCall: Tid
    var reviews: seq<ReviewRow>

    function Rows(): State
      reads this
    {
      State(artifacts, versions, toolCalls, links, nextArtifact, nextVersion, nextToolCall, reviews)
    }

    constructor (registry: Registry)
      ensures Rows() == EMPTY && Sound(Rows()) && this.registry == registry
    {
      this.registry := registry;
      artifacts, versions, toolCalls, links := map[], map[], map[], {};
      nextArtifact, nextVersion, nextToolCall, reviews := 0, 0, 0, [];
    }

    // ----- document items

    /** Insert the row of the version that follows the current one and make it current. */
    method InsertVersion(id: Aid, title: string, basedOn: map<RawId, RawId>, toolCall: Option<Tid>)
      requires id in artifacts && Sound(Rows())
      modifies this`versions, this`nextVersion, this`artifacts
      ensures Rows() == AddVersion(old(Rows()), id, title, basedOn, toolCall)
    {
      var current := artifacts[id].current;
      var number, parent := 1, None;
      assert Points(versions, id, current);
      if current.Some? {
        number, parent := versions[current.value].number + 1, current;
      }
      versions := versions[nextVersion := Version(id, number, parent, VersionDraft, title, basedOn, toolCall)];
      artifacts := artifacts[id := artifacts[id].(current := Some(nextVersion))];
      nextVersion := nextVersion + 1;
    }

    method RecomputeParentAcceptance(id: Aid)
      requires id in artifacts
      modifies this`artifacts
      ensures Rows() == RecomputeParent(old(Rows()), registry, id)
    {
      var parent := artifacts[id].parent;
      if parent.None? || parent.value !in artifacts {
        return;
      }
      var expected := Children(registry, artifacts[parent.value].kind);
      if expected == [] {
        return;
      }
      var versionedKinds := set c | c in artifacts && artifacts[c].parent == parent && artifacts[c].kind in expected
                                    && artifacts[c].current.Some? :: artifacts[c].kind;
      assert forall k :: k in versionedKinds <==> k in expected && exists c | c in artifacts ::
        artifacts[c].parent == parent && artifacts[c].kind == k && artifacts[c].current.Some?;
      var complete := forall k | k in expected :: k in versionedKinds;
      artifacts := artifacts[parent.value := artifacts[parent.value].(status := if complete then Accepted else Draft)];
    }

    method StoreItem(op: Op) returns (id: Aid)
      requires Sound(Rows()) && op.Upsert? && UpsertRows(Rows(), registry, op)
      modifies this`artifacts, this`nextArtifact
      ensures Sound(Rows()) && id in artifacts && id == op.item.GetOr(old(nextArtifact))
      ensures Rows() == WithItem(old(Rows()), registry, op)
    {
      if op.item.None? {
        id := nextArtifact;
        var artifact := Artifact(op.kind, Some(op.container), op.status, None, op.title, op.basedOn);
        NewArtifactKeepsSound(Rows(), artifact);
        artifacts := artifacts[id := artifact];
        nextArtifact := nextArtifact + 1;
      } else {
        id := op.item.value;
        var artifact := artifacts[id].(status := op.status, basedOn := op.basedOn);
        if op.title != "" {
          artifact := artifact.(title := op.title);
        }
        assert Points(versions, id, artifacts[id].current);
        EditKeepsSound(Rows(), id, artifact);
        artifacts := artifacts[id := artifact];
      }
    }

    method UpsertItem(container: Aid, item: Option<Aid>, kind: string, status: Status, title: string,
                      basedOn: map<RawId, RawId>, fromSystem: bool) returns (error: Option<Error>)
      requires Sound(Rows())
      modifies this`artifacts, this`versions, this`nextArtifact, this`nextVersion
      ensures Sound(Rows())
      ensures (Rows(), error) ==
        Try(old(Rows()), registry, Upsert(container, item, kind, status, title, basedOn, fromSystem))
    {
      var op := Upsert(container, item, kind, status, title, basedOn, fromSystem);
      StepKeepsSound(Rows(), registry, op);
      if !UpsertRows(Rows(), registry, op) {
        return Some(NotFound);
      }
      if item.Some? && !(artifacts[item.value].current.None? && fromSystem)
         && NumberTaken(versions, item.value, NextNumber(Rows(), item.value)) {
        return Some(VersionConflict);
      }
      var id := StoreItem(op);
      if artifacts[id].current.None? && fromSystem {
        RecomputeParentAcceptance(id);
        return None;
      }
      InsertVersion(id, artifacts[id].title, basedOn, None);
      RecomputeParentAcceptance(id);
      return None;
    }

    method CreateItemVersion(id: Aid, title: string, basedOn: map<RawId, RawId>, toolCall: Tid)
      returns (error: Option<Error>)
      requires Sound(Rows())
      modifies this`artifacts, this`versions, this`nextVersion
      ensures (Rows(), error) == TryCreateItemVersion(old(Rows()), registry, id, title, basedOn, toolCall)
    {
      if exists v | v in versions :: versions[v].toolCall == Some(toolCall) {
        assert CallHasVersion(Rows(), toolCall);
        var existing :| existing in versions && versions[existing].toolCall == Some(toolCall);
        forall v | v in versions && versions[v].toolCall == Some(toolCall) ensures v == existing {
          assert SameCall(versions[v], versions[existing]);
        }
        var owner := versions[existing].artifact;
        if !IsDocumentItem(Rows(), owner) {
          return Some(NotFound);
        }
        var name := if versions[existing].title != "" then versions[existing].title else artifacts[owner].title;
        artifacts := artifacts[owner := artifacts[owner].(current := Some(existing), status := Accepted, title := name)];
        RecomputeParentAcceptance(owner);
        return None;
      }
      if !IsDocumentItem(Rows(), id) {
        return Some(NotFound);
      }
      if NumberTaken(versions, id, NextNumber(Rows(), id)) {
        return Some(VersionConflict);
      }
      var name := if title != "" then title else artifacts[id].title;
      InsertVersion(id, name, basedOn, Some(toolCall));
      artifacts := artifacts[id := artifacts[id].(title := name, status := Accepted)];
      RecomputeParentAcceptance(id);
      return None;
    }

    // ----- artifacts

    method CreateArtifact(isMember: bool, kind: string, parent: Option<Aid>, status: Status, title: string, basedOn: map<RawId, RawId>)
      returns (error: Option<Error>)
      requires Sound(Rows())
      modifies this`artifacts, this`versions, this`nextArtifact, this`nextVersion
      ensures Sound(Rows())
      ensures (Rows(), error) == Try(old(Rows()), registry, Create(isMember, kind, parent, status, title, basedOn))
    {
      StepKeepsSound(Rows(), registry, Create(isMember, kind, parent, status, title, basedOn));
      if !isMember {
        return Some(NotAMember);
      }
      if parent.Some? {
        if parent.value !in artifacts {
          return Some(NotFound);
        }
        if artifacts[parent.value].parent.Some? || kind !in Children(registry, artifacts[parent.value].kind) {
          return Some(ParentMismatch);
        }
      }
      var id, artifact := nextArtifact, Artifact(kind, parent, status, None, title, basedOn);
      NewArtifactKeepsSound(Rows(), artifact);
      artifacts := artifacts[id := artifact];
      nextArtifact := nextArtifact + 1;
      InsertVersion(id, title, basedOn, None);
      return None;
    }

    method UpdateArtifact(isMember: bool, id: Aid, newTitle: Option<string>, newStatus: Option<Status>,
                          newBasedOn: Option<map<RawId, RawId>>) returns (error: Option<Error>)
      requires Sound(Rows())
      modifies this`artifacts, this`versions, this`nextVersion
      ensures Sound(Rows())
      ensures (Rows(), error) == Try(old(Rows()), registry, Update(isMember, id, newTitle, newStatus, newBasedOn))
    {
      StepKeepsSound(Rows(), registry, Update(isMember, id, newTitle, newStatus, newBasedOn));
      if !isMember {
        return Some(NotAMember);
      }
      if id !in artifacts {
        return Some(NotFound);
      }
      var artifact := artifacts[id];
      if artifact.status == Archived {
        return Some(IllegalTransition);
      }
      if !IsCurrentVersion(Rows(), id) {
        return Some(NoCurrentVersion);
      }
      if newStatus.Some? && !TransitionAllowed(artifact.status, newStatus.value) {
        return Some(IllegalTransition);
      }
      if NumberTaken(versions, id, NextNumber(Rows(), id)) {
        return Some(VersionConflict);
      }
      var title := newTitle.GetOr(versions[artifact.current.value].title);
      InsertVersion(id, title, newBasedOn.GetOr(artifact.basedOn), None);
      artifact := artifacts[id].(title := title);
      if newStatus.Some? {
        artifact := artifact.(status := newStatus.value);
      }
      if newBasedOn.Some? {
        artifact := artifact.(basedOn := newBasedOn.value);
      }
      artifacts := artifacts[id := artifact];
      return None;
    }

    method RestoreVersion(isMember: bool, id: Aid, version: Vid) returns (error: Option<Error>)
      requires Sound(Rows())
      modifies this`artifacts
      ensures Sound(Rows())
      ensures (Rows(), error) == Try(old(Rows()), registry, Restore(isMember, id, version))
    {
      StepKeepsSound(Rows(), registry, Restore(isMember, id, version));
      if !isMember {
        return Some(NotAMember);
      }
      if id !in artifacts {
        return Some(NotFound);
      }
      if artifacts[id].status == Archived {
        return Some(IllegalTransition);
      }
      if version !in versions || versions[version].artifact != id {
        return Some(NotFound);
      }
      var artifact := artifacts[id].(current := Some(version));
      artifact := artifact.(title := versions[version].title);
      artifacts := artifacts[id := artifact];
      return None;
    }

    method ArchiveArtifact(isMember: bool, id: Aid, supersededBy: Option<Aid>) returns (error: Option<Error>)
      requires Sound(Rows())
      modifies this`artifacts, this`versions
      ensures Sound(Rows())
      ensures (Rows(), error) == Try(old(Rows()), registry, Archive(isMember, id, supersededBy))
    {
      StepKeepsSound(Rows(), registry, Archive(isMember, id, supersededBy));
      if !isMember {
        return Some(NotAMember);
      }
      if id !in artifacts {
        return Some(NotFound);
      }
      if supersededBy.Some? {
        if supersededBy.value == id {
          return Some(IllegalTransition);
        }
        if supersededBy.value !in artifacts {
          return Some(NotFound);
        }
        if artifacts[supersededBy.value].status == Archived {
          return Some(IllegalTransition);
        }
      }
      if DownstreamUsers(Rows(), id) != {} {
        return Some(InUse);
      }
      var current := artifacts[id].current;
      artifacts := artifacts[id := artifacts[id].(status := Archived)];
      if current.Some? && current.value in versions {
        versions := versions[current.value := versions[current.value].(status := VersionArchived)];
      }
      return None;
    }

    method ReviewArtifactVersion(isMember: bool, id: Aid, version: Vid, outcome: Review) returns (error: Option<Error>)
      requires Sound(Rows())
      modifies this`artifacts, this`versions, this`reviews
      ensures Sound(Rows())
      ensures (Rows(), error) == Try(old(Rows()), registry, ReviewVersion(isMember, id, version, outcome))
    {
      StepKeepsSound(Rows(), registry, ReviewVersion(isMember, id, version, outcome));
      if !isMember {
        return Some(NotAMember);
      }
      if id !in artifacts || version !in versions || versions[version].artifact != id {
        return Some(NotFound);
      }
      assert versions[version := versions[version]] == versions;
      reviews := reviews + [ReviewRow(id, version, outcome)];
      var versionTerminal := versions[version].status in {VersionAccepted, VersionArchived};
      var artifactTerminal := artifacts[id].status in {Accepted, Archived};
      if outcome == Approved {
        if versions[version].status != VersionArchived {
          versions := versions[version := versions[version].(status := VersionAccepted)];
        }
        if artifacts[id].status != Archived {
          var artifact := artifacts[id].(status := Accepted);
          artifact := artifact.(current := Some(version));
          artifact := artifact.(title := versions[version].title);
          artifacts := artifacts[id := artifact];
        }
        return None;
      }
      if versionTerminal {
        return None;
      }
      versions := versions[version := versions[version].(status := VersionRejected)];
      if artifacts[id].current != Some(version) || artifactTerminal {
        return None;
      }
      if outcome == ReviewRejected {
        artifacts := artifacts[id := artifacts[id].(status := Rejected)];
      } else {
        artifacts := artifacts[id := artifacts[id].(status := NeedsClarification)];
      }
      return None;
    }

    // ----- approvals

    /** Walks the entries and collects those that no longer hold, each with its reason. */
    method GuardLifecyclePredecessors(basedOn: map<RawId, RawId>) returns (stale: map<RawId, Divergence>)
      ensures forall k :: k in stale <==> k in basedOn && Diverged(Rows(), k, basedOn[k])
      ensures forall k | k in stale :: DivergenceOf(Rows(), k, basedOn[k]) == Some(stale[k])
      ensures forall k | k in stale :: Explains(Rows(), k, stale[k])
    {
      stale := map[];
      var todo := basedOn.Keys;
      while todo != {}
        invariant todo <= basedOn.Keys
        invariant forall k :: k in stale <==> k in basedOn && k !in todo && Diverged(Rows(), k, basedOn[k])
        invariant forall k | k in stale :: DivergenceOf(Rows(), k, basedOn[k]) == Some(stale[k]) && Explains(Rows(), k, stale[k])
      {
        var key :| key in todo;
        todo := todo - {key};
        if Parse(key).None? {
          stale := stale[key := InvalidArtifactId];
          continue;
        }
        var id := Parse(key).value;
        if id !in artifacts {
          stale := stale[key := MissingPredecessor];
          continue;
        }
        var predecessor := artifacts[id];
        var reason: Divergence;
        if predecessor.status == Archived {
          reason := RetiredPredecessor;
        } else if VersionText(predecessor.current) != Some(basedOn[key]) {
          reason := PredecessorVersionChanged;
        } else {
          continue;
        }
        stale := stale[key := reason];
      }
    }

    method ApproveToolCall(toolCall: Tid, sessionEnded: bool, ready: bool) returns (error: Option<Error>)
      requires Sound(Rows())
      modifies this`artifacts, this`versions, this`nextVersion, this`toolCalls
      ensures Sound(Rows())
      ensures (Rows(), error) == Try(old(Rows()), registry, Approve(toolCall, sessionEnded, ready))
    {
      StepKeepsSound(Rows(), registry, Approve(toolCall, sessionEnded, ready));
      if toolCall !in toolCalls {
        return Some(NotFound);
      }
      var call := toolCalls[toolCall];
      var proposal := call.proposal;
      if call.status == Executed {
        return None;
      }
      if sessionEnded {
        return Some(SessionEnded);
      }
      if call.status != Proposed {
        return Some(NotProposed);
      }
      if !IsDocumentItem(Rows(), proposal.item) {
        return Some(NotFound);
      }
      if proposal.base != artifacts[proposal.item].current {
        toolCalls := toolCalls[toolCall := call.(status := Superseded)];
        return Some(StaleBase);
      }
      var stale := GuardLifecyclePredecessors(proposal.basedOn);
      assert stale != map[] <==> AnyDiverged(Rows(), proposal.basedOn) by {
        if AnyDiverged(Rows(), proposal.basedOn) {
          var k :| k in proposal.basedOn && Diverged(Rows(), k, proposal.basedOn[k]);
          assert k in stale;
        }
        if stale != map[] {
          var k :| k in stale;
          assert k in proposal.basedOn && Diverged(Rows(), k, proposal.basedOn[k]);
        }
      }
      if stale != map[] {
        toolCalls := toolCalls[toolCall := call.(status := Superseded)];
        return Some(StalePredecessors);
      }
      if !ready {
        toolCalls := toolCalls[toolCall := call.(status := Superseded)];
        return Some(NotReady);
      }
      error := CreateItemVersion(proposal.item, proposal.title, proposal.basedOn, toolCall);
      if error.None? {
        toolCalls := toolCalls[toolCall := call.(status := Executed)];
      }
    }

    method RejectToolCall(toolCall: Tid, sessionEnded: bool) returns (error: Option<Error>)
      requires Sound(Rows())
      modifies this`toolCalls
      ensures Sound(Rows())
      ensures (Rows(), error) == Try(old(Rows()), registry, RejectCall(toolCall, sessionEnded))
    {
      StepKeepsSound(Rows(), registry, RejectCall(toolCall, sessionEnded));
      if toolCall !in toolCalls {
        return Some(NotFound);
      }
      if toolCalls[toolCall].status == CallRejected {
        return None;
      }
      if sessionEnded {
        return Some(SessionEnded);
      }
      if toolCalls[toolCall].status != Proposed {
        return Some(NotProposed);
      }
      toolCalls := toolCalls[toolCall := toolCalls[toolCall].(status := CallRejected)];
      return None;
    }

    // ----- lifecycle

    /** A snapshot for each kind: of the accepted artifact of it created first, or of none. */
    method RequiredPredecessors(kinds: seq<string>) returns (required: seq<StructuralPredecessor>)
      ensures required == StructuralPredecessors(Rows(), kinds)
      ensures forall i :: 0 <= i < |kinds| ==> Represents(Rows(), kinds[i], required[i])
    {
      required := [];
      for i := 0 to |kinds|
        invariant required == StructuralPredecessors(Rows(), kinds[..i])
      {
        assert kinds[..i + 1][..i] == kinds[..i];
        var snapshot := StructuralPredecessor(kinds[i], false, Draft, None);
        if HasAccepted(Rows(), kinds[i]) {
          HasFirst(Rows(), kinds[i]);
          var accepted :| accepted in artifacts && IsFirstAccepted(Rows(), kinds[i], accepted);
          snapshot := StructuralPredecessor(kinds[i], true, artifacts[accepted].status, VersionText(artifacts[accepted].current));
        }
        required := required + [snapshot];
      }
      assert kinds[..|kinds|] == kinds;
      SnapshotsRepresent(Rows(), kinds);
    }

    /** The report of one artifact, its structural ancestors walked breadth-first. */
    method LifecycleReport(predecessors: map<string, seq<string>>, id: Aid) returns (verdict: Verdict)
      requires id in artifacts
      ensures exists kinds :: Ancestors(predecessors, artifacts[id].kind, kinds) && verdict == Report(Rows(), kinds, id)
      ensures verdict.state == Current <==>
        && artifacts[id].status == Accepted && artifacts[id].current.Some?
        && (forall kind :: ReachesOver(Edges(predecessors), artifacts[id].kind, kind) ==> HasAccepted(Rows(), kind))
        && (forall k | k in LiveBasedOn(Rows(), id) :: Matches(Rows(), k, LiveBasedOn(Rows(), id)[k]))
    {
      var kinds := AncestorTypes(predecessors, artifacts[id].kind);
      assert Ancestors(predecessors, artifacts[id].kind, kinds);
      var required := RequiredPredecessors(kinds);
      var basedOn := LiveBasedOn(Rows(), id);
      verdict := ResolveLifecycle(
        Some(ArtifactSnapshot(artifacts[id].status, VersionText(artifacts[id].current), basedOn)),
        required, BasedOnPredecessors(Rows(), basedOn));
      assert verdict == Report(Rows(), kinds, id);
      CurrentMeaning(Rows(), Edges(predecessors), kinds, id);
    }
  }
}

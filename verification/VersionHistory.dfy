/** What every run of the store keeps: parent chains, current versions, one version per tool call. */
module VersionHistory {
  import opened Wrappers
  import opened LifecycleResolver
  import opened ArtifactStore

  /** A version's parent is the previous version of the same artifact; version 1 has none. */
  ghost predicate Linked(versions: map<Vid, Version>, version: Version) {
    && version.number >= 1
    && (version.parent.None? ==> version.number == 1)
    && (version.parent.Some? ==>
          && version.parent.value in versions
          && versions[version.parent.value].artifact == version.artifact
          && versions[version.parent.value].number == version.number - 1)
  }

  ghost predicate AllLinked(versions: map<Vid, Version>) {
    forall v {:trigger Linked(versions, versions[v])} | v in versions :: Linked(versions, versions[v])
  }

  predicate SameNumber(a: Version, b: Version) {
    a.artifact == b.artifact && a.number == b.number
  }

  ghost predicate NumbersUnique(versions: map<Vid, Version>) {
    forall v, w {:trigger SameNumber(versions[v], versions[w])} | v in versions && w in versions && v != w ::
      !SameNumber(versions[v], versions[w])
  }

  /** A current version is a version of that artifact. */
  ghost predicate Points(versions: map<Vid, Version>, id: Aid, current: Option<Vid>) {
    current.Some? ==> current.value in versions && versions[current.value].artifact == id
  }

  ghost predicate Pointers(artifacts: map<Aid, Artifact>, versions: map<Vid, Version>) {
    && (forall v | v in versions :: versions[v].artifact in artifacts)
    && (forall a {:trigger Points(versions, a, artifacts[a].current)} | a in artifacts ::
          Points(versions, a, artifacts[a].current))
  }

  /** Items hang under containers, and containers under nothing. */
  ghost predicate TwoLevels(artifacts: map<Aid, Artifact>) {
    forall a {:trigger UnderContainer(artifacts, artifacts[a].parent)} | a in artifacts ::
      UnderContainer(artifacts, artifacts[a].parent)
  }

  ghost predicate UnderContainer(artifacts: map<Aid, Artifact>, parent: Option<Aid>) {
    parent.Some? ==> parent.value in artifacts && artifacts[parent.value].parent.None?
  }

  /** A version with a tool call belongs to an executed call, and no two versions share one. */
  ghost predicate CallsSound(versions: map<Vid, Version>, toolCalls: map<Tid, ToolCall>) {
    && (forall v | v in versions && versions[v].toolCall.Some? ::
          versions[v].toolCall.value in toolCalls && toolCalls[versions[v].toolCall.value].status == Executed)
    && (forall v, w {:trigger SameCall(versions[v], versions[w])} | v in versions && w in versions && v != w ::
          !SameCall(versions[v], versions[w]))
  }

  predicate SameCall(a: Version, b: Version) {
    a.toolCall.Some? && a.toolCall == b.toolCall
  }

  ghost predicate IdsFresh(s: State) {
    && (forall v | v in s.versions :: v < s.nextVersion)
    && (forall a | a in s.artifacts :: a < s.nextArtifact)
    && (forall t | t in s.toolCalls :: t < s.nextToolCall)
  }

  ghost predicate Sound(s: State) {
    && AllLinked(s.versions) && NumbersUnique(s.versions) && TwoLevels(s.artifacts)
    && Pointers(s.artifacts, s.versions) && CallsSound(s.versions, s.toolCalls) && IdsFresh(s)
  }

  // ----- the parent chain

  /** A version and its ancestors by parent, at most `fuel` steps up. */
  function Chain(versions: map<Vid, Version>, v: Vid, fuel: nat): seq<Vid>
    requires v in versions
    decreases fuel
  {
    if fuel == 0 || versions[v].parent.None? || versions[v].parent.value !in versions then [v]
    else [v] + Chain(versions, versions[v].parent.value, fuel - 1)
  }

  /** Element `i` of a chain from a version is that many numbers below it, and below its predecessor. */
  ghost predicate Descends(versions: map<Vid, Version>, chain: seq<Vid>, top: Version) {
    && (forall i | 0 <= i < |chain| :: chain[i] in versions && versions[chain[i]].artifact == top.artifact
          && versions[chain[i]].number == top.number - i)
    && (forall i, j | 0 <= i < |chain| && j == i + 1 < |chain| :: versions[chain[i]].parent == Some(chain[j]))
  }

  /** The chain stays in the artifact of `v`, has exactly as many versions as the number of `v` says, one
      number at a time, and ends at a parentless version 1. */
  ghost predicate Complete(versions: map<Vid, Version>, v: Vid, chain: seq<Vid>)
    requires v in versions
  {
    && |chain| == versions[v].number && |chain| > 0 && chain[0] == v
    && Descends(versions, chain, versions[v])
    && versions[chain[|chain| - 1]].parent.None? && versions[chain[|chain| - 1]].number == 1
  }

  /** Following parents from a version gives its complete chain. */
  lemma {:induction false} ChainMeaning(versions: map<Vid, Version>, v: Vid, fuel: nat)
    requires AllLinked(versions) && v in versions && fuel >= versions[v].number
    ensures Complete(versions, v, Chain(versions, v, fuel))
    decreases fuel
  {
    assert Linked(versions, versions[v]);
    if versions[v].parent.Some? {
      var p := versions[v].parent.value;
      ChainMeaning(versions, p, fuel - 1);
      var rest := Chain(versions, p, fuel - 1);
      var chain := Chain(versions, v, fuel);
      assert chain == [v] + rest;
      forall i, j | 0 <= i < |chain| && j == i + 1 < |chain| ensures versions[chain[i]].parent == Some(chain[j]) {
        assert chain[j] == rest[i];
        assert i > 0 ==> chain[i] == rest[i - 1];
      }
    }
  }

  // ----- preservation, one building block at a time

  lemma {:induction false} AddedLinked(versions: map<Vid, Version>, v: Vid, version: Version)
    requires AllLinked(versions) && v !in versions && Linked(versions, version)
    ensures AllLinked(versions[v := version])
  {
    var more := versions[v := version];
    forall w | w in more ensures Linked(more, more[w]) {
      assert w != v ==> Linked(versions, versions[w]);
    }
  }

  lemma {:induction false} AddedUnique(versions: map<Vid, Version>, v: Vid, version: Version)
    requires NumbersUnique(versions) && v !in versions && !NumberTaken(versions, version.artifact, version.number)
    ensures NumbersUnique(versions[v := version])
  {
    forall w | w in versions ensures !SameNumber(version, versions[w]) && !SameNumber(versions[w], version) {}
  }

  lemma {:induction false} AddedPointers(artifacts: map<Aid, Artifact>, versions: map<Vid, Version>, v: Vid,
                                         version: Version)
    requires Pointers(artifacts, versions) && v !in versions && version.artifact in artifacts
    requires TwoLevels(artifacts)
    ensures var id := version.artifact; var repointed := artifacts[id := artifacts[id].(current := Some(v))];
      Pointers(repointed, versions[v := version]) && TwoLevels(repointed)
  {
    var repointed := artifacts[version.artifact := artifacts[version.artifact].(current := Some(v))];
    forall a | a in repointed ensures UnderContainer(repointed, repointed[a].parent) {
      assert UnderContainer(artifacts, artifacts[a].parent);
    }
    forall a | a in artifacts ensures Points(versions, a, artifacts[a].current) {}
  }

  lemma {:induction false} AddVersionKeepsSound(s: State, id: Aid, title: string, basedOn: map<RawId, RawId>,
                                                toolCall: Option<Tid>)
    requires Sound(s) && id in s.artifacts
    requires !NumberTaken(s.versions, id, NextNumber(s, id))
    requires toolCall.Some? ==>
      !CallHasVersion(s, toolCall.value) && toolCall.value in s.toolCalls && s.toolCalls[toolCall.value].status == Executed
    ensures Sound(AddVersion(s, id, title, basedOn, toolCall))
  {
    var version := Version(id, NextNumber(s, id), NextParent(s, id), VersionDraft, title, basedOn, toolCall);
    assert Points(s.versions, id, s.artifacts[id].current);
    assert s.nextVersion !in s.versions;
    assert Linked(s.versions, version) by {
      if IsCurrentVersion(s, id) {
        assert Linked(s.versions, s.versions[s.artifacts[id].current.value]);
      }
    }
    AddedLinked(s.versions, s.nextVersion, version);
    AddedUnique(s.versions, s.nextVersion, version);
    AddedPointers(s.artifacts, s.versions, s.nextVersion, version);
  }

  /** A change of one version's status touches nothing the invariant speaks of. */
  lemma {:induction false} RestatusKeepsSound(s: State, v: Vid, status: VersionStatus)
    requires Sound(s) && v in s.versions
    ensures Sound(s.(versions := s.versions[v := s.versions[v].(status := status)]))
  {
    var changed := s.versions[v := s.versions[v].(status := status)];
    forall w | w in changed ensures Linked(changed, changed[w]) {
      assert Linked(s.versions, s.versions[w]);
    }
    forall a | a in s.artifacts ensures Points(changed, a, s.artifacts[a].current) {
      assert Points(s.versions, a, s.artifacts[a].current);
    }
    forall w, x | w in changed && x in changed && w != x ensures !SameNumber(changed[w], changed[x]) {
      assert !SameNumber(s.versions[w], s.versions[x]);
    }
    forall w, x | w in changed && x in changed && w != x ensures !SameCall(changed[w], changed[x]) {
      assert !SameCall(s.versions[w], s.versions[x]);
    }
  }

  /** Rewriting one artifact, its current version staying one of its own. */
  lemma {:induction false} EditKeepsSound(s: State, id: Aid, artifact: Artifact)
    requires Sound(s) && id in s.artifacts && Points(s.versions, id, artifact.current)
    requires artifact.parent == s.artifacts[id].parent
    ensures Sound(s.(artifacts := s.artifacts[id := artifact]))
  {
    var edited := s.artifacts[id := artifact];
    forall a | a in edited ensures UnderContainer(edited, edited[a].parent) {
      assert UnderContainer(s.artifacts, s.artifacts[a].parent);
    }
    forall a | a in s.artifacts ensures Points(s.versions, a, s.artifacts[a].current) {}
  }

  lemma {:induction false} RecomputeKeepsSound(s: State, registry: Registry, id: Aid)
    requires Sound(s) && id in s.artifacts
    ensures Sound(RecomputeParent(s, registry, id))
  {
    var t := RecomputeParent(s, registry, id);
    if t != s {
      var parent := s.artifacts[id].parent.value;
      assert Points(s.versions, parent, s.artifacts[parent].current);
      EditKeepsSound(s, parent, t.artifacts[parent]);
    }
  }

  function WithArtifact(s: State, artifact: Artifact): State {
    s.(artifacts := s.artifacts[s.nextArtifact := artifact], nextArtifact := s.nextArtifact + 1)
  }

  /** A new artifact without a version. */
  lemma {:induction false} NewArtifactKeepsSound(s: State, artifact: Artifact)
    requires Sound(s) && artifact.current.None?
    requires artifact.parent.Some? ==>
      artifact.parent.value in s.artifacts && s.artifacts[artifact.parent.value].parent.None?
    ensures Sound(WithArtifact(s, artifact))
    ensures forall number :: !NumberTaken(s.versions, s.nextArtifact, number)
  {
    var more := WithArtifact(s, artifact).artifacts;
    forall a | a in more ensures UnderContainer(more, more[a].parent) {
      assert a != s.nextArtifact ==> UnderContainer(s.artifacts, s.artifacts[a].parent);
    }
    forall a | a in s.artifacts ensures Points(s.versions, a, s.artifacts[a].current) {}
    forall v | v in s.versions ensures s.versions[v].artifact < s.nextArtifact {}
  }

  // ----- preservation, operation by operation

  lemma {:induction false} CreateKeepsSound(s: State, registry: Registry, op: Op)
    requires Sound(s) && op.Create?
    ensures Sound(TryCreate(s, registry, op).0)
  {
    if TryCreate(s, registry, op).1.None? {
      var artifact := Artifact(op.kind, op.parent, op.status, None, op.title, op.basedOn);
      NewArtifactKeepsSound(s, artifact);
      AddVersionKeepsSound(WithArtifact(s, artifact), s.nextArtifact, op.title, op.basedOn, None);
    }
  }

  lemma {:induction false} UpdateKeepsSound(s: State, op: Op)
    requires Sound(s) && op.Update?
    ensures Sound(TryUpdate(s, op).0)
  {
    var r := TryUpdate(s, op);
    if r.1.None? {
      var artifact := s.artifacts[op.artifact];
      var title := op.newTitle.GetOr(s.versions[artifact.current.value].title);
      var basedOn := op.newBasedOn.GetOr(artifact.basedOn);
      var t := AddVersion(s, op.artifact, title, basedOn, None);
      AddVersionKeepsSound(s, op.artifact, title, basedOn, None);
      assert Points(t.versions, op.artifact, t.artifacts[op.artifact].current);
      EditKeepsSound(t, op.artifact, t.artifacts[op.artifact].(
        title := title, status := op.newStatus.GetOr(artifact.status), basedOn := basedOn));
    }
  }

  lemma {:induction false} RestoreKeepsSound(s: State, op: Op)
    requires Sound(s) && op.Restore?
    ensures Sound(TryRestore(s, op).0)
  {
    var r := TryRestore(s, op);
    if r.1.None? {
      EditKeepsSound(s, op.artifact, s.artifacts[op.artifact].(
        current := Some(op.version), title := s.versions[op.version].title));
    }
  }

  lemma {:induction false} ArchiveKeepsSound(s: State, op: Op)
    requires Sound(s) && op.Archive?
    ensures Sound(TryArchive(s, op).0)
  {
    var r := TryArchive(s, op);
    if r.1.None? {
      var artifact := s.artifacts[op.artifact].(status := Archived);
      assert Points(s.versions, op.artifact, artifact.current);
      EditKeepsSound(s, op.artifact, artifact);
      if IsCurrentVersion(s, op.artifact) {
        RestatusKeepsSound(s.(artifacts := s.artifacts[op.artifact := artifact]), artifact.current.value, VersionArchived);
      }
    }
  }

  lemma {:induction false} RestatusAndEditKeepsSound(s: State, v: Vid, status: VersionStatus, artifact: Artifact)
    requires Sound(s) && v in s.versions
    requires var id := s.versions[v].artifact;
      id in s.artifacts && artifact.parent == s.artifacts[id].parent
      && (artifact.current == s.artifacts[id].current || artifact.current == Some(v))
    ensures Sound(s.(versions := s.versions[v := s.versions[v].(status := status)],
                     artifacts := s.artifacts[s.versions[v].artifact := artifact]))
  {
    var id := s.versions[v].artifact;
    var restated := s.(versions := s.versions[v := s.versions[v].(status := status)]);
    RestatusKeepsSound(s, v, status);
    assert Points(restated.versions, id, restated.artifacts[id].current);
    EditKeepsSound(restated, id, artifact);
  }

  lemma {:induction false} ReviewKeepsSound(s: State, op: Op)
    requires Sound(s) && op.ReviewVersion?
    ensures Sound(TryReview(s, op).0)
  {
    if TryReview(s, op).1.None? {
      var t := ReviewEffects(s, op);
      assert s.artifacts[op.artifact := s.artifacts[op.artifact]] == s.artifacts;
      assert s.versions[op.version := s.versions[op.version]] == s.versions;
      RestatusAndEditKeepsSound(s, op.version, t.versions[op.version].status, t.artifacts[op.artifact]);
      assert t == s.(versions := s.versions[op.version := t.versions[op.version]],
                     artifacts := s.artifacts[op.artifact := t.artifacts[op.artifact]]);
    }
  }

  lemma {:induction false} UpsertKeepsSound(s: State, registry: Registry, op: Op)
    requires Sound(s) && op.Upsert?
    ensures Sound(TryUpsert(s, registry, op).0)
  {
    var r := TryUpsert(s, registry, op);
    if r.1.None? {
      var id := op.item.GetOr(s.nextArtifact);
      var t: State;
      if op.item.None? {
        var artifact := Artifact(op.kind, Some(op.container), op.status, None, op.title, op.basedOn);
        t := WithArtifact(s, artifact);
        NewArtifactKeepsSound(s, artifact);
      } else {
        var artifact := s.artifacts[id].(status := op.status, basedOn := op.basedOn,
          title := if op.title != "" then op.title else s.artifacts[id].title);
        t := s.(artifacts := s.artifacts[id := artifact]);
        assert Points(s.versions, id, artifact.current);
        EditKeepsSound(s, id, artifact);
      }
      if t.artifacts[id].current.None? && op.fromSystem {
        RecomputeKeepsSound(t, registry, id);
      } else {
        AddVersionKeepsSound(t, id, t.artifacts[id].title, op.basedOn, None);
        RecomputeKeepsSound(AddVersion(t, id, t.artifacts[id].title, op.basedOn, None), registry, id);
      }
    }
  }

  lemma {:induction false} SetCallKeepsSound(s: State, toolCall: Tid, status: ToolCallStatus)
    requires Sound(s) && toolCall in s.toolCalls
    requires s.toolCalls[toolCall].status != Executed || status == Executed
    ensures Sound(SetCall(s, toolCall, status))
  {
  }

  /** A call that is still proposed has left no version: its approval always adds one. */
  lemma {:induction false} ProposedCallHasNoVersion(s: State, toolCall: Tid)
    requires Sound(s) && toolCall in s.toolCalls && s.toolCalls[toolCall].status != Executed
    ensures !CallHasVersion(s, toolCall)
  {
  }

  /** The state an approval that passes both guards leaves behind. */
  function Persisted(s: State, registry: Registry, toolCall: Tid): State
    requires toolCall in s.toolCalls && s.toolCalls[toolCall].proposal.item in s.artifacts
  {
    var proposal := s.toolCalls[toolCall].proposal;
    var id := proposal.item;
    var name := if proposal.title != "" then proposal.title else s.artifacts[id].title;
    var t := AddVersion(s, id, name, proposal.basedOn, Some(toolCall));
    var accepted := t.(artifacts := t.artifacts[id := t.artifacts[id].(title := name, status := Accepted)]);
    SetCall(RecomputeParent(accepted, registry, id), toolCall, Executed)
  }

  /** Exactly when an approval persists, and what it persists. */
  lemma {:induction false} ApprovePersists(s: State, registry: Registry, op: Op)
    requires Sound(s) && op.Approve? && op.toolCall in s.toolCalls
    ensures var call := s.toolCalls[op.toolCall]; var id := call.proposal.item; var r := TryApprove(s, registry, op);
      var passes := call.status == Proposed && !op.sessionEnded && IsDocumentItem(s, id) && call.proposal.base == s.artifacts[id].current
        && !AnyDiverged(s, call.proposal.basedOn) && op.ready && !NumberTaken(s.versions, id, NextNumber(s, id));
      && (passes ==> r == (Persisted(s, registry, op.toolCall), None))
      && (!passes ==> r.0.versions == s.versions && r.0.artifacts == s.artifacts)
  {
    if s.toolCalls[op.toolCall].status == Proposed {
      ProposedCallHasNoVersion(s, op.toolCall);
    }
  }

  lemma {:induction false} ApproveKeepsSound(s: State, registry: Registry, op: Op)
    requires Sound(s) && op.Approve?
    ensures Sound(TryApprove(s, registry, op).0)
  {
    if op.toolCall in s.toolCalls && s.toolCalls[op.toolCall].status == Proposed {
      ApprovePersists(s, registry, op);
      ProposedCallHasNoVersion(s, op.toolCall);
      SetCallKeepsSound(s, op.toolCall, Superseded);
      if TryApprove(s, registry, op).1.None? {
        PersistedSound(s, registry, op.toolCall);
      }
    }
  }

  /** The artifact marked accepted under its new title. */
  function Accept(s: State, id: Aid, title: string): State
    requires id in s.artifacts
  {
    s.(artifacts := s.artifacts[id := s.artifacts[id].(title := title, status := Accepted)])
  }

  lemma {:induction false} AcceptedSound(s: State, registry: Registry, id: Aid, title: string)
    requires Sound(s) && id in s.artifacts
    ensures Sound(RecomputeParent(Accept(s, id, title), registry, id))
  {
    assert Points(s.versions, id, s.artifacts[id].current);
    EditKeepsSound(s, id, s.artifacts[id].(title := title, status := Accepted));
    RecomputeKeepsSound(Accept(s, id, title), registry, id);
  }

  lemma {:induction false} PersistedSound(s: State, registry: Registry, toolCall: Tid)
    requires Sound(s) && toolCall in s.toolCalls && !CallHasVersion(s, toolCall)
    requires var id := s.toolCalls[toolCall].proposal.item;
      id in s.artifacts && !NumberTaken(s.versions, id, NextNumber(s, id))
    ensures Sound(Persisted(s, registry, toolCall))
  {
    var proposal := s.toolCalls[toolCall].proposal;
    var id, u := proposal.item, SetCall(s, toolCall, Executed);
    var name := if proposal.title != "" then proposal.title else s.artifacts[id].title;
    SetCallKeepsSound(s, toolCall, Executed);
    AddVersionKeepsSound(u, id, name, proposal.basedOn, Some(toolCall));
    var t := AddVersion(u, id, name, proposal.basedOn, Some(toolCall));
    AcceptedSound(t, registry, id, name);
    assert Persisted(s, registry, toolCall) == RecomputeParent(Accept(t, id, name), registry, id);
  }

  lemma {:induction false} StepKeepsSound(s: State, registry: Registry, op: Op)
    requires Sound(s)
    ensures Sound(Try(s, registry, op).0)
  {
    match op {
      case Create(_, _, _, _, _, _) => CreateKeepsSound(s, registry, op);
      case Update(_, _, _, _, _) => UpdateKeepsSound(s, op);
      case Restore(_, _, _) => RestoreKeepsSound(s, op);
      case Archive(_, _, _) => ArchiveKeepsSound(s, op);
      case ReviewVersion(_, _, _, _) => ReviewKeepsSound(s, op);
      case Upsert(_, _, _, _, _, _, _) => UpsertKeepsSound(s, registry, op);
      case Approve(_, _, _) => ApproveKeepsSound(s, registry, op);
      case Propose(_) =>
      case RejectCall(toolCall, sessionEnded) =>
        if toolCall in s.toolCalls && !sessionEnded && s.toolCalls[toolCall].status == Proposed {
          SetCallKeepsSound(s, toolCall, CallRejected);
        }
    }
  }

  /** Main result: every run keeps the history sound. */
  lemma {:induction false} RunKeepsSound(s: State, registry: Registry, ops: seq<Op>)
    requires Sound(s)
    ensures Sound(Run(s, registry, ops))
    decreases |ops|
  {
    if ops != [] {
      StepKeepsSound(s, registry, ops[0]);
      RunKeepsSound(Try(s, registry, ops[0]).0, registry, ops[1..]);
    }
  }

  /** Creating a version again for a call that has one, whatever item and title are asked for now, finds it:
      the versions stay as they are and the found one is current and accepted in its own artifact. */
  lemma {:induction false} ReplayFindsVersion(s: State, registry: Registry, toolCall: Tid, id: Aid, title: string,
                                              basedOn: map<RawId, RawId>, v: Vid)
    requires TwoLevels(s.artifacts) && OnlyVersionOf(s.versions, toolCall, v)
    requires IsDocumentItem(s, s.versions[v].artifact)
    ensures var r := TryCreateItemVersion(s, registry, id, title, basedOn, toolCall);
      && r.1.None? && r.0.versions == s.versions && r.0.artifacts.Keys == s.artifacts.Keys
      && r.0.artifacts[s.versions[v].artifact].current == Some(v)
      && r.0.artifacts[s.versions[v].artifact].status == Accepted
  {
    assert CallHasVersion(s, toolCall);
    assert UnderContainer(s.artifacts, s.artifacts[s.versions[v].artifact].parent);
  }

  ghost predicate OnlyVersionOf(versions: map<Vid, Version>, toolCall: Tid, v: Vid) {
    v in versions && forall w | w in versions :: versions[w].toolCall == Some(toolCall) <==> w == v
  }

  /** What a created or found version leaves: it is the only one of its call, in a document item. */
  lemma {:induction false} CreatedIsOnly(s: State, registry: Registry, toolCall: Tid, id: Aid, title: string,
                                         basedOn: map<RawId, RawId>) returns (v: Vid)
    requires Sound(s) && TryCreateItemVersion(s, registry, id, title, basedOn, toolCall).1.None?
    ensures var t := TryCreateItemVersion(s, registry, id, title, basedOn, toolCall).0;
      OnlyVersionOf(t.versions, toolCall, v) && IsDocumentItem(t, t.versions[v].artifact) && TwoLevels(t.artifacts)
  {
    var t := TryCreateItemVersion(s, registry, id, title, basedOn, toolCall).0;
    if CallHasVersion(s, toolCall) {
      v :| v in s.versions && s.versions[v].toolCall == Some(toolCall);
      forall w | w in s.versions && s.versions[w].toolCall == Some(toolCall) ensures w == v {
        assert SameCall(s.versions[w], s.versions[v]);
      }
    } else {
      v := s.nextVersion;
      assert v !in s.versions && t.versions[v].artifact == id;
    }
    ParentsKept(s, t);
  }

  lemma {:induction false} ParentsKept(s: State, t: State)
    requires TwoLevels(s.artifacts) && t.artifacts.Keys == s.artifacts.Keys
    requires forall a | a in s.artifacts :: t.artifacts[a].parent == s.artifacts[a].parent
    ensures TwoLevels(t.artifacts)
  {
    forall a | a in t.artifacts ensures UnderContainer(t.artifacts, t.artifacts[a].parent) {
      assert UnderContainer(s.artifacts, s.artifacts[a].parent);
    }
  }

  /** Hence creating it twice for one call, whatever the second asks for, adds at most one version. */
  lemma {:induction false} CreatingTwiceAddsOnce(s: State, registry: Registry, toolCall: Tid, id: Aid, title: string,
                                                 basedOn: map<RawId, RawId>, id': Aid, title': string,
                                                 basedOn': map<RawId, RawId>)
    requires Sound(s) && TryCreateItemVersion(s, registry, id, title, basedOn, toolCall).1.None?
    ensures var once := TryCreateItemVersion(s, registry, id, title, basedOn, toolCall).0;
      var twice := TryCreateItemVersion(once, registry, id', title', basedOn', toolCall);
      twice.1.None? && twice.0.versions == once.versions
  {
    var once := TryCreateItemVersion(s, registry, id, title, basedOn, toolCall).0;
    var v := CreatedIsOnly(s, registry, toolCall, id, title, basedOn);
    ReplayFindsVersion(once, registry, toolCall, id', title', basedOn', v);
  }

  /** Approving a call again, however often and whatever the guards would say now, adds no version. */
  lemma {:induction false} ReplayAddsNothing(s: State, registry: Registry, op: Op, again: Op)
    requires Sound(s) && op.Approve? && again.Approve? && again.toolCall == op.toolCall
    requires TryApprove(s, registry, op).1.None?
    ensures var t := TryApprove(s, registry, op).0;
      TryApprove(t, registry, again) == (t, None)
  {
    if s.toolCalls[op.toolCall].status == Proposed {
      ProposedCallHasNoVersion(s, op.toolCall);
    }
  }

  lemma {:induction false} EmptySound()
    ensures Sound(EMPTY)
  {
  }

  /** From the empty store, after any run: every version's parent chain is complete, current versions
      belong to their artifacts, and a tool call has left at most one version. */
  lemma {:induction false} EveryRun(registry: Registry, ops: seq<Op>)
    ensures var s := Run(EMPTY, registry, ops);
      && (forall v | v in s.versions :: Complete(s.versions, v, Chain(s.versions, v, s.versions[v].number)))
      && (forall a | a in s.artifacts :: Points(s.versions, a, s.artifacts[a].current))
      && (forall v, w | v in s.versions && w in s.versions && SameCall(s.versions[v], s.versions[w]) :: v == w)
  {
    var s := Run(EMPTY, registry, ops);
    EmptySound();
    RunKeepsSound(EMPTY, registry, ops);
    forall v | v in s.versions ensures Complete(s.versions, v, Chain(s.versions, v, s.versions[v].number)) {
      ChainMeaning(s.versions, v, s.versions[v].number);
    }
  }
}

/** Lifecycle reports over the store, and how archiving and approving bear on them
    (app/services/artifact_service.py, app/services/agent_service.py). */
module Lifecycle {
  import opened Wrappers
  import opened Graphs
  import opened LifecycleResolver
  import opened ArtifactStore
  import opened VersionHistory

  // ----- snapshots taken from the store

  predicate IsAccepted(s: State, kind: string, a: Aid) {
    a in s.artifacts && s.artifacts[a].kind == kind && s.artifacts[a].status == Accepted && s.artifacts[a].current.Some?
  }

  predicate HasAccepted(s: State, kind: string) {
    exists a | a in s.artifacts :: IsAccepted(s, kind, a)
  }

  /** A kind is accepted when some artifact of exactly this kind is, at some version. */
  lemma {:induction false} HasAcceptedMeaning(s: State, kind: string)
    ensures HasAccepted(s, kind) <==>
      exists a | a in s.artifacts ::
        s.artifacts[a].kind == kind && s.artifacts[a].status == Accepted && s.artifacts[a].current != None
  {
    if HasAccepted(s, kind) {
      var a :| a in s.artifacts && IsAccepted(s, kind, a);
      assert s.artifacts[a].kind == kind;
    }
    if a :| a in s.artifacts && s.artifacts[a].kind == kind && s.artifacts[a].status == Accepted && s.artifacts[a].current != None {
      assert IsAccepted(s, kind, a);
    }
  }

  /** The accepted artifact of the kind created first; ids are taken in order of creation. */
  predicate IsFirstAccepted(s: State, kind: string, a: Aid) {
    IsAccepted(s, kind, a) && forall b | b in s.artifacts && IsAccepted(s, kind, b) :: a <= b
  }

  lemma {:induction false} FirstAcceptedExists(s: State, kind: string, a: Aid) returns (first: Aid)
    requires IsAccepted(s, kind, a)
    ensures IsFirstAccepted(s, kind, first)
    decreases a
  {
    first := a;
    if b :| b in s.artifacts && IsAccepted(s, kind, b) && b < a {
      first := FirstAcceptedExists(s, kind, b);
    }
  }

  lemma {:induction false} HasFirst(s: State, kind: string)
    requires HasAccepted(s, kind)
    ensures exists a | a in s.artifacts :: IsFirstAccepted(s, kind, a)
  {
    var a :| a in s.artifacts && IsAccepted(s, kind, a);
    var first := FirstAcceptedExists(s, kind, a);
  }

  function StructuralSnapshot(s: State, kind: string): StructuralPredecessor {
    if HasAccepted(s, kind) then
      HasFirst(s, kind);
      var a :| a in s.artifacts && IsFirstAccepted(s, kind, a);
      StructuralPredecessor(kind, true, s.artifacts[a].status, VersionText(s.artifacts[a].current))
    else StructuralPredecessor(kind, false, Draft, None)
  }

  /** One snapshot for each ancestor kind: of the accepted artifact created first, or of none. */
  function StructuralPredecessors(s: State, ancestors: seq<string>): (r: seq<StructuralPredecessor>)
    ensures |r| == |ancestors|
    ensures forall i :: 0 <= i < |r| ==> r[i].kind == ancestors[i] && (Satisfied(r[i]) <==> HasAccepted(s, ancestors[i]))
  {
    if ancestors == [] then []
    else
      StructuralPredecessors(s, ancestors[..|ancestors| - 1]) + [StructuralSnapshot(s, ancestors[|ancestors| - 1])]
  }

  function VersionText(current: Option<Vid>): Option<RawId> {
    if current.Some? then Some(Canonical(current.value)) else None
  }

  function BasedOnSnapshot(s: State, key: RawId): BasedOnPredecessor {
    if Parse(key).None? || Parse(key).value !in s.artifacts then BasedOnPredecessor(false, false, Draft, None)
    else
      var artifact := s.artifacts[Parse(key).value];
      BasedOnPredecessor(true, artifact.status == Archived, artifact.status, VersionText(artifact.current))
  }

  function BasedOnPredecessors(s: State, basedOn: map<RawId, RawId>): map<RawId, BasedOnPredecessor> {
    map k | k in basedOn :: BasedOnSnapshot(s, k)
  }

  /** The report for artifact `id`; `ancestors` are the ancestor kinds of its kind. */
  ghost function Report(s: State, ancestors: seq<string>, id: Aid): Verdict
    requires id in s.artifacts
  {
    var artifact := s.artifacts[id];
    var basedOn := LiveBasedOn(s, id);
    ResolveLifecycle(Some(ArtifactSnapshot(artifact.status, VersionText(artifact.current), basedOn)),
                     StructuralPredecessors(s, ancestors), BasedOnPredecessors(s, basedOn))
  }

  // ----- what the report means

  /** A `based_on` entry that names a live artifact at its current version. */
  predicate Matches(s: State, key: RawId, version: RawId) {
    && Parse(key).Some? && Parse(key).value in s.artifacts
    && s.artifacts[Parse(key).value].status != Archived
    && s.artifacts[Parse(key).value].current.Some?
    && version == Canonical(s.artifacts[Parse(key).value].current.value)
  }

  /** The named artifact is there, live and versioned, at whatever version. */
  predicate Available(s: State, key: RawId) {
    && Parse(key).Some? && Parse(key).value in s.artifacts
    && s.artifacts[Parse(key).value].status != Archived
    && s.artifacts[Parse(key).value].current.Some?
  }

  lemma {:induction false} BlockersMeaning(s: State, ancestors: seq<string>)
    ensures Blocking(StructuralPredecessors(s, ancestors)) == [] <==>
      forall kind | kind in ancestors :: HasAccepted(s, kind)
  {
    var required := StructuralPredecessors(s, ancestors);
    BlockingMeaning(required);
    if forall p :: p in required ==> Satisfied(p) {
      forall kind | kind in ancestors ensures HasAccepted(s, kind) {
        var i :| 0 <= i < |ancestors| && ancestors[i] == kind;
        assert required[i] in required;
      }
    }
    if forall kind | kind in ancestors :: HasAccepted(s, kind) {
      forall p | p in required ensures Satisfied(p) {
        var i :| 0 <= i < |required| && required[i] == p;
        assert ancestors[i] in ancestors;
      }
    }
  }

  lemma {:induction false} BasedOnMeaning(s: State, basedOn: map<RawId, RawId>)
    ensures Orphaned(basedOn, BasedOnPredecessors(s, basedOn)) <==> exists k | k in basedOn :: !Available(s, k)
    ensures !Orphaned(basedOn, BasedOnPredecessors(s, basedOn)) ==>
      (Outdated(basedOn, BasedOnPredecessors(s, basedOn)) <==> exists k | k in basedOn :: !Matches(s, k, basedOn[k]))
  {
    var predecessors := BasedOnPredecessors(s, basedOn);
    forall k | k in basedOn ensures Unavailable(k, predecessors) <==> !Available(s, k) {}
    if !Orphaned(basedOn, predecessors) {
      forall k | k in basedOn ensures predecessors[k].version != Some(basedOn[k]) <==> !Matches(s, k, basedOn[k]) {
        assert !Unavailable(k, predecessors);
      }
    }
  }

  /** The kinds of `kinds` without an accepted artifact, in order. */
  function Lacking(s: State, kinds: seq<string>): seq<string> {
    if kinds == [] then []
    else
      var last := kinds[|kinds| - 1];
      Lacking(s, kinds[..|kinds| - 1]) + if HasAccepted(s, last) then [] else [last]
  }

  lemma {:induction false} BlockersAreLacking(s: State, ancestors: seq<string>)
    ensures Blocking(StructuralPredecessors(s, ancestors)) == Lacking(s, ancestors)
  {
    if ancestors != [] {
      var n := |ancestors| - 1;
      var required := StructuralPredecessors(s, ancestors);
      BlockersAreLacking(s, ancestors[..n]);
      assert required[..n] == StructuralPredecessors(s, ancestors[..n]);
    }
  }

  /** The whole verdict, in the order its reasons are tried: without a version, what lacks decides between blocked
      and missing; without acceptance it is in progress; then a predecessor that is gone, one that moved on, and
      a kind that lacks. The verdict names what lacks exactly when it says blocked. */
  lemma {:induction false} VerdictMeaning(s: State, ancestors: seq<string>, id: Aid)
    requires id in s.artifacts
    ensures var artifact := s.artifacts[id]; var lacking := Lacking(s, ancestors); var basedOn := LiveBasedOn(s, id);
      Report(s, ancestors, id) ==
        if artifact.current.None? && lacking == [] then Verdict(Missing, [])
        else if artifact.current.None? then Verdict(Blocked, lacking)
        else if artifact.status != Accepted then Verdict(InProgress, [])
        else if exists k | k in basedOn :: !Available(s, k) then Verdict(Orphan, [])
        else if exists k | k in basedOn :: !Matches(s, k, basedOn[k]) then Verdict(Stale, [])
        else if lacking != [] then Verdict(Blocked, lacking)
        else Verdict(Current, [])
  {
    BlockersAreLacking(s, ancestors);
    BasedOnMeaning(s, LiveBasedOn(s, id));
  }

  /** The entries a report looks at: those of the current version that are not blank on either side. */
  lemma {:induction false} LiveEntries(s: State, id: Aid, k: RawId)
    requires id in s.artifacts
    ensures k in LiveBasedOn(s, id) <==>
      && s.artifacts[id].current.Some? && s.artifacts[id].current.value in s.versions
      && var basedOn := s.versions[s.artifacts[id].current.value].basedOn;
         k in basedOn && k != Malformed("") && basedOn[k] != Malformed("")
    ensures k in LiveBasedOn(s, id) ==>
      LiveBasedOn(s, id)[k] == s.versions[s.artifacts[id].current.value].basedOn[k]
  {
  }

  /** Which state an accepted artifact is reported in. */
  lemma {:induction false} AcceptedReport(s: State, ancestors: seq<string>, id: Aid)
    requires id in s.artifacts && s.artifacts[id].status == Accepted && s.artifacts[id].current.Some?
    ensures var basedOn := LiveBasedOn(s, id); var state := Report(s, ancestors, id).state;
      && (state == Orphan <==> exists k | k in basedOn :: !Available(s, k))
      && (state == Stale <==> (forall k | k in basedOn :: Available(s, k)) && exists k | k in basedOn :: !Matches(s, k, basedOn[k]))
      && (state == Blocked <==> (forall k | k in basedOn :: Matches(s, k, basedOn[k])) && exists kind | kind in ancestors :: !HasAccepted(s, kind))
      && (state == Current <==> (forall k | k in basedOn :: Matches(s, k, basedOn[k])) && forall kind | kind in ancestors :: HasAccepted(s, kind))
  {
    BlockersMeaning(s, ancestors);
    BasedOnMeaning(s, LiveBasedOn(s, id));
  }

  /** An artifact is current exactly when it is accepted at a version, every structural ancestor kind has
      an accepted version, and every `based_on` entry names a live artifact at its current version. */
  lemma {:induction false} CurrentMeaning(s: State, edges: set<(string, string)>, ancestors: seq<string>, id: Aid)
    requires id in s.artifacts
    requires forall kind :: kind in ancestors <==> ReachesOver(edges, s.artifacts[id].kind, kind)
    ensures Report(s, ancestors, id).state == Current <==>
      && s.artifacts[id].status == Accepted && s.artifacts[id].current.Some?
      && (forall kind :: ReachesOver(edges, s.artifacts[id].kind, kind) ==> HasAccepted(s, kind))
      && (forall k | k in LiveBasedOn(s, id) :: Matches(s, k, LiveBasedOn(s, id)[k]))
  {
    if s.artifacts[id].status == Accepted && s.artifacts[id].current.Some? {
      AcceptedReport(s, ancestors, id);
    }
  }

  // ----- archiving

  /** `based_on` of `b` names `a` in a spelling other than its own. */
  predicate NamesInVariant(s: State, b: Aid, a: Aid) {
    exists k | k in LiveBasedOn(s, b) :: k.Variant? && k.id == a
  }

  lemma {:induction false} ArchiveFrame(s: State, op: Op, b: Aid)
    requires op.Archive? && TryArchive(s, op).1.None? && b in s.artifacts && b != op.artifact
    requires Sound(s)
    ensures var t := TryArchive(s, op).0;
      && t.artifacts.Keys == s.artifacts.Keys && t.artifacts[b] == s.artifacts[b]
      && LiveBasedOn(t, b) == LiveBasedOn(s, b)
  {
    var t := TryArchive(s, op).0;
    assert Points(s.versions, b, s.artifacts[b].current);
    assert t.versions.Keys == s.versions.Keys;
    if IsCurrentVersion(s, b) {
      var v := s.artifacts[b].current.value;
      assert t.versions[v].basedOn == s.versions[v].basedOn;
    }
  }

  lemma {:induction false} ArchiveEffects(s: State, op: Op, b: Aid, k: RawId, version: RawId)
    requires op.Archive? && TryArchive(s, op).1.None?
    ensures var t := TryArchive(s, op).0; var a := op.artifact;
      && (Available(t, k) <==> Available(s, k) && Parse(k) != Some(a))
      && (Matches(t, k, version) <==> Matches(s, k, version) && Parse(k) != Some(a))
  {
  }

  lemma {:induction false} ArchiveKeepsNoAcceptance(s: State, op: Op, kind: string)
    requires op.Archive? && TryArchive(s, op).1.None? && HasAccepted(TryArchive(s, op).0, kind)
    ensures HasAccepted(s, kind)
  {
    var t := TryArchive(s, op).0;
    var a :| a in t.artifacts && IsAccepted(t, kind, a);
    assert a != op.artifact && s.artifacts[a] == t.artifacts[a];
  }

  /** Whoever a successful archive leaves live names the archived artifact in a variant spelling, if at all. */
  lemma {:induction false} ArchivedNamedOnlyInVariant(s: State, op: Op, b: Aid)
    requires op.Archive? && TryArchive(s, op).1.None?
    requires b in s.artifacts && b != op.artifact && s.artifacts[b].status != Archived
    ensures NamesInVariant(s, b, op.artifact) <==> exists k | k in LiveBasedOn(s, b) :: Parse(k) == Some(op.artifact)
  {
    assert b !in DownstreamUsers(s, op.artifact);
    forall k | k in LiveBasedOn(s, b) && Parse(k) == Some(op.artifact) ensures k.Variant? {
      assert k != Canonical(op.artifact);
    }
  }

  /** Right after an archive nothing live links to the archived artifact, hangs under it, or names it. */
  lemma {:induction false} ArchivedHasNoLiveUsers(s: State, op: Op, b: Aid)
    requires Sound(s) && op.Archive? && TryArchive(s, op).1.None?
    requires var t := TryArchive(s, op).0; b in t.artifacts && t.artifacts[b].status != Archived
    ensures var t := TryArchive(s, op).0; var a := op.artifact;
      && t.artifacts[a].status == Archived && t.artifacts[a].current == s.artifacts[a].current
      && (b, a) !in t.links && t.artifacts[b].parent != Some(a) && Canonical(a) !in LiveBasedOn(t, b)
  {
    assert b != op.artifact;
    ArchiveFrame(s, op, b);
    assert b !in DownstreamUsers(s, op.artifact);
  }

  /** After a successful archive, another live artifact's report is what it was, except that missing or
      current may turn into blocked; it turns orphan exactly when it names the archived artifact in a
      spelling the dependency check does not compare. */
  lemma {:induction false} ArchiveKeepsReports(s: State, ancestors: seq<string>, op: Op, b: Aid)
    requires Sound(s) && op.Archive? && TryArchive(s, op).1.None?
    requires b in s.artifacts && b != op.artifact && s.artifacts[b].status != Archived
    ensures var before := Report(s, ancestors, b).state; var after := Report(TryArchive(s, op).0, ancestors, b).state;
      var slips := s.artifacts[b].status == Accepted && s.artifacts[b].current.Some? && NamesInVariant(s, b, op.artifact);
      && (after == Orphan <==> before == Orphan || slips)
      && (!slips ==> after == before || (after == Blocked && (before == Missing || before == Current)))
  {
    var t := TryArchive(s, op).0;
    ArchiveFrame(s, op, b);
    BlockersMeaning(s, ancestors);
    BlockersMeaning(t, ancestors);
    forall kind | HasAccepted(t, kind) ensures HasAccepted(s, kind) {
      ArchiveKeepsNoAcceptance(s, op, kind);
    }
    if s.artifacts[b].status == Accepted && s.artifacts[b].current.Some? {
      ArchivedAcceptedReport(s, ancestors, op, b);
    }
  }

  lemma {:induction false} ArchivedAcceptedReport(s: State, ancestors: seq<string>, op: Op, b: Aid)
    requires Sound(s) && op.Archive? && TryArchive(s, op).1.None?
    requires b in s.artifacts && b != op.artifact
    requires s.artifacts[b].status == Accepted && s.artifacts[b].current.Some?
    requires forall kind :: HasAccepted(TryArchive(s, op).0, kind) ==> HasAccepted(s, kind)
    ensures var before := Report(s, ancestors, b).state; var after := Report(TryArchive(s, op).0, ancestors, b).state;
      && (after == Orphan <==> before == Orphan || NamesInVariant(s, b, op.artifact))
      && (!NamesInVariant(s, b, op.artifact) ==> after == before || (after == Blocked && before == Current))
  {
    var t := TryArchive(s, op).0;
    var basedOn := LiveBasedOn(s, b);
    ArchiveFrame(s, op, b);
    ArchivedNamedOnlyInVariant(s, op, b);
    forall k | k in basedOn
      ensures Available(t, k) <==> Available(s, k) && Parse(k) != Some(op.artifact)
      ensures Matches(t, k, basedOn[k]) <==> Matches(s, k, basedOn[k]) && Parse(k) != Some(op.artifact)
    {
      ArchiveEffects(s, op, b, k, basedOn[k]);
    }
    AcceptedReport(s, ancestors, b);
    AcceptedReport(t, ancestors, b);
  }

  /** Two artifacts, the second based on the first in a spelling that is not its own. */
  function Misspelled(): (s: State)
    ensures Sound(s)
  {
    State(map[0 := Artifact("brd", None, Accepted, Some(10), "a", map[]),
              1 := Artifact("prd", None, Accepted, Some(11), "b", map[])],
          map[10 := Version(0, 1, None, VersionDraft, "a", map[], None),
              11 := Version(1, 1, None, VersionDraft, "b", map[Variant(0, "upper case") := Canonical(10)], None)],
          map[], {}, 2, 12, 0, [])
  }

  lemma {:induction false} MisspelledUnused()
    ensures var s, key := Misspelled(), Variant(0, "upper case");
      && DownstreamUsers(s, 0) == {} && key in LiveBasedOn(s, 1)
      && forall k | k in LiveBasedOn(s, 1) :: Matches(s, k, LiveBasedOn(s, 1)[k])
  {
    var s, key := Misspelled(), Variant(0, "upper case");
    assert LiveBasedOn(s, 0) == map[] && LiveBasedOn(s, 1) == map[key := Canonical(10)];
  }

  /** Such a spelling does slip through: an archive succeeds and leaves an orphan. */
  lemma {:induction false} VariantSpellingSlipsThrough() returns (s: State, op: Op, b: Aid)
    ensures Sound(s) && op.Archive? && TryArchive(s, op).1.None? && b in s.artifacts && b != op.artifact
    ensures Report(s, [], b).state == Current && Report(TryArchive(s, op).0, [], b).state == Orphan
  {
    s, op, b := Misspelled(), Archive(true, 0, None), 1;
    MisspelledUnused();
    assert NamesInVariant(s, 1, 0);
    AcceptedReport(s, [], 1);
    ArchiveKeepsReports(s, [], op, 1);
  }

  // ----- editing

  predicate IsEdit(op: Op) {
    op.Update? || op.Restore?
  }

  ghost predicate StatusKept(s: State, t: State) {
    && s.artifacts.Keys == t.artifacts.Keys
    && forall a | a in s.artifacts :: ArtifactKept(s.artifacts[a], t.artifacts[a])
  }

  predicate ArtifactKept(before: Artifact, after: Artifact) {
    && (before.status == Archived <==> after.status == Archived)
    && (before.status == Archived ==> after == before)
    && (before.status == Accepted ==> after.status == Accepted)
    && after.kind == before.kind && after.parent == before.parent
  }

  lemma {:induction false} EditKeepsStatus(s: State, registry: Registry, op: Op)
    requires IsEdit(op)
    ensures StatusKept(s, Try(s, registry, op).0)
  {
  }

  /** Over any run of edits and restores alone, archived artifacts do not change at all, accepted ones stay
      accepted, and no artifact becomes archived. */
  lemma {:induction false} EditsKeepStatus(s: State, registry: Registry, ops: seq<Op>)
    requires forall i :: 0 <= i < |ops| ==> IsEdit(ops[i])
    ensures StatusKept(s, Run(s, registry, ops))
    decreases |ops|
  {
    if ops != [] {
      var next := Try(s, registry, ops[0]).0;
      EditKeepsStatus(s, registry, ops[0]);
      EditsKeepStatus(next, registry, ops[1..]);
      forall a | a in s.artifacts ensures ArtifactKept(s.artifacts[a], Run(s, registry, ops).artifacts[a]) {
        assert ArtifactKept(s.artifacts[a], next.artifacts[a]);
      }
    }
  }

  // ----- approving

  /** `based_on` names the item itself, in whatever spelling. */
  predicate NamesItself(basedOn: map<RawId, RawId>, id: Aid) {
    exists k | k in basedOn :: Parse(k) == Some(id)
  }

  lemma {:induction false} RecomputeFrame(s: State, registry: Registry, id: Aid)
    requires id in s.artifacts
    ensures var t := RecomputeParent(s, registry, id);
      && t.versions == s.versions && t.artifacts.Keys == s.artifacts.Keys
      && (forall a | a in s.artifacts :: t.artifacts[a].current == s.artifacts[a].current
            && (t.artifacts[a].status != s.artifacts[a].status ==>
                  s.artifacts[id].parent == Some(a) && t.artifacts[a].status != Archived))
  {
  }

  /** What an approval that passes both guards does to the store. */
  lemma {:induction false} ApprovalEffects(s: State, registry: Registry, op: Op)
    requires Sound(s) && op.Approve? && op.toolCall in s.toolCalls
    requires s.toolCalls[op.toolCall].status == Proposed && TryApprove(s, registry, op).1.None?
    ensures var t := TryApprove(s, registry, op).0; var proposal := s.toolCalls[op.toolCall].proposal; var id := proposal.item;
      && id in s.artifacts && t.artifacts.Keys == s.artifacts.Keys
      && t.artifacts[id].status == Accepted && t.artifacts[id].current == Some(s.nextVersion)
      && s.nextVersion in t.versions && t.versions[s.nextVersion].basedOn == proposal.basedOn
      && t.versions[s.nextVersion].parent == proposal.base
      && (forall a | a in s.artifacts && a != id :: t.artifacts[a].current == s.artifacts[a].current
            && (s.artifacts[a].status != Archived ==> t.artifacts[a].status != Archived))
      && !AnyDiverged(s, proposal.basedOn)
  {
    var proposal := s.toolCalls[op.toolCall].proposal;
    var id := proposal.item;
    ApprovePersists(s, registry, op);
    var name := if proposal.title != "" then proposal.title else s.artifacts[id].title;
    var added := AddVersion(s, id, name, proposal.basedOn, Some(op.toolCall));
    var accepted := added.(artifacts := added.artifacts[id := added.artifacts[id].(title := name, status := Accepted)]);
    RecomputeFrame(accepted, registry, id);
    assert Points(s.versions, id, s.artifacts[id].current);
    assert UnderContainer(s.artifacts, s.artifacts[id].parent);
    assert accepted.artifacts[id].parent == s.artifacts[id].parent != Some(id);
  }

  /** An approval never persists an outdated artifact: with both guards passed, the item is reported
      current, or blocked by its structure alone, exactly when its proposal is not based on the item itself. */
  lemma {:induction false} ApprovalIsUpToDate(s: State, registry: Registry, ancestors: seq<string>, op: Op)
    requires Sound(s) && op.Approve? && op.toolCall in s.toolCalls
    requires s.toolCalls[op.toolCall].status == Proposed && TryApprove(s, registry, op).1.None?
    ensures var t := TryApprove(s, registry, op).0; var proposal := s.toolCalls[op.toolCall].proposal; var id := proposal.item;
      && id in t.artifacts && t.artifacts[id].current == Some(s.nextVersion)
      && t.versions[s.nextVersion].parent == proposal.base && LiveBasedOn(t, id) == proposal.basedOn
      && (NamesItself(proposal.basedOn, id) ==> Report(t, ancestors, id).state == Stale)
      && (!NamesItself(proposal.basedOn, id) ==>
            Report(t, ancestors, id).state ==
              if forall kind | kind in ancestors :: HasAccepted(t, kind) then Current else Blocked)
  {
    var t := TryApprove(s, registry, op).0;
    var id, basedOn := s.toolCalls[op.toolCall].proposal.item, s.toolCalls[op.toolCall].proposal.basedOn;
    ApprovalEffects(s, registry, op);
    forall k | k in basedOn
      ensures k != Malformed("") && basedOn[k] != Malformed("")
      ensures Available(t, k) && (Matches(t, k, basedOn[k]) <==> Parse(k) != Some(id))
    {
      assert !Diverged(s, k, basedOn[k]);
      var a := Parse(k).value;
      assert Points(s.versions, a, s.artifacts[a].current);
    }
    assert LiveBasedOn(t, id) == basedOn;
    AcceptedReport(t, ancestors, id);
  }

  /** An item that a proposal names among its own predecessors, at the version it has. */
  function SelfBased(): (s: State)
    ensures Sound(s)
  {
    var proposal := Proposal(1, Some(10), "a", map[Canonical(1) := Canonical(10)]);
    State(map[0 := Artifact("prd", None, Draft, None, "p", map[]),
              1 := Artifact("use_case", Some(0), Accepted, Some(10), "a", map[])],
          map[10 := Version(1, 1, None, VersionDraft, "a", map[], None)],
          map[0 := ToolCall(Proposed, proposal)], {}, 2, 11, 1, [])
  }

  /** Such a proposal passes both guards and is stale the moment it is persisted. */
  lemma {:induction false} SelfBasedIsStale() returns (s: State, op: Op)
    ensures Sound(s) && op.Approve? && TryApprove(s, map[], op).1.None?
    ensures 1 in TryApprove(s, map[], op).0.artifacts && Report(TryApprove(s, map[], op).0, [], 1).state == Stale
  {
    s, op := SelfBased(), Approve(0, false, true);
    var basedOn := s.toolCalls[0].proposal.basedOn;
    assert !AnyDiverged(s, basedOn) && !CallHasVersion(s, 0) && !NumberTaken(s.versions, 1, 2);
    assert TryApprove(s, map[], op).1.None?;
    assert Canonical(1) in basedOn && NamesItself(basedOn, 1);
    ApprovalIsUpToDate(s, map[], [], op);
  }

  /** An entry for the item itself passes the guard only at the version the proposal replaces. */
  lemma {:induction false} SelfEntryIsTheBase(s: State, registry: Registry, op: Op, k: RawId)
    requires Sound(s) && op.Approve? && op.toolCall in s.toolCalls
    requires s.toolCalls[op.toolCall].status == Proposed && TryApprove(s, registry, op).1.None?
    requires var proposal := s.toolCalls[op.toolCall].proposal; k in proposal.basedOn && Parse(k) == Some(proposal.item)
    ensures var proposal := s.toolCalls[op.toolCall].proposal;
      proposal.base.Some? && proposal.basedOn[k] == Canonical(proposal.base.value)
  {
    var proposal := s.toolCalls[op.toolCall].proposal;
    ApprovalEffects(s, registry, op);
    assert !Diverged(s, k, proposal.basedOn[k]);
  }
}

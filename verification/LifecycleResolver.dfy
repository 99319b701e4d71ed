/** The pure lifecycle resolver (app/graphs/lifecycle_resolver.py): it judges one artifact from snapshots. */
module LifecycleResolver {
  import opened Wrappers

  datatype Status = Draft | NeedsClarification | Accepted | Rejected | Archived

  /** The text of an id as stored in metadata: an id's own spelling, another spelling that parses to the
      same id, or text that is no id. */
  datatype RawId = Canonical(id: nat) | Variant(id: nat, spelling: string) | Malformed(text: string)

  function Parse(raw: RawId): Option<nat> {
    if raw.Malformed? then None else Some(raw.id)
  }

  datatype LifecycleState = Missing | Blocked | InProgress | Current | Stale | Orphan

  datatype ArtifactSnapshot = ArtifactSnapshot(status: Status, version: Option<RawId>, basedOn: map<RawId, RawId>)

  datatype StructuralPredecessor = StructuralPredecessor(kind: string, found: bool, status: Status, version: Option<RawId>)

  datatype BasedOnPredecessor = BasedOnPredecessor(found: bool, retired: bool, status: Status, version: Option<RawId>)

  datatype Verdict = Verdict(state: LifecycleState, blockers: seq<string>)

  predicate Satisfied(p: StructuralPredecessor) {
    p.found && p.status == Accepted && p.version.Some?
  }

  function Blocking(predecessors: seq<StructuralPredecessor>): seq<string> {
    if predecessors == [] then []
    else
      var n := |predecessors| - 1;
      Blocking(predecessors[..n]) + if Satisfied(predecessors[n]) then [] else [predecessors[n].kind]
  }

  method BlockingRequiredPredecessors(predecessors: seq<StructuralPredecessor>) returns (blockers: seq<string>)
    ensures blockers == Blocking(predecessors)
  {
    blockers := [];
    for i := 0 to |predecessors|
      invariant blockers == Blocking(predecessors[..i])
    {
      var predecessor := predecessors[i];
      assert predecessors[..i + 1][..i] == predecessors[..i];
      if !predecessor.found {
        blockers := blockers + [predecessor.kind];
        continue;
      }
      if predecessor.status != Accepted {
        blockers := blockers + [predecessor.kind];
        continue;
      }
      if predecessor.version.None? {
        blockers := blockers + [predecessor.kind];
      }
    }
    assert predecessors[..|predecessors|] == predecessors;
  }

  lemma {:induction false} BlockingMeaning(predecessors: seq<StructuralPredecessor>)
    ensures Blocking(predecessors) == [] <==>
      forall p :: p in predecessors ==> p.found && p.status == Accepted && p.version.Some?
    ensures forall kind :: kind in Blocking(predecessors) <==>
      exists p :: p in predecessors && p.kind == kind && !(p.found && p.status == Accepted && p.version.Some?)
  {
    if predecessors != [] {
      var n := |predecessors| - 1;
      BlockingMeaning(predecessors[..n]);
      assert predecessors == predecessors[..n] + [predecessors[n]];
    }
  }

  predicate Orphaned(basedOn: map<RawId, RawId>, predecessors: map<RawId, BasedOnPredecessor>) {
    exists k | k in basedOn :: Unavailable(k, predecessors)
  }

  predicate Unavailable(k: RawId, predecessors: map<RawId, BasedOnPredecessor>) {
    k !in predecessors || !predecessors[k].found || predecessors[k].retired || predecessors[k].status == Archived
    || predecessors[k].version.None?
  }

  predicate Outdated(basedOn: map<RawId, RawId>, predecessors: map<RawId, BasedOnPredecessor>)
    requires basedOn.Keys <= predecessors.Keys
  {
    exists k | k in basedOn :: predecessors[k].version != Some(basedOn[k])
  }

  /** The verdict; the first reason that applies wins. */
  function ResolveLifecycle(artifact: Option<ArtifactSnapshot>, required: seq<StructuralPredecessor>,
                            predecessors: map<RawId, BasedOnPredecessor>): Verdict {
    var blockers := Blocking(required);
    if artifact.None? || artifact.value.version.None? then
      if blockers != [] then Verdict(Blocked, blockers) else Verdict(Missing, [])
    else if artifact.value.status != Accepted then Verdict(InProgress, [])
    else if Orphaned(artifact.value.basedOn, predecessors) then Verdict(Orphan, [])
    else if Outdated(artifact.value.basedOn, predecessors) then Verdict(Stale, [])
    else if blockers != [] then Verdict(Blocked, blockers)
    else Verdict(Current, [])
  }

  /** An entry whose artifact is gone: not found, retired, archived or without a version. */
  predicate Gone(k: RawId, predecessors: map<RawId, BasedOnPredecessor>)
    requires k in predecessors
  {
    !predecessors[k].found || predecessors[k].retired || predecessors[k].status == Archived || predecessors[k].version == None
  }

  /** The state of each kind of artifact, in the order its reasons are tried. */
  lemma {:induction false} ResolveMeaning(artifact: Option<ArtifactSnapshot>, required: seq<StructuralPredecessor>,
                                          predecessors: map<RawId, BasedOnPredecessor>)
    requires artifact.Some? ==> artifact.value.basedOn.Keys == predecessors.Keys
    ensures var r := ResolveLifecycle(artifact, required, predecessors);
      r.state ==
        (if artifact == None || artifact.value.version == None then
           if forall p :: p in required ==> p.found && p.status == Accepted && p.version.Some? then Missing else Blocked
         else if artifact.value.status != Accepted then InProgress
         else if exists k | k in predecessors :: Gone(k, predecessors) then Orphan
         else if exists k | k in predecessors :: predecessors[k].version != Some(artifact.value.basedOn[k]) then Stale
         else if forall p :: p in required ==> p.found && p.status == Accepted && p.version.Some? then Current
         else Blocked)
    ensures var r := ResolveLifecycle(artifact, required, predecessors);
      r.blockers == if r.state == Blocked then Blocking(required) else []
  {
    BlockingMeaning(required);
    if artifact.Some? {
      forall k | k in predecessors ensures Unavailable(k, predecessors) <==> Gone(k, predecessors) {}
      assert Orphaned(artifact.value.basedOn, predecessors) <==> exists k | k in predecessors :: Gone(k, predecessors);
    }
  }
}

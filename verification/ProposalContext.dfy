/** The predecessors a proposal records (app/graphs/agent_tools/draft_lifecycle.py), and why an approved one
    is never stale. */
module ProposalContext {
  import opened Wrappers
  import opened Graphs
  import opened LifecycleResolver
  import opened ArtifactStore
  import opened VersionHistory
  import opened Lifecycle
  import ArtifactPolicy

  /** An artifact in the context of a turn; a blank id or version is `Malformed("")`. */
  datatype ContextItem = ContextItem(id: RawId, kind: string, version: RawId)

  predicate Recorded(item: ContextItem) {
    item.id != Malformed("") && item.version != Malformed("")
  }

  /** The recorded items of an ancestor kind, later items over earlier ones. */
  ghost function Entries(context: seq<ContextItem>, edges: set<(string, string)>, kind: string): map<RawId, RawId> {
    if context == [] then map[]
    else
      var before, last := Entries(context[..|context| - 1], edges, kind), context[|context| - 1];
      if Recorded(last) && ReachesOver(edges, kind, last.kind) then before[last.id := last.version] else before
  }

  method ProposalBasedOn(context: seq<ContextItem>, predecessors: map<string, seq<string>>, artifactType: string)
    returns (basedOn: map<RawId, RawId>)
    ensures basedOn == Entries(context, Edges(predecessors), artifactType)
  {
    var ancestors := ArtifactPolicy.AncestorTypes(predecessors, artifactType);
    basedOn := map[];
    for i := 0 to |context|
      invariant basedOn == Entries(context[..i], Edges(predecessors), artifactType)
    {
      assert context[..i + 1][..i] == context[..i];
      var item := context[i];
      if item.id != Malformed("") && item.version != Malformed("") && item.kind in ancestors {
        basedOn := basedOn[item.id := item.version];
      }
    }
    assert context[..|context|] == context;
  }

  /** Every entry comes from an item of an ancestor kind. */
  lemma {:induction false} EntrySource(context: seq<ContextItem>, edges: set<(string, string)>, kind: string, k: RawId)
    returns (i: nat)
    requires k in Entries(context, edges, kind)
    ensures i < |context| && context[i].id == k && Recorded(context[i]) && ReachesOver(edges, kind, context[i].kind)
    ensures Entries(context, edges, kind)[k] == context[i].version
  {
    i := |context| - 1;
    if !(context[i].id == k && Recorded(context[i]) && ReachesOver(edges, kind, context[i].kind)) {
      i := EntrySource(context[..i], edges, kind, k);
    }
  }

  /** The item records an entry for the id: neither side is blank and its kind is an ancestor. */
  ghost predicate Records(item: ContextItem, edges: set<(string, string)>, kind: string, k: RawId) {
    item.id == k && k != Malformed("") && item.version != Malformed("") && ReachesOver(edges, kind, item.kind)
  }

  ghost predicate LastRecord(context: seq<ContextItem>, i: int, edges: set<(string, string)>, kind: string, k: RawId) {
    && 0 <= i < |context| && Records(context[i], edges, kind, k)
    && forall j :: i < j < |context| ==> !Records(context[j], edges, kind, k)
  }

  lemma {:induction false} EntriesSnoc(context: seq<ContextItem>, n: nat, edges: set<(string, string)>, kind: string, k: RawId)
    requires n == |context| - 1
    ensures var before, after := Entries(context[..n], edges, kind), Entries(context, edges, kind);
      if Records(context[n], edges, kind, k) then k in after && after[k] == context[n].version
      else (k in after <==> k in before) && (k in after ==> after[k] == before[k])
  {
  }

  /** There is an entry for exactly the ids some item records, at the version of the last that does. */
  lemma {:induction false} EntriesMeaning(context: seq<ContextItem>, edges: set<(string, string)>, kind: string, k: RawId)
    returns (i: int)
    ensures k in Entries(context, edges, kind) ==>
      LastRecord(context, i, edges, kind, k) && Entries(context, edges, kind)[k] == context[i].version
    ensures k !in Entries(context, edges, kind) ==> forall j :: 0 <= j < |context| ==> !Records(context[j], edges, kind, k)
  {
    if context == [] {
      i := -1;
    } else {
      var n := |context| - 1;
      var init := context[..n];
      i := EntriesMeaning(init, edges, kind, k);
      EntriesSnoc(context, n, edges, kind, k);
      forall j | 0 <= j < n ensures init[j] == context[j] {}
      if Records(context[n], edges, kind, k) {
        i := n;
      }
    }
  }

  // ----- the predecessor map

  const ARTIFACT_PREDECESSORS: map<string, seq<string>> := map[
    "brd" := [],
    "problem_statement" := [],
    "vision_objectives" := ["problem_statement"],
    "stakeholder_register" := ["problem_statement"],
    "scope_capabilities" := ["vision_objectives"],
    "business_rules" := ["scope_capabilities"],
    "constraints_assumptions" := ["scope_capabilities"],
    "prd" := ["brd"],
    "use_case" := ["scope_capabilities"],
    "functional_requirement" := ["use_case", "business_rules"],
    "non_functional_requirement" := ["constraints_assumptions"],
    "event_storming" := ["prd"],
    "add" := ["event_storming"],
    "tech_stack" := ["constraints_assumptions", "non_functional_requirement"],
    "domain_entity" := ["functional_requirement"],
    "component" := ["domain_entity", "functional_requirement"],
    "interface" := ["component"],
    "tech_decision" := ["component", "non_functional_requirement"],
    "actor_command" := ["use_case"],
    "domain_event" := ["actor_command"],
    "policy" := ["domain_event"],
    "aggregate" := ["domain_event", "actor_command"]
  ]

  /** The length of a longest chain of predecessors. */
  function Level(kind: string): nat {
    if kind in {"brd", "problem_statement"} then 0
    else if kind in {"vision_objectives", "stakeholder_register", "prd"} then 1
    else if kind in {"scope_capabilities", "event_storming"} then 2
    else if kind in {"business_rules", "constraints_assumptions", "use_case", "add"} then 3
    else if kind in {"functional_requirement", "non_functional_requirement", "actor_command"} then 4
    else if kind in {"tech_stack", "domain_entity", "domain_event"} then 5
    else if kind in {"component", "policy", "aggregate"} then 6
    else 7
  }

  lemma {:induction false} PredecessorsAreLower()
    ensures forall kind, i :: kind in ARTIFACT_PREDECESSORS && 0 <= i < |ARTIFACT_PREDECESSORS[kind]| ==>
      Level(ARTIFACT_PREDECESSORS[kind][i]) < Level(kind)
  {
  }

  lemma {:induction false} WalkLowers(edges: set<(string, string)>, a: string, b: string, n: nat)
    requires forall x, y :: (x, y) in edges ==> Level(y) < Level(x)
    requires Walk(edges, a, b, n)
    ensures Level(b) + n <= Level(a)
    decreases n
  {
    if n > 0 {
      var m :| Walk(edges, a, m, n - 1) && (m, b) in edges;
      WalkLowers(edges, a, m, n - 1);
    }
  }

  /** No artifact type is its own ancestor. */
  lemma {:induction false} PredecessorsAcyclic()
    ensures Acyclic(Edges(ARTIFACT_PREDECESSORS))
  {
    var edges := Edges(ARTIFACT_PREDECESSORS);
    PredecessorsAreLower();
    forall x ensures !ReachesOver(edges, x, x) {
      if ReachesOver(edges, x, x) {
        var n: nat :| n >= 1 && Walk(edges, x, x, n);
        WalkLowers(edges, x, x, n);
      }
    }
  }

  // ----- approving

  /** Whatever stored artifact an entry names is of an ancestor kind of the item. */
  ghost predicate NamesAncestors(s: State, edges: set<(string, string)>, proposal: Proposal) {
    proposal.item in s.artifacts && forall k | k in proposal.basedOn && Parse(k).Some? && Parse(k).value in s.artifacts ::
      ReachesOver(edges, s.artifacts[proposal.item].kind, s.artifacts[Parse(k).value].kind)
  }

  /** Over an acyclic predecessor map a proposal that names ancestors only is never stale once approved. */
  lemma {:induction false} ApprovalIsNeverStale(s: State, registry: Registry, edges: set<(string, string)>,
                                                ancestors: seq<string>, op: Op)
    requires Sound(s) && op.Approve? && op.toolCall in s.toolCalls
    requires s.toolCalls[op.toolCall].status == Proposed && TryApprove(s, registry, op).1.None?
    requires Acyclic(edges) && NamesAncestors(s, edges, s.toolCalls[op.toolCall].proposal)
    ensures var t := TryApprove(s, registry, op).0; var id := s.toolCalls[op.toolCall].proposal.item;
      && id in t.artifacts && t.artifacts[id].current == Some(s.nextVersion)
      && Report(t, ancestors, id).state ==
           if forall kind | kind in ancestors :: HasAccepted(t, kind) then Current else Blocked
  {
    var proposal := s.toolCalls[op.toolCall].proposal;
    ApprovalIsUpToDate(s, registry, ancestors, op);
    assert !ReachesOver(edges, s.artifacts[proposal.item].kind, s.artifacts[proposal.item].kind);
  }

  /** The context gives each stored artifact its own kind. */
  predicate KindsAgree(s: State, context: seq<ContextItem>) {
    forall i :: 0 <= i < |context| && Parse(context[i].id).Some? && Parse(context[i].id).value in s.artifacts ==>
      context[i].kind == s.artifacts[Parse(context[i].id).value].kind
  }

  /** What the code records names ancestors only, over any predecessor map. */
  lemma {:induction false} RecordedNamesAncestors(s: State, edges: set<(string, string)>, context: seq<ContextItem>,
                                                  proposal: Proposal)
    requires KindsAgree(s, context) && proposal.item in s.artifacts
    requires proposal.basedOn == Entries(context, edges, s.artifacts[proposal.item].kind)
    ensures NamesAncestors(s, edges, proposal)
  {
    var kind := s.artifacts[proposal.item].kind;
    forall k | k in proposal.basedOn && Parse(k).Some? && Parse(k).value in s.artifacts
      ensures ReachesOver(edges, kind, s.artifacts[Parse(k).value].kind)
    {
      var i := EntrySource(context, edges, kind, k);
    }
  }

  /** A proposal as the code records it, approved: current, or blocked by its structure alone. */
  lemma {:induction false} RecordedApprovalIsNeverStale(s: State, registry: Registry, context: seq<ContextItem>,
                                                        ancestors: seq<string>, op: Op)
    requires Sound(s) && op.Approve? && op.toolCall in s.toolCalls
    requires s.toolCalls[op.toolCall].status == Proposed && TryApprove(s, registry, op).1.None?
    requires KindsAgree(s, context) && s.toolCalls[op.toolCall].proposal.item in s.artifacts
    requires var proposal := s.toolCalls[op.toolCall].proposal;
      proposal.basedOn == Entries(context, Edges(ARTIFACT_PREDECESSORS), s.artifacts[proposal.item].kind)
    ensures var t := TryApprove(s, registry, op).0; var id := s.toolCalls[op.toolCall].proposal.item;
      && id in t.artifacts
      && Report(t, ancestors, id).state ==
           if forall kind | kind in ancestors :: HasAccepted(t, kind) then Current else Blocked
  {
    var edges := Edges(ARTIFACT_PREDECESSORS);
    RecordedNamesAncestors(s, edges, context, s.toolCalls[op.toolCall].proposal);
    PredecessorsAcyclic();
    ApprovalIsNeverStale(s, registry, edges, ancestors, op);
  }
}

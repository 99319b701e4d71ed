/** The links between a project's artifacts (app/services/artifact_service.py): created one at a time
    behind a duplicate check and a cycle check, and deleted by id. */
module ArtifactLinks {
  import opened Wrappers
  import opened Graphs

  type Id = nat

  datatype Link = Link(id: Id, project: Id, source: Id, target: Id, relation: string)

  datatype LinkError = SelfLink | NotAMember | ArtifactMissing | OtherProject | Duplicate | Cycle | LinkMissing

  // ----- the link table as a graph

  function ProjectEdges(links: seq<Link>, project: Id): set<(Id, Id)> {
    set i | 0 <= i < |links| && links[i].project == project :: (links[i].source, links[i].target)
  }

  /** A link of the project between the two artifacts, in either direction. */
  predicate Joined(links: seq<Link>, project: Id, a: Id, b: Id) {
    (a, b) in ProjectEdges(links, project) || (b, a) in ProjectEdges(links, project)
  }

  predicate SamePair(a: Link, b: Link) {
    a.project == b.project
    && ((a.source == b.source && a.target == b.target) || (a.source == b.target && a.target == b.source))
  }

  ghost predicate Sound(links: seq<Link>) {
    && (forall project :: Acyclic(ProjectEdges(links, project)))
    && (forall i, j :: 0 <= i < j < |links| ==> !SamePair(links[i], links[j]))
  }

  // ----- the operations on values

  datatype Op =
    | Create(isMember: bool, project: Id, source: Id, target: Id, relation: string)
    | Delete(isMember: bool, project: Id, link: Id)

  /** The error `create_link` raises, in the order it checks. */
  ghost function Refusal(links: seq<Link>, projectOf: map<Id, Id>, op: Op): Option<LinkError>
    requires op.Create?
  {
    if op.source == op.target then Some(SelfLink)
    else if !op.isMember then Some(NotAMember)
    else if op.source !in projectOf || op.target !in projectOf then Some(ArtifactMissing)
    else if projectOf[op.source] != op.project || projectOf[op.target] != op.project then Some(OtherProject)
    else if Joined(links, op.project, op.source, op.target) then Some(Duplicate)
    else if Reaches(ProjectEdges(links, op.project), op.target, op.source) then Some(Cycle)
    else None
  }

  function Without(links: seq<Link>, id: Id): seq<Link> {
    if links == [] then []
    else if links[0].id == id then Without(links[1..], id)
    else [links[0]] + Without(links[1..], id)
  }

  ghost function Apply(links: seq<Link>, projectOf: map<Id, Id>, op: Op, newId: Id): seq<Link> {
    match op
    case Create(_, project, source, target, relation) =>
      if Refusal(links, projectOf, op).None? then links + [Link(newId, project, source, target, relation)] else links
    case Delete(isMember, project, id) =>
      if isMember && exists i :: 0 <= i < |links| && links[i].id == id && links[i].project == project
      then Without(links, id) else links
  }

  // ----- the cycle check

  method BuildAdjacency(rows: seq<Link>, project: Id) returns (adjacency: map<Id, seq<Id>>)
    ensures Edges(adjacency) == ProjectEdges(rows, project)
  {
    adjacency := map[];
    for i := 0 to |rows|
      invariant Edges(adjacency) == ProjectEdges(rows[..i], project)
    {
      var row := rows[i];
      ProjectEdgesSnoc(rows[..i], row, project);
      assert rows[..i + 1] == rows[..i] + [row];
      if row.project == project {
        EdgesOfUpdate(adjacency, row.source, row.target);
        adjacency := adjacency[row.source := Successors(adjacency, row.source) + [row.target]];
      }
    }
    assert rows[..|rows|] == rows;
  }

  /** The search has met only what `start` reaches, and has every successor of what it visited in hand. */
  ghost predicate Searching(edges: set<(Id, Id)>, start: Id, visited: set<Id>, queue: seq<Id>) {
    && (forall x :: x in visited || x in queue ==> Reaches(edges, start, x))
    && (start in visited || start in queue)
    && (forall x, y :: x in visited && (x, y) in edges ==> y in visited || y in queue)
  }

  lemma {:induction false} VisitKeepsSearching(edges: set<(Id, Id)>, start: Id, visited: set<Id>, queue: seq<Id>,
                                               next: seq<Id>)
    requires Searching(edges, start, visited, queue) && queue != []
    requires forall y :: y in next <==> (queue[0], y) in edges
    ensures Searching(edges, start, visited + {queue[0]}, queue[1..] + next)
    ensures queue[0] in visited ==> Searching(edges, start, visited, queue[1..])
  {
    var current := queue[0];
    assert forall x :: x in queue <==> x == current || x in queue[1..];
    assert current in queue && Reaches(edges, start, current);
    var n: nat :| Walk(edges, start, current, n);
    forall y | y in next ensures Reaches(edges, start, y) {
      WalkStep(edges, start, current, y, n);
    }
  }

  lemma {:induction false} SearchDone(edges: set<(Id, Id)>, start: Id, visited: set<Id>, goal: Id)
    requires Searching(edges, start, visited, []) && goal !in visited
    ensures !Reaches(edges, start, goal)
  {
    if Reaches(edges, start, goal) {
      var n: nat :| Walk(edges, start, goal, n);
      ClosedSetHoldsWalks(edges, visited, start, goal, n);
    }
  }

  /** True exactly when links lead from `target` to `source`. Nodes may wait in the queue more than once. */
  method HasLinkPath(rows: seq<Link>, project: Id, source: Id, target: Id) returns (found: bool)
    ensures found <==> Reaches(ProjectEdges(rows, project), target, source)
  {
    ghost var edges := ProjectEdges(rows, project);
    var adjacency := BuildAdjacency(rows, project);
    ghost var nodes := (set e | e in edges :: e.1) + {target};
    var visited: set<Id> := {};
    var queue := [target];
    assert Walk(edges, target, target, 0);
    while queue != []
      invariant Searching(edges, target, visited, queue)
      invariant source !in visited
      invariant forall i :: 0 <= i < |queue| ==> queue[i] in nodes
      decreases nodes - visited, |queue|
    {
      var current := queue[0];
      if current == source {
        return true;
      }
      var next := Successors(adjacency, current);
      VisitKeepsSearching(edges, target, visited, queue, next);
      if current in visited {
        queue := queue[1..];
        continue;
      }
      forall i | 0 <= i < |next| ensures next[i] in nodes {
        assert (current, next[i]) in edges && (current, next[i]).1 in nodes;
      }
      visited := visited + {current};
      queue := queue[1..] + next;
    }
    SearchDone(edges, target, visited, source);
    return false;
  }

  lemma {:induction false} EdgesOfUpdate(adjacency: map<Id, seq<Id>>, a: Id, b: Id)
    ensures Edges(adjacency[a := Successors(adjacency, a) + [b]]) == Edges(adjacency) + {(a, b)}
  {
    var updated := adjacency[a := Successors(adjacency, a) + [b]];
    forall e: (Id, Id) ensures e in Edges(updated) <==> e in Edges(adjacency) || e == (a, b) {
      assert (e.0, e.1) == e;
    }
  }

  lemma {:induction false} ProjectEdgesSnoc(links: seq<Link>, link: Link, project: Id)
    ensures ProjectEdges(links + [link], project) ==
      ProjectEdges(links, project) + (if link.project == project then {(link.source, link.target)} else {})
  {
    var more := links + [link];
    forall e: (Id, Id) | e in ProjectEdges(links, project) ensures e in ProjectEdges(more, project) {
      var i :| 0 <= i < |links| && links[i].project == project && e == (links[i].source, links[i].target);
      assert more[i] == links[i];
    }
    if link.project == project {
      assert more[|links|] == link;
      assert (more[|links|].source, more[|links|].target) in ProjectEdges(more, project);
    }
  }

  // ----- every operation keeps the table sound

  lemma {:induction false} CreateKeepsSound(links: seq<Link>, projectOf: map<Id, Id>, op: Op, newId: Id)
    requires Sound(links) && op.Create?
    ensures Sound(Apply(links, projectOf, op, newId))
  {
    if Refusal(links, projectOf, op).None? {
      var link := Link(newId, op.project, op.source, op.target, op.relation);
      var more := links + [link];
      forall project ensures Acyclic(ProjectEdges(more, project)) {
        ProjectEdgesSnoc(links, link, project);
        if project == op.project {
          EdgeKeepsAcyclic(ProjectEdges(links, project), op.source, op.target);
        } else {
          assert ProjectEdges(more, project) == ProjectEdges(links, project);
        }
      }
      forall i | 0 <= i < |links| ensures !SamePair(links[i], link) {
        if links[i].project == op.project {
          assert (links[i].source, links[i].target) in ProjectEdges(links, op.project);
        }
      }
    }
  }

  lemma {:induction false} WithoutKeeps(links: seq<Link>, id: Id)
    ensures forall link :: link in Without(links, id) <==> link in links && link.id != id
    ensures forall project :: ProjectEdges(Without(links, id), project) <= ProjectEdges(links, project)
    ensures (forall i, j :: 0 <= i < j < |links| ==> !SamePair(links[i], links[j])) ==>
      forall i, j :: 0 <= i < j < |Without(links, id)| ==> !SamePair(Without(links, id)[i], Without(links, id)[j])
  {
    if links != [] {
      WithoutKeeps(links[1..], id);
      var rest := Without(links[1..], id);
      var kept := Without(links, id);
      forall project, e | e in ProjectEdges(kept, project) ensures e in ProjectEdges(links, project) {
        var i :| 0 <= i < |kept| && kept[i].project == project && e == (kept[i].source, kept[i].target);
        assert kept[i] in links;
      }
      if forall i, j :: 0 <= i < j < |links| ==> !SamePair(links[i], links[j]) {
        assert forall i, j :: 0 <= i < j < |links[1..]| ==> !SamePair(links[1..][i], links[1..][j]);
        forall i, j | 0 <= i < j < |kept| ensures !SamePair(kept[i], kept[j]) {
          if i == 0 && links[0].id != id {
            assert kept[j] == rest[j - 1] && rest[j - 1] in links[1..];
          }
        }
      }
    }
  }

  lemma {:induction false} DeleteKeepsSound(links: seq<Link>, projectOf: map<Id, Id>, op: Op, newId: Id)
    requires Sound(links) && op.Delete?
    ensures Sound(Apply(links, projectOf, op, newId))
  {
    WithoutKeeps(links, op.link);
    forall project {
      SubgraphAcyclic(ProjectEdges(Without(links, op.link), project), ProjectEdges(links, project));
    }
  }

  /** The table after a run of operations; each new link takes the next free id. */
  ghost function Run(links: seq<Link>, projectOf: map<Id, Id>, ops: seq<Op>, newId: Id): seq<Link>
    decreases |ops|
  {
    if ops == [] then links
    else Run(Apply(links, projectOf, ops[0], newId), projectOf, ops[1..], newId + 1)
  }

  /** A run is its operations one after the other. */
  lemma {:induction false} RunCons(links: seq<Link>, projectOf: map<Id, Id>, op: Op, ops: seq<Op>, newId: Id)
    ensures Run(links, projectOf, [], newId) == links
    ensures Run(links, projectOf, [op] + ops, newId) == Run(Apply(links, projectOf, op, newId), projectOf, ops, newId + 1)
  {
    assert ([op] + ops)[1..] == ops;
  }

  /** Every sequential run leaves each project's links acyclic, with at most one link per pair. */
  lemma {:induction false} RunKeepsSound(links: seq<Link>, projectOf: map<Id, Id>, ops: seq<Op>, newId: Id)
    requires Sound(links)
    ensures Sound(Run(links, projectOf, ops, newId))
    decreases |ops|
  {
    if ops != [] {
      match ops[0] {
        case Create(_, _, _, _, _) => CreateKeepsSound(links, projectOf, ops[0], newId);
        case Delete(_, _, _) => DeleteKeepsSound(links, projectOf, ops[0], newId);
      }
      RunKeepsSound(Apply(links, projectOf, ops[0], newId), projectOf, ops[1..], newId + 1);
    }
  }

  /** Ids are distinct and below the next one. */
  predicate Numbered(links: seq<Link>, nextId: Id) {
    && (forall i :: 0 <= i < |links| ==> links[i].id < nextId)
    && (forall i, j :: 0 <= i < j < |links| ==> links[i].id != links[j].id)
  }

  lemma {:induction false} WithoutAbsent(links: seq<Link>, id: Id)
    requires forall i :: 0 <= i < |links| ==> links[i].id != id
    ensures Without(links, id) == links
  {
    if links != [] {
      WithoutAbsent(links[1..], id);
    }
  }

  /** With distinct ids a deletion takes out one row and leaves the others where they are. */
  lemma {:induction false} WithoutOne(links: seq<Link>, nextId: Id, k: nat)
    requires Numbered(links, nextId) && k < |links|
    ensures Without(links, links[k].id) == links[..k] + links[k + 1..]
  {
    if k == 0 {
      WithoutAbsent(links[1..], links[0].id);
    } else {
      WithoutOne(links[1..], nextId, k - 1);
      assert links[1..][..k - 1] == links[1..k] && links[1..][k..] == links[k + 1..];
    }
  }

  lemma {:induction false} DeleteKeepsNumbered(links: seq<Link>, id: Id, nextId: Id)
    requires Numbered(links, nextId)
    ensures Numbered(Without(links, id), nextId)
  {
    if k :| 0 <= k < |links| && links[k].id == id {
      WithoutOne(links, nextId, k);
    } else {
      WithoutAbsent(links, id);
    }
  }

  /** Every run keeps the ids distinct. */
  lemma {:induction false} RunKeepsNumbered(links: seq<Link>, projectOf: map<Id, Id>, ops: seq<Op>, newId: Id)
    requires Numbered(links, newId)
    ensures Numbered(Run(links, projectOf, ops, newId), newId + |ops|)
    decreases |ops|
  {
    if ops != [] {
      if ops[0].Delete? {
        DeleteKeepsNumbered(links, ops[0].link, newId);
      }
      RunKeepsNumbered(Apply(links, projectOf, ops[0], newId), projectOf, ops[1..], newId + 1);
    }
  }

  /** A creation is accepted exactly when a member asks for a link between two different artifacts of the project
      that are not joined yet, and the graph stays acyclic. */
  lemma {:induction false} AcceptedMeaning(links: seq<Link>, projectOf: map<Id, Id>, op: Op)
    requires Sound(links) && op.Create?
    ensures Refusal(links, projectOf, op).None? <==>
      && op.isMember && op.source != op.target
      && op.source in projectOf && op.target in projectOf
      && projectOf[op.source] == op.project && projectOf[op.target] == op.project
      && (forall i :: 0 <= i < |links| ==> !SamePair(links[i], Link(0, op.project, op.source, op.target, "")))
      && Acyclic(ProjectEdges(links, op.project) + {(op.source, op.target)})
  {
    forall i | 0 <= i < |links| && links[i].project == op.project
      ensures (links[i].source, links[i].target) in ProjectEdges(links, op.project)
    {
    }
    if op.isMember && op.source in projectOf && op.target in projectOf
       && projectOf[op.source] == projectOf[op.target] == op.project && !Joined(links, op.project, op.source, op.target)
    {
      AcceptedIffStaysAcyclic(links, projectOf, op);
    }
  }

  /** Over a sound table the check refuses nothing it could allow: it accepts a new pair exactly when
      the graph stays acyclic. */
  lemma {:induction false} AcceptedIffStaysAcyclic(links: seq<Link>, projectOf: map<Id, Id>, op: Op)
    requires Sound(links) && op.Create? && op.isMember
    requires op.source in projectOf && op.target in projectOf
    requires projectOf[op.source] == projectOf[op.target] == op.project
    requires !Joined(links, op.project, op.source, op.target)
    ensures Refusal(links, projectOf, op).None? <==>
      Acyclic(ProjectEdges(links, op.project) + {(op.source, op.target)})
  {
    var edges := ProjectEdges(links, op.project);
    EdgeKeepsAcyclic(edges, op.source, op.target);
    if op.source == op.target {
      assert Walk(edges, op.target, op.source, 0);
    }
  }

  // ----- the service

  class LinkService {
    var projectOf: map<Id, Id>
    var links: seq<Link>
    var nextId: Id

    constructor (projectOf: map<Id, Id>)
      ensures this.projectOf == projectOf && links == [] && Sound(links) && Numbered(links, nextId)
    {
      this.projectOf, links, nextId := projectOf, [], 0;
      new;
      forall project ensures Acyclic(ProjectEdges(links, project)) {
        assert ProjectEdges(links, project) == {};
        forall x: Id ensures !ReachesOver(ProjectEdges(links, project), x, x) {}
      }
    }

    method CreateLink(isMember: bool, project: Id, source: Id, target: Id, relation: string)
      returns (r: Result<Link, LinkError>)
      requires Sound(links) && Numbered(links, nextId)
      modifies this`links, this`nextId
      ensures Sound(links) && Numbered(links, nextId)
      ensures links == Apply(old(links), projectOf, Create(isMember, project, source, target, relation), old(nextId))
      ensures match Refusal(old(links), projectOf, Create(isMember, project, source, target, relation))
        case Some(error) => r == Failure(error)
        case None => r.Success? && links == old(links) + [r.value]
      ensures r.Success? ==> r.value == Link(old(nextId), project, source, target, relation)
      ensures r.Failure? ==> links == old(links)
      ensures r == Failure(SelfLink) <==> source == target
      ensures r == Failure(NotAMember) <==> source != target && !isMember
      ensures r == Failure(ArtifactMissing) <==>
        source != target && isMember && (source !in projectOf || target !in projectOf)
      ensures r == Failure(OtherProject) <==>
        && source != target && isMember && source in projectOf && target in projectOf
        && (projectOf[source] != project || projectOf[target] != project)
      ensures r == Failure(Duplicate) ==> Joined(old(links), project, source, target)
      ensures r == Failure(Cycle) ==> Reaches(ProjectEdges(old(links), project), target, source)
    {
      ghost var op := Create(isMember, project, source, target, relation);
      CreateKeepsSound(links, projectOf, op, nextId);
      if source == target {
        return Failure(SelfLink);
      }
      if !isMember {
        return Failure(NotAMember);
      }
      if source !in projectOf || target !in projectOf {
        return Failure(ArtifactMissing);
      }
      if projectOf[source] != project || projectOf[target] != project {
        return Failure(OtherProject);
      }
      if Joined(links, project, source, target) {
        return Failure(Duplicate);
      }
      var cyclic := HasLinkPath(links, project, source, target);
      if cyclic {
        return Failure(Cycle);
      }
      var link := Link(nextId, project, source, target, relation);
      links, nextId := links + [link], nextId + 1;
      return Success(link);
    }

    method DeleteLink(isMember: bool, project: Id, id: Id) returns (r: Result<(), LinkError>)
      requires Sound(links) && Numbered(links, nextId)
      modifies this`links
      ensures Sound(links) && Numbered(links, nextId)
      ensures links == Apply(old(links), projectOf, Delete(isMember, project, id), 0)
      ensures r == if !isMember then Failure(NotAMember)
        else if exists i :: 0 <= i < |old(links)| && old(links)[i].id == id && old(links)[i].project == project then Success(())
        else Failure(LinkMissing)
      ensures forall link :: link in links <==> link in old(links) && (r.Success? ==> link.id != id)
      ensures r.Success? ==>
        exists k :: 0 <= k < |old(links)| && old(links)[k].id == id && links == old(links)[..k] + old(links)[k + 1..]
      ensures r.Failure? ==> links == old(links)
    {
      WithoutKeeps(links, id);
      DeleteKeepsSound(links, projectOf, Delete(isMember, project, id), 0);
      if !isMember {
        return Failure(NotAMember);
      }
      if !exists i :: 0 <= i < |links| && links[i].id == id && links[i].project == project {
        return Failure(LinkMissing);
      }
      ghost var k :| 0 <= k < |links| && links[k].id == id && links[k].project == project;
      WithoutOne(links, nextId, k);
      DeleteKeepsNumbered(links, id, nextId);
      links := Without(links, id);
      return Success(());
    }
  }
}

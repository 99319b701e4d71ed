/** The impact of a cross-artifact change on the decision graph (app/graphs/decision_graph.py). */
module DecisionImpact {
  import opened Wrappers
  import opened Text
  import opened Graphs
  import opened DecisionGraph

  datatype ArtifactLink = ArtifactLink(source: string, target: string)

  ghost function LinkEdges(links: seq<ArtifactLink>): set<(string, string)> {
    set i | 0 <= i < |links| && links[i].target != "" :: (links[i].source, links[i].target)
  }

  ghost predicate Marked(edges: set<(string, string)>, start: string, stale: seq<string>, visited: set<string>) {
    && NoDuplicates(stale) && start !in stale
    && visited == (set x | x in stale) + {start}
    && forall x :: x in visited ==> Reaches(edges, start, x)
  }

  /** What is visited is settled, being scanned, or waits in the queue; the links of the settled are followed. */
  ghost predicate Scanning(edges: set<(string, string)>, visited: set<string>, settled: set<string>,
                           current: set<string>, queue: seq<string>) {
    && (forall x :: x in visited <==> x in settled || x in current || x in queue)
    && NoDuplicates(queue) && (forall x :: x in queue ==> x !in settled && x !in current)
    && (forall x, y :: x in settled && (x, y) in edges ==> y in visited)
  }

  lemma {:induction false} TakeFirst(edges: set<(string, string)>, visited: set<string>, settled: set<string>, queue: seq<string>)
    requires Scanning(edges, visited, settled, {}, queue) && queue != []
    ensures Scanning(edges, visited, settled, {queue[0]}, queue[1..]) && queue[0] !in settled && queue[0] in visited
  {
    assert queue == [queue[0]] + queue[1..];
  }

  lemma {:induction false} MarkReached(edges: set<(string, string)>, start: string, stale: seq<string>,
                                       visited: set<string>, settled: set<string>, queue: seq<string>,
                                       current: string, target: string)
    requires Marked(edges, start, stale, visited) && Scanning(edges, visited, settled, {current}, queue)
    requires target !in visited && (current, target) in edges
    ensures Marked(edges, start, stale + [target], visited + {target})
    ensures Scanning(edges, visited + {target}, settled, {current}, queue + [target])
  {
    assert current in visited;
    var n: nat :| Walk(edges, start, current, n);
    WalkStep(edges, start, current, target, n);
    assert forall x :: x in stale + [target] <==> x in stale || x == target;
    assert forall x :: x in queue + [target] <==> x in queue || x == target;
  }

  lemma {:induction false} Settle(links: seq<ArtifactLink>, visited: set<string>, settled: set<string>,
                                  queue: seq<string>, current: string)
    requires Scanning(LinkEdges(links), visited, settled, {current}, queue)
    requires forall j :: 0 <= j < |links| && links[j].source == current && links[j].target != "" ==> links[j].target in visited
    ensures Scanning(LinkEdges(links), visited, settled + {current}, {}, queue)
  {
    forall y | (current, y) in LinkEdges(links) ensures y in visited {
      var j :| 0 <= j < |links| && links[j].target != "" && (current, y) == (links[j].source, links[j].target);
    }
  }

  lemma {:induction false} ScanDone(edges: set<(string, string)>, start: string, stale: seq<string>,
                                    visited: set<string>, settled: set<string>)
    requires Marked(edges, start, stale, visited) && Scanning(edges, visited, settled, {}, [])
    ensures forall x :: x in visited <==> Reaches(edges, start, x)
  {
    forall x | Reaches(edges, start, x) ensures x in visited {
      var n: nat :| Walk(edges, start, x, n);
      ClosedSetHoldsWalks(edges, visited, start, x, n);
    }
  }

  /** `visited` is what the links lead to from the changed artifact, or from the first link's source, and
      `stale` the same without the start, each once; without links or a start both are empty. */
  ghost predicate Reached(links: seq<ArtifactLink>, changed: string, stale: seq<string>, visited: set<string>) {
    if links == [] || (changed == "" && links[0].source == "") then stale == [] && visited == {}
    else
      var start := if changed != "" then changed else links[0].source;
      && NoDuplicates(stale) && start !in stale
      && visited == (set x | x in stale) + {start}
      && forall x :: x in visited <==> Reaches(LinkEdges(links), start, x)
  }

  /** Everything the links lead to from the changed artifact, each once and without the artifact itself. */
  method ReachableArtifacts(links: seq<ArtifactLink>, changed: string) returns (stale: seq<string>, visited: set<string>)
    ensures Reached(links, changed, stale, visited)
  {
    if links == [] {
      return [], {};
    }
    var start := if changed != "" then changed else links[0].source;
    if start == "" {
      return [], {};
    }
    ghost var edges := LinkEdges(links);
    visited, stale := {start}, [];
    var queue := [start];
    ghost var settled: set<string> := {};
    assert Walk(edges, start, start, 0);
    while queue != []
      invariant Marked(edges, start, stale, visited)
      invariant Scanning(edges, visited, settled, {}, queue)
      decreases (set e | e in edges :: e.1) + {start} - settled
    {
      var current := queue[0];
      TakeFirst(edges, visited, settled, queue);
      ReachedIsTarget(edges, start, current);
      queue := queue[1..];
      for i := 0 to |links|
        invariant Marked(edges, start, stale, visited)
        invariant Scanning(edges, visited, settled, {current}, queue)
        invariant forall j :: 0 <= j < i && links[j].source == current && links[j].target != "" ==> links[j].target in visited
      {
        var target := links[i].target;
        if links[i].source != current || target == "" || target in visited {
          continue;
        }
        MarkReached(edges, start, stale, visited, settled, queue, current, target);
        visited := visited + {target};
        stale := stale + [target];
        queue := queue + [target];
      }
      Settle(links, visited, settled, queue, current);
      settled := settled + {current};
    }
    ScanDone(edges, start, stale, visited, settled);
  }

  lemma {:induction false} ReachedIsTarget(edges: set<(string, string)>, start: string, x: string)
    requires Reaches(edges, start, x)
    ensures x in (set e | e in edges :: e.1) + {start}
  {
    var n: nat :| Walk(edges, start, x, n);
    if n > 0 {
      var m :| Walk(edges, start, m, n - 1) && (m, x) in edges;
      assert (m, x).1 in (set e | e in edges :: e.1);
    }
  }

  /** Affected nodes are marked for confirmation; nothing else about them changes, and superseded nodes
      are left alone whoever selects them. */
  function Impact(nodes: seq<Node>, affected: set<string>): (r: seq<Node>)
    ensures Extends(nodes, r) && |r| == |nodes|
    ensures forall i :: 0 <= i < |nodes| ==>
      r[i] == if nodes[i].id in affected && nodes[i].status != "superseded"
              then nodes[i].(status := "needs_confirmation") else nodes[i]
  {
    if nodes == [] then []
    else
      var n := nodes[|nodes| - 1];
      Impact(nodes[..|nodes| - 1], affected) +
        [if n.id in affected && n.status != "superseded" then n.(status := "needs_confirmation") else n]
  }

  predicate SharesWord(node: Node, words: seq<string>) {
    exists i :: 0 <= i < |words| && |words[i]| >= 4 && Contains(Normalize(node.statement), words[i])
  }

  /** Without a selector: the nodes whose statement contains a word of the change of at least four letters. */
  function DefaultSelection(nodes: seq<Node>, words: seq<string>): seq<string> {
    if nodes == [] then []
    else
      var n := nodes[|nodes| - 1];
      DefaultSelection(nodes[..|nodes| - 1], words) + if SharesWord(n, words) then [n.id] else []
  }

  /** `at` lists, in order, the nodes whose statement contains some word with four letters or more. */
  ghost predicate ByDefault(nodes: seq<Node>, words: seq<string>, at: seq<nat>) {
    && (forall i, j :: 0 <= i < j < |at| ==> at[i] < at[j])
    && (forall n: nat :: n in at <==> n < |nodes| && LongWordIn(nodes[n].statement, words))
  }

  ghost predicate LongWordIn(statement: string, words: seq<string>) {
    exists w :: w in words && |w| >= 4 && Contains(Normalize(statement), w)
  }

  lemma {:induction false} ByDefaultSnoc(nodes: seq<Node>, n: nat, words: seq<string>, at: seq<nat>)
    requires n == |nodes| - 1 && ByDefault(nodes[..n], words, at)
    ensures ByDefault(nodes, words, if LongWordIn(nodes[n].statement, words) then at + [n] else at)
    ensures forall k :: 0 <= k < |at| ==> at[k] < n
  {
    forall k | 0 <= k < |at| ensures at[k] < n {
      assert at[k] in at;
    }
    forall m: nat | m < n ensures nodes[..n][m] == nodes[m] {}
  }

  predicate IdsAt(nodes: seq<Node>, at: seq<nat>, ids: seq<string>) {
    |at| == |ids| && forall k :: 0 <= k < |at| ==> at[k] < |nodes| && ids[k] == nodes[at[k]].id
  }

  lemma {:induction false} IdsAtSnoc(nodes: seq<Node>, n: nat, at: seq<nat>, ids: seq<string>)
    requires n == |nodes| - 1 && IdsAt(nodes[..n], at, ids)
    ensures IdsAt(nodes, at, ids) && IdsAt(nodes, at + [n], ids + [nodes[n].id])
  {
  }

  /** Without a selector exactly those are selected. */
  lemma {:induction false} DefaultMeaning(nodes: seq<Node>, words: seq<string>) returns (at: seq<nat>)
    ensures ByDefault(nodes, words, at) && IdsAt(nodes, at, DefaultSelection(nodes, words))
  {
    if nodes == [] {
      at := [];
    } else {
      var n := |nodes| - 1;
      at := DefaultMeaning(nodes[..n], words);
      WordShared(nodes[n], words);
      ByDefaultSnoc(nodes, n, words, at);
      IdsAtSnoc(nodes, n, at, DefaultSelection(nodes[..n], words));
      DefaultSnoc(nodes, n, words);
      if SharesWord(nodes[n], words) {
        at := at + [n];
      }
    }
  }

  lemma {:induction false} DefaultSnoc(nodes: seq<Node>, n: nat, words: seq<string>)
    requires n == |nodes| - 1
    ensures var before := DefaultSelection(nodes[..n], words);
      DefaultSelection(nodes, words) == if SharesWord(nodes[n], words) then before + [nodes[n].id] else before
  {
    assert DefaultSelection(nodes[..n], words) + [] == DefaultSelection(nodes[..n], words);
  }

  lemma {:induction false} WordShared(node: Node, words: seq<string>)
    ensures SharesWord(node, words) <==> LongWordIn(node.statement, words)
  {
  }

  /** The node is there and not superseded. */
  predicate Markable(nodes: seq<Node>, id: string) {
    match PositionOf(nodes, id)
    case Some(i) => nodes[i].status != "superseded"
    case None => false
  }

  /** The markable ids of a selection, each where it is first selected. */
  function AffectedIds(nodes: seq<Node>, selected: seq<string>): seq<string> {
    if selected == [] then []
    else
      var before, id := AffectedIds(nodes, selected[..|selected| - 1]), selected[|selected| - 1];
      if id in before || !Markable(nodes, id) then before else before + [id]
  }

  /** The affected ids are exactly the markable selected ones, once each, in the order first selected. */
  lemma {:induction false} AffectedMeaning(nodes: seq<Node>, selected: seq<string>) returns (at: seq<nat>)
    ensures forall id :: id in AffectedIds(nodes, selected) <==> id in selected && Markable(nodes, id)
    ensures NoDuplicates(AffectedIds(nodes, selected))
    ensures |at| == |AffectedIds(nodes, selected)| && forall i, j :: 0 <= i < j < |at| ==> at[i] < at[j]
    ensures forall i :: 0 <= i < |at| ==>
      at[i] < |selected| && selected[at[i]] == AffectedIds(nodes, selected)[i] && selected[at[i]] !in selected[..at[i]]
  {
    if selected == [] {
      at := [];
    } else {
      var n := |selected| - 1;
      var init, id := selected[..n], selected[n];
      at := AffectedMeaning(nodes, init);
      assert selected == init + [id];
      assert forall i :: 0 <= i < |at| ==> selected[..at[i]] == init[..at[i]];
      if id !in AffectedIds(nodes, init) && Markable(nodes, id) {
        at := at + [n];
      }
    }
  }

  ghost function Ids(ids: seq<string>): (r: set<string>)
    ensures forall id :: id in r <==> id in ids
  {
    set id | id in ids
  }

  lemma {:induction false} MarkOne(nodes: seq<Node>, marked: set<string>, id: string, position: nat)
    requires DistinctIds(nodes) && position < |nodes| && nodes[position].id == id && nodes[position].status != "superseded"
    ensures var before := Impact(nodes, marked);
      Impact(nodes, marked + {id}) == before[position := before[position].(status := "needs_confirmation")]
  {
    var before, after := Impact(nodes, marked), Impact(nodes, marked + {id});
    forall i | 0 <= i < |nodes| && i != position ensures after[i] == before[i] {
      assert nodes[i].id != id;
    }
  }

  lemma {:induction false} MarkNone(nodes: seq<Node>)
    ensures Impact(nodes, {}) == nodes
  {
  }

  lemma {:induction false} SamePlaces(nodes: seq<Node>, marked: set<string>, id: string)
    ensures PositionOf(Impact(nodes, marked), id) == PositionOf(nodes, id)
  {
    var r := Impact(nodes, marked);
    assert forall i :: 0 <= i < |nodes| ==> r[i].id == nodes[i].id;
    assert HasId(r, id) <==> HasId(nodes, id);
  }

  lemma {:induction false} IdsSnoc(ids: seq<string>, i: nat)
    requires i < |ids|
    ensures Ids(ids[..i + 1]) == Ids(ids[..i]) + {ids[i]}
  {
    assert ids[..i + 1] == ids[..i] + [ids[i]];
  }

  lemma {:induction false} MarkNext(nodes: seq<Node>, affected: seq<string>, i: nat)
    requires DistinctIds(nodes) && i < |affected| && Markable(nodes, affected[i])
    ensures var before := Impact(nodes, Ids(affected[..i])); var position := PositionOf(before, affected[i]);
      position.Some? &&
      before[position.value := before[position.value].(status := "needs_confirmation")] == Impact(nodes, Ids(affected[..i + 1]))
  {
    SamePlaces(nodes, Ids(affected[..i]), affected[i]);
    MarkOne(nodes, Ids(affected[..i]), affected[i], PositionOf(nodes, affected[i]).value);
    IdsSnoc(affected, i);
  }

  method MarkNodes(nodes: seq<Node>, affected: seq<string>) returns (updated: seq<Node>)
    requires DistinctIds(nodes) && forall i :: 0 <= i < |affected| ==> Markable(nodes, affected[i])
    ensures updated == Impact(nodes, Ids(affected))
  {
    updated := nodes;
    MarkNone(nodes);
    assert Ids(affected[..0]) == {};
    for i := 0 to |affected|
      invariant updated == Impact(nodes, Ids(affected[..i]))
    {
      MarkNext(nodes, affected, i);
      var position := PositionOf(updated, affected[i]).value;
      updated := updated[position := updated[position].(status := "needs_confirmation")];
    }
    assert affected[..|affected|] == affected;
  }

  /** The impact of a change: the nodes the selector names, or by default those that share a word with it,
      are marked one by one, and the artifacts the links lead to are listed. */
  method MarkImpact(nodes: seq<Node>, links: seq<ArtifactLink>, changed: string, change: string, selected: Option<seq<string>>)
    returns (updated: seq<Node>, affected: seq<string>, stale: seq<string>, visited: set<string>)
    requires DistinctIds(nodes)
    ensures affected == AffectedIds(nodes, selected.GetOr(DefaultSelection(nodes, Words("", Lower(change)))))
    ensures updated == Impact(nodes, Ids(affected))
    ensures Reached(links, changed, stale, visited)
  {
    stale, visited := ReachableArtifacts(links, changed);
    var selection := selected.GetOr(DefaultSelection(nodes, Words("", Lower(change))));
    affected := AffectedIds(nodes, selection);
    ghost var at := AffectedMeaning(nodes, selection);
    updated := MarkNodes(nodes, affected);
  }
}

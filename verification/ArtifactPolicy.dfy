/** The transitive predecessors of an artifact type (app/graphs/policy.py). */
module ArtifactPolicy {
  import opened Graphs

  /** What the queue loop knows: `depths` and `distances` annotate `queue` and `seen`. */
  ghost predicate Frontier<T(!new)>(edges: set<(T, T)>, start: T, seen: seq<T>, distances: seq<nat>,
                                    queue: seq<T>, depths: seq<nat>) {
    && |distances| == |seen| && |depths| == |queue|
    && (forall i :: 0 <= i < |seen| ==> Distance(edges, start, seen[i], distances[i]))
    && (forall i :: 0 <= i < |queue| ==> depths[i] >= 1 && Walk(edges, start, queue[i], depths[i]))
    && (forall y :: (start, y) in edges ==> Covered(y, 1, seen, queue, depths))
    && (forall i, y :: 0 <= i < |seen| && (seen[i], y) in edges ==> Covered(y, distances[i] + 1, seen, queue, depths))
  }

  /** `y` is listed already or waits at no more than `depth`. */
  ghost predicate Covered<T>(y: T, depth: nat, seen: seq<T>, queue: seq<T>, depths: seq<nat>)
    requires |depths| == |queue|
  {
    y in seen || exists i :: 0 <= i < |queue| && queue[i] == y && depths[i] <= depth
  }

  ghost function Repeat(x: nat, count: nat): (r: seq<nat>)
    ensures |r| == count && forall i :: 0 <= i < count ==> r[i] == x
  {
    seq(count, _ => x)
  }

  ghost predicate Ordered(a: seq<nat>) {
    forall i, j :: 0 <= i < j < |a| ==> a[i] <= a[j]
  }

  /** Everything closer than the whole queue is listed. */
  lemma {:induction false} CloserIsSeen<T(!new)>(edges: set<(T, T)>, start: T, seen: seq<T>, distances: seq<nat>,
                                                 queue: seq<T>, depths: seq<nat>, x: T, n: nat)
    requires Frontier(edges, start, seen, distances, queue, depths)
    requires n >= 1 && Walk(edges, start, x, n)
    requires forall i :: 0 <= i < |depths| ==> n < depths[i]
    ensures x in seen
  {
    var m :| Walk(edges, start, m, n - 1) && (m, x) in edges;
    if n == 1 {
      assert Covered(x, 1, seen, queue, depths);
    } else {
      CloserIsSeen(edges, start, seen, distances, queue, depths, m, n - 1);
      var i :| 0 <= i < |seen| && seen[i] == m;
      assert distances[i] <= n - 1;
      assert Covered(x, distances[i] + 1, seen, queue, depths);
    }
  }

  /** Popping a type that is listed already keeps the frontier. */
  lemma {:induction false} SkipKeepsFrontier<T(!new)>(edges: set<(T, T)>, start: T, seen: seq<T>, distances: seq<nat>,
                                   queue: seq<T>, depths: seq<nat>)
    requires Frontier(edges, start, seen, distances, queue, depths)
    requires queue != [] && queue[0] in seen
    ensures Frontier(edges, start, seen, distances, queue[1..], depths[1..])
  {
    forall y, d: nat | Covered(y, d, seen, queue, depths) ensures Covered(y, d, seen, queue[1..], depths[1..]) {
      if y !in seen {
        var i :| 0 <= i < |queue| && queue[i] == y && depths[i] <= d;
        assert queue[1..][i - 1] == y && depths[1..][i - 1] <= d;
      }
    }
  }

  /** Listing the front of the queue and appending its predecessors keeps the frontier. */
  lemma {:induction false} ListKeepsFrontier<T(!new)>(edges: set<(T, T)>, start: T, seen: seq<T>, distances: seq<nat>,
                                   queue: seq<T>, depths: seq<nat>, next: seq<T>)
    requires Frontier(edges, start, seen, distances, queue, depths)
    requires queue != [] && queue[0] !in seen
    requires forall i :: 0 <= i < |depths| ==> depths[0] <= depths[i]
    requires forall y :: y in next <==> (queue[0], y) in edges
    ensures Distance(edges, start, queue[0], depths[0])
    ensures Frontier(edges, start, seen + [queue[0]], distances + [depths[0]],
                     queue[1..] + next, depths[1..] + Repeat(depths[0] + 1, |next|))
  {
    var current, d := queue[0], depths[0];
    forall m: nat | 1 <= m < d ensures !Walk(edges, start, current, m) {
      if Walk(edges, start, current, m) {
        CloserIsSeen(edges, start, seen, distances, queue, depths, current, m);
      }
    }
    var seen', distances' := seen + [current], distances + [d];
    var queue', depths' := queue[1..] + next, depths[1..] + Repeat(d + 1, |next|);
    forall i | 0 <= i < |queue'| ensures depths'[i] >= 1 && Walk(edges, start, queue'[i], depths'[i]) {
      if i < |queue| - 1 {
        assert queue'[i] == queue[i + 1] && depths'[i] == depths[i + 1];
      } else {
        assert queue'[i] in next;
        WalkStep(edges, start, current, queue'[i], d);
      }
    }
    forall y, e: nat | Covered(y, e, seen, queue, depths) ensures Covered(y, e, seen', queue', depths') {
      if y !in seen && y != current {
        var i :| 0 <= i < |queue| && queue[i] == y && depths[i] <= e;
        assert queue'[i - 1] == y && depths'[i - 1] <= e;
      }
    }
    forall y | (current, y) in edges ensures Covered(y, d + 1, seen', queue', depths') {
      var i :| 0 <= i < |next| && next[i] == y;
      assert queue'[|queue| - 1 + i] == y && depths'[|queue| - 1 + i] == d + 1;
    }
    forall i, y | 0 <= i < |seen'| && (seen'[i], y) in edges
      ensures Covered(y, distances'[i] + 1, seen', queue', depths')
    {
      if i < |seen| {
        assert seen'[i] == seen[i] && Covered(y, distances[i] + 1, seen, queue, depths);
      }
    }
  }

  /** Earlier elements are no further from `start` than later ones. */
  ghost predicate NearestFirst<T(!new)>(edges: set<(T, T)>, start: T, seen: seq<T>) {
    forall i, j, m: nat, n: nat | 0 <= i < j < |seen| ::
      Distance(edges, start, seen[i], m) && Distance(edges, start, seen[j], n) ==> m <= n
  }

  /** Depths grow along the queue by at most one, and nothing listed lies beyond its front. */
  ghost predicate Layered(distances: seq<nat>, depths: seq<nat>) {
    && Ordered(depths) && Ordered(distances)
    && (forall i :: 0 <= i < |depths| ==> depths[i] <= depths[0] + 1)
    && (forall i :: 0 <= i < |distances| && depths != [] ==> distances[i] <= depths[0])
  }

  lemma {:induction false} StepKeepsLayers(distances: seq<nat>, depths: seq<nat>, n: nat)
    requires depths != [] && Layered(distances, depths)
    ensures Layered(distances, depths[1..])
    ensures Layered(distances + [depths[0]], depths[1..] + Repeat(depths[0] + 1, n))
  {
  }

  /** With the queue empty, exactly what is reachable is listed, nearest first. */
  lemma {:induction false} FrontierDone<T(!new)>(edges: set<(T, T)>, start: T, seen: seq<T>, distances: seq<nat>)
    requires Frontier(edges, start, seen, distances, [], []) && Ordered(distances)
    ensures forall x :: x in seen <==> ReachesOver(edges, start, x)
    ensures NearestFirst(edges, start, seen)
  {
    forall x ensures x in seen <==> ReachesOver(edges, start, x) {
      if ReachesOver(edges, start, x) {
        var n: nat :| n >= 1 && Walk(edges, start, x, n);
        CloserIsSeen(edges, start, seen, distances, [], [], x, n);
      }
      if x in seen {
        var i :| 0 <= i < |seen| && seen[i] == x;
        assert Distance(edges, start, seen[i], distances[i]);
      }
    }
    forall i, j, m: nat, n: nat | 0 <= i < j < |seen| && Distance(edges, start, seen[i], m)
        && Distance(edges, start, seen[j], n) ensures m <= n {
      assert m == distances[i] && n == distances[j];
    }
  }

  /** The queue as it starts: the direct predecessors, at depth one. */
  lemma {:induction false} FrontierStarts<T(!new)>(edges: set<(T, T)>, start: T, queue: seq<T>)
    requires forall y :: y in queue <==> (start, y) in edges
    ensures Frontier(edges, start, [], [], queue, Repeat(1, |queue|))
  {
    var depths: seq<nat> := Repeat(1, |queue|);
    assert Walk(edges, start, start, 0);
    forall i | 0 <= i < |queue| ensures Walk(edges, start, queue[i], depths[i]) {
      WalkStep(edges, start, start, queue[i], 0);
    }
    forall y | (start, y) in edges ensures Covered(y, 1, [], queue, depths) {
      var i :| 0 <= i < |queue| && queue[i] == y;
      assert depths[i] == 1;
    }
  }

  ghost function Targets<T(!new)>(edges: set<(T, T)>): set<T> {
    set e | e in edges :: e.1
  }

  /** The whole loop invariant. */
  ghost predicate Progress<T(!new)>(edges: set<(T, T)>, start: T, seen: seq<T>, distances: seq<nat>,
                                    queue: seq<T>, depths: seq<nat>) {
    && Frontier(edges, start, seen, distances, queue, depths)
    && Layered(distances, depths)
    && NoDuplicates(seen)
    && forall i :: 0 <= i < |queue| ==> queue[i] in Targets(edges)
  }

  lemma {:induction false} ListKeepsProgress<T(!new)>(edges: set<(T, T)>, start: T, seen: seq<T>, distances: seq<nat>,
                                   queue: seq<T>, depths: seq<nat>, next: seq<T>)
    requires Progress(edges, start, seen, distances, queue, depths)
    requires queue != [] && queue[0] !in seen
    requires forall y :: y in next <==> (queue[0], y) in edges
    ensures Progress(edges, start, seen + [queue[0]], distances + [depths[0]],
                     queue[1..] + next, depths[1..] + Repeat(depths[0] + 1, |next|))
  {
    StepKeepsLayers(distances, depths, |next|);
    ListKeepsFrontier(edges, start, seen, distances, queue, depths, next);
    var queue' := queue[1..] + next;
    forall i | 0 <= i < |queue'| ensures queue'[i] in Targets(edges) {
      if i < |queue| - 1 {
        assert queue'[i] == queue[i + 1];
      } else {
        assert queue'[i] in next;
        assert (queue[0], queue'[i]).1 in Targets(edges);
      }
    }
  }

  lemma {:induction false} SkipKeepsProgress<T(!new)>(edges: set<(T, T)>, start: T, seen: seq<T>, distances: seq<nat>,
                                   queue: seq<T>, depths: seq<nat>)
    requires Progress(edges, start, seen, distances, queue, depths)
    requires queue != [] && queue[0] in seen
    ensures Progress(edges, start, seen, distances, queue[1..], depths[1..])
  {
    StepKeepsLayers(distances, depths, 0);
    SkipKeepsFrontier(edges, start, seen, distances, queue, depths);
  }

  lemma {:induction false} ProgressStarts<T(!new)>(edges: set<(T, T)>, start: T, queue: seq<T>)
    requires forall y :: y in queue <==> (start, y) in edges
    ensures Progress(edges, start, [], [], queue, Repeat(1, |queue|))
  {
    FrontierStarts(edges, start, queue);
    forall i | 0 <= i < |queue| ensures queue[i] in Targets(edges) {
      assert (start, queue[i]).1 in Targets(edges);
    }
  }

  /** All transitive predecessors of `artifactType`, each once, nearest first, for any predecessor map.
      The type itself is among them exactly when it lies on a cycle. */
  method AncestorTypes<T(==, !new)>(predecessors: map<T, seq<T>>, artifactType: T) returns (seen: seq<T>)
    ensures NoDuplicates(seen)
    ensures forall x :: x in seen <==> ReachesOver(Edges(predecessors), artifactType, x)
    ensures NearestFirst(Edges(predecessors), artifactType, seen)
  {
    ghost var edges := Edges(predecessors);
    seen := [];
    var visited: set<T> := {};
    var queue := Successors(predecessors, artifactType);
    ghost var distances: seq<nat>, depths: seq<nat> := [], Repeat(1, |queue|);
    ProgressStarts(edges, artifactType, queue);
    while queue != []
      invariant Progress(edges, artifactType, seen, distances, queue, depths)
      invariant forall x :: x in visited <==> x in seen
      decreases Targets(edges) - visited, |queue|
    {
      var current := queue[0];
      if current in visited {
        SkipKeepsProgress(edges, artifactType, seen, distances, queue, depths);
        queue, depths := queue[1..], depths[1..];
        continue;
      }
      var next := Successors(predecessors, current);
      ListKeepsProgress(edges, artifactType, seen, distances, queue, depths, next);
      assert current in Targets(edges);
      visited := visited + {current};
      seen, distances := seen + [current], distances + [depths[0]];
      queue, depths := queue[1..] + next, depths[1..] + Repeat(depths[0] + 1, |next|);
    }
    FrontierDone(edges, artifactType, seen, distances);
  }
}

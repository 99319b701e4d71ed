/** Walks in finite directed graphs. */
module Graphs {

  /** `n` edges lead from `a` to `b`. */
  ghost predicate Walk<T(!new)>(edges: set<(T, T)>, a: T, b: T, n: nat) {
    if n == 0 then a == b else exists m :: Walk(edges, a, m, n - 1) && (m, b) in edges
  }

  ghost predicate Reaches<T(!new)>(edges: set<(T, T)>, a: T, b: T) {
    exists n: nat :: Walk(edges, a, b, n)
  }

  /** `b` is reached from `a` over at least one edge. */
  ghost predicate ReachesOver<T(!new)>(edges: set<(T, T)>, a: T, b: T) {
    exists n: nat :: n >= 1 && Walk(edges, a, b, n)
  }

  ghost predicate Acyclic<T(!new)>(edges: set<(T, T)>) {
    forall x: T :: !ReachesOver(edges, x, x)
  }

  /** The length of a shortest walk of at least one edge. */
  ghost predicate Distance<T(!new)>(edges: set<(T, T)>, a: T, b: T, n: nat) {
    n >= 1 && Walk(edges, a, b, n) && forall m: nat :: 1 <= m < n ==> !Walk(edges, a, b, m)
  }

  function Successors<T(==)>(adjacency: map<T, seq<T>>, a: T): seq<T> {
    if a in adjacency then adjacency[a] else []
  }

  function Edges<T(==, !new)>(adjacency: map<T, seq<T>>): (edges: set<(T, T)>)
    ensures forall a, b :: (a, b) in edges <==> b in Successors(adjacency, a)
  {
    set a, i | a in adjacency && 0 <= i < |adjacency[a]| :: (a, adjacency[a][i])
  }

  predicate NoDuplicates<T(==)>(s: seq<T>) {
    forall i, j :: 0 <= i < j < |s| ==> s[i] != s[j]
  }

  lemma {:induction false} WalkAppend<T(!new)>(edges: set<(T, T)>, a: T, b: T, c: T, m: nat, n: nat)
    requires Walk(edges, a, b, m) && Walk(edges, b, c, n)
    ensures Walk(edges, a, c, m + n)
  {
    if n > 0 {
      var d :| Walk(edges, b, d, n - 1) && (d, c) in edges;
      WalkAppend(edges, a, b, d, m, n - 1);
    }
  }

  lemma {:induction false} ReachesTransitive<T(!new)>(edges: set<(T, T)>, a: T, b: T, c: T)
    requires Reaches(edges, a, b) && Reaches(edges, b, c)
    ensures Reaches(edges, a, c)
  {
    var m: nat :| Walk(edges, a, b, m);
    var n: nat :| Walk(edges, b, c, n);
    WalkAppend(edges, a, b, c, m, n);
  }

  lemma {:induction false} WalkStep<T(!new)>(edges: set<(T, T)>, a: T, b: T, c: T, n: nat)
    requires Walk(edges, a, b, n) && (b, c) in edges
    ensures Walk(edges, a, c, n + 1)
  {
  }

  lemma {:induction false} WalkSubset<T(!new)>(edges: set<(T, T)>, larger: set<(T, T)>, a: T, b: T, n: nat)
    requires edges <= larger && Walk(edges, a, b, n)
    ensures Walk(larger, a, b, n)
  {
    if n > 0 {
      var m :| Walk(edges, a, m, n - 1) && (m, b) in edges;
      WalkSubset(edges, larger, a, m, n - 1);
    }
  }

  lemma {:induction false} SubgraphAcyclic<T(!new)>(edges: set<(T, T)>, larger: set<(T, T)>)
    requires edges <= larger && Acyclic(larger)
    ensures Acyclic(edges)
  {
    forall x: T ensures !ReachesOver(edges, x, x) {
      if ReachesOver(edges, x, x) {
        var n: nat :| n >= 1 && Walk(edges, x, x, n);
        WalkSubset(edges, larger, x, x, n);
        assert ReachesOver(larger, x, x);
      }
    }
  }

  /** A set closed under the edges and holding the start holds every end of a walk. */
  lemma {:induction false} ClosedSetHoldsWalks<T(!new)>(edges: set<(T, T)>, closed: set<T>, a: T, b: T, n: nat)
    requires a in closed && forall x, y :: x in closed && (x, y) in edges ==> y in closed
    requires Walk(edges, a, b, n)
    ensures b in closed
  {
    if n > 0 {
      var m :| Walk(edges, a, m, n - 1) && (m, b) in edges;
      ClosedSetHoldsWalks(edges, closed, a, m, n - 1);
    }
  }

  /** A walk in a graph with one edge added avoids that edge, or passes both its ends in the old graph. */
  lemma {:induction false} WalkWithEdge<T(!new)>(edges: set<(T, T)>, s: T, t: T, a: T, b: T, n: nat)
    requires n >= 1 && Walk(edges + {(s, t)}, a, b, n)
    ensures ReachesOver(edges, a, b) || (Reaches(edges, a, s) && Reaches(edges, t, b))
  {
    var more := edges + {(s, t)};
    var m :| Walk(more, a, m, n - 1) && (m, b) in more;
    if n == 1 {
      assert Walk(edges, a, a, 0);
      if (m, b) in edges {
        WalkStep(edges, a, a, b, 0);
      } else {
        assert Walk(edges, t, b, 0);
      }
    } else {
      WalkWithEdge(edges, s, t, a, m, n - 1);
      if (m, b) in edges {
        if ReachesOver(edges, a, m) {
          var k: nat :| k >= 1 && Walk(edges, a, m, k);
          WalkStep(edges, a, m, b, k);
        } else {
          var k: nat :| Walk(edges, t, m, k);
          WalkStep(edges, t, m, b, k);
        }
      } else {
        assert Walk(edges, t, b, 0);
        if ReachesOver(edges, a, m) {
          assert Reaches(edges, a, s);
        }
      }
    }
  }

  /** An edge may be added to an acyclic graph exactly when its end does not reach its start. */
  lemma {:induction false} EdgeKeepsAcyclic<T(!new)>(edges: set<(T, T)>, s: T, t: T)
    requires Acyclic(edges)
    ensures Acyclic(edges + {(s, t)}) <==> !Reaches(edges, t, s)
  {
    var more := edges + {(s, t)};
    if Reaches(edges, t, s) {
      var n: nat :| Walk(edges, t, s, n);
      WalkSubset(edges, more, t, s, n);
      WalkStep(more, t, s, t, n);
      assert ReachesOver(more, t, t);
    } else {
      forall x: T ensures !ReachesOver(more, x, x) {
        if ReachesOver(more, x, x) {
          var n: nat :| n >= 1 && Walk(more, x, x, n);
          WalkWithEdge(edges, s, t, x, x, n);
          ReachesTransitive(edges, t, x, s);
        }
      }
    }
  }
}

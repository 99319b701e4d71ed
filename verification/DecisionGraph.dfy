/** The decision graph of an artifact (app/graphs/decision_graph.py): its nodes in insertion order, patches
    that never rewrite a superseded one, and the merge of two copies. */
module DecisionGraph {
  import opened Wrappers
  import opened Text
  import opened Recency

  datatype Node = Node(
    id: string,
    kind: string,
    statement: string,
    status: string,
    section: string,
    fields: seq<(string, string)>
  )

  const VALID_KINDS := {"objective", "scope", "assumption", "decision", "risk", "open_question", "fact"}

  const VALID_STATUSES :=
    {"proposed", "confirmed", "inferred", "needs_confirmation", "parked", "superseded", "dismissed"}

  datatype GraphError = NodeMissing | HistoryRewrite | InvalidStatus

  // ----- statements

  /** The words of `s`, separated by white space; `word` is the one being read. */
  function Words(word: string, s: string): seq<string>
    decreases |s|
  {
    if s == "" then if word == "" then [] else [word]
    else if IsSpace(s[0]) then (if word == "" then [] else [word]) + Words("", s[1..])
    else Words(word + [s[0]], s[1..])
  }

  function Normalize(s: string): string {
    Join(Words("", Lower(s)), " ")
  }

  lemma {:induction false} WordsAppend(word: string, a: string, gap: char, b: string)
    requires IsSpace(gap)
    ensures Words(word, a + [gap] + b) == Words(word, a) + Words("", b)
    decreases |a|
  {
    var s := a + [gap] + b;
    if a == "" {
      assert s[0] == gap && s[1..] == b;
    } else {
      assert s[0] == a[0] && s[1..] == a[1..] + [gap] + b;
      if IsSpace(a[0]) {
        WordsAppend("", a[1..], gap, b);
      } else {
        WordsAppend(word + [a[0]], a[1..], gap, b);
      }
    }
  }

  lemma {:induction false} OneWord(word: string, s: string)
    requires forall i :: 0 <= i < |s| ==> !IsSpace(s[i])
    ensures Words(word, s) == if word + s == "" then [] else [word + s]
    decreases |s|
  {
    if s != "" {
      OneWord(word + [s[0]], s[1..]);
      assert word + s == (word + [s[0]]) + s[1..];
    } else {
      assert word + s == word;
    }
  }

  lemma {:induction false} JoinAppend(a: seq<string>, b: seq<string>, separator: string)
    ensures Join(a + b, separator) ==
      if a == [] then Join(b, separator) else if b == [] then Join(a, separator)
      else Join(a, separator) + separator + Join(b, separator)
  {
    if a == [] {
      assert a + b == b;
    } else if b == [] {
      assert a + b == a;
    } else {
      assert (a + b)[1..] == a[1..] + b;
      JoinAppend(a[1..], b, separator);
    }
  }

  lemma {:induction false} WordsNotEmpty(word: string, s: string)
    ensures forall w :: w in Words(word, s) ==> w != ""
    decreases |s|
  {
    if s != "" {
      if IsSpace(s[0]) {
        WordsNotEmpty("", s[1..]);
      } else {
        WordsNotEmpty(word + [s[0]], s[1..]);
      }
    }
  }

  lemma {:induction false} NoWords(words: seq<string>)
    requires forall w :: w in words ==> w != ""
    ensures Join(words, " ") == "" <==> words == []
  {
    if words != [] {
      assert words[0] in words;
    }
  }

  lemma {:induction false} LowerSpace(c: char)
    ensures IsSpace(LowerChar(c)) <==> IsSpace(c)
  {
  }

  /** Normalization puts a word in lower case, and whatever separates two texts becomes one space between what
      they normalize to: outer space and repeated space do not count. */
  lemma {:induction false} NormalizeMeaning(a: string, gap: char, b: string)
    requires IsSpace(gap)
    ensures Normalize(a + [gap] + b) ==
      if Normalize(a) == "" then Normalize(b) else if Normalize(b) == "" then Normalize(a)
      else Normalize(a) + " " + Normalize(b)
    ensures (forall i :: 0 <= i < |a| ==> !IsSpace(a[i])) ==> Normalize(a) == Lower(a)
  {
    LowerSpace(gap);
    assert Lower(a + [gap] + b) == Lower(a) + [LowerChar(gap)] + Lower(b);
    WordsAppend("", Lower(a), LowerChar(gap), Lower(b));
    JoinAppend(Words("", Lower(a)), Words("", Lower(b)), " ");
    WordsNotEmpty("", Lower(a));
    WordsNotEmpty("", Lower(b));
    NoWords(Words("", Lower(a)));
    NoWords(Words("", Lower(b)));
    if forall i :: 0 <= i < |a| ==> !IsSpace(a[i]) {
      forall i | 0 <= i < |a| ensures !IsSpace(Lower(a)[i]) {
        LowerSpace(a[i]);
      }
      OneWord("", Lower(a));
      assert "" + Lower(a) == Lower(a);
    }
  }

  predicate HasId(nodes: seq<Node>, id: string) {
    exists i :: 0 <= i < |nodes| && nodes[i].id == id
  }

  predicate DistinctIds(nodes: seq<Node>) {
    forall i, j :: 0 <= i < j < |nodes| ==> nodes[i].id != nodes[j].id
  }

  predicate StatementPresent(nodes: seq<Node>, kind: string, statement: string) {
    exists i :: 0 <= i < |nodes| && nodes[i].kind == kind && Normalize(nodes[i].statement) == Normalize(statement)
  }

  /** The later graph kept every node of the earlier one in place, and superseded ones untouched. */
  predicate Extends(earlier: seq<Node>, later: seq<Node>) {
    && |earlier| <= |later|
    && forall i :: 0 <= i < |earlier| ==>
         later[i].id == earlier[i].id && (earlier[i].status == "superseded" ==> later[i] == earlier[i])
  }

  lemma {:induction false} KeptExtends(nodes: seq<Node>, more: seq<Node>)
    requires |nodes| <= |more| && more[..|nodes|] == nodes
    ensures Extends(nodes, more)
  {
    forall i | 0 <= i < |nodes| ensures more[i] == nodes[i] {
      assert more[..|nodes|][i] == nodes[i];
    }
  }

  lemma {:induction false} PresentAfter(nodes: seq<Node>, more: seq<Node>, kind: string, statement: string)
    requires StatementPresent(nodes, kind, statement) && |nodes| <= |more| && more[..|nodes|] == nodes
    ensures StatementPresent(more, kind, statement)
  {
    var i :| 0 <= i < |nodes| && nodes[i].kind == kind && Normalize(nodes[i].statement) == Normalize(statement);
    assert more[i] == more[..|nodes|][i];
  }

  // ----- patching a node

  datatype Patch = Patch(statement: Option<string>, status: Option<string>, section: Option<string>,
                         fields: Option<seq<(string, string)>>)

  function Patched(node: Node, patch: Patch): Node {
    node.(statement := patch.statement.GetOr(node.statement), status := patch.status.GetOr(node.status),
          section := patch.section.GetOr(node.section), fields := patch.fields.GetOr(node.fields))
  }

  function UpdateNode(nodes: seq<Node>, id: string, patch: Patch): (r: Result<seq<Node>, GraphError>)
    ensures r.Success? ==> Extends(nodes, r.value) && |r.value| == |nodes|
    ensures r.Success? ==> forall j :: 0 <= j < |nodes| && nodes[j].id != id ==> r.value[j] == nodes[j]
    ensures r == Failure(NodeMissing) <==> !HasId(nodes, id)
  {
    match PositionOf(nodes, id)
    case None => Failure(NodeMissing)
    case Some(i) =>
      if nodes[i].status == "superseded" then Failure(HistoryRewrite)
      else if patch.status.Some? && patch.status.value !in VALID_STATUSES then Failure(InvalidStatus)
      else Success(nodes[i := Patched(nodes[i], patch)])
  }

  /** A patched node takes what the patch gives and keeps the rest; its id and kind stay. */
  lemma {:induction false} UpdateMeaning(nodes: seq<Node>, id: string, patch: Patch, i: nat)
    requires i < |nodes| && nodes[i].id == id && forall j :: 0 <= j < i ==> nodes[j].id != id
    ensures nodes[i].status == "superseded" ==> UpdateNode(nodes, id, patch) == Failure(HistoryRewrite)
    ensures nodes[i].status != "superseded" && patch.status.Some? && patch.status.value !in VALID_STATUSES ==>
      UpdateNode(nodes, id, patch) == Failure(InvalidStatus)
    ensures nodes[i].status != "superseded" && (patch.status.Some? ==> patch.status.value in VALID_STATUSES) ==>
      && UpdateNode(nodes, id, patch).Success? && |UpdateNode(nodes, id, patch).value| == |nodes|
      && var node := UpdateNode(nodes, id, patch).value[i];
         && node.id == id && node.kind == nodes[i].kind
         && node.statement == (if patch.statement.Some? then patch.statement.value else nodes[i].statement)
         && node.status == (if patch.status.Some? then patch.status.value else nodes[i].status)
         && node.section == (if patch.section.Some? then patch.section.value else nodes[i].section)
         && node.fields == (if patch.fields.Some? then patch.fields.value else nodes[i].fields)
  {
    assert PositionOf(nodes, id) == Some(i);
  }

  function PositionOf(nodes: seq<Node>, id: string): (r: Option<nat>)
    ensures r.Some? ==> r.value < |nodes| && nodes[r.value].id == id && forall j :: 0 <= j < r.value ==> nodes[j].id != id
    ensures r.None? <==> !HasId(nodes, id)
  {
    if nodes == [] then None
    else if nodes[0].id == id then Some(0)
    else match PositionOf(nodes[1..], id)
      case None => None
      case Some(i) =>
        assert forall j :: 0 < j <= i ==> nodes[j] == nodes[1..][j - 1];
        Some(i + 1)
  }

  // ----- merging two copies (app/graphs/state.py)

  /** The reducer: nodes of `left` in place, replaced by the right copy where there is one, then the rest. */
  function MergeDecisionNodes(left: seq<Node>, right: seq<Node>): seq<Node> {
    Overlay(left, right) + Missing(left, right)
  }

  function Overlay(left: seq<Node>, right: seq<Node>): seq<Node> {
    seq(|left|, i requires 0 <= i < |left| =>
      match PositionOf(right, left[i].id) case Some(j) => right[j] case None => left[i])
  }

  function Missing(left: seq<Node>, right: seq<Node>): seq<Node> {
    if right == [] then []
    else (if HasId(left, right[0].id) then [] else [right[0]]) + Missing(left, right[1..])
  }

  lemma {:induction false} MergeKeepsIds(left: seq<Node>, right: seq<Node>, id: string)
    ensures HasId(MergeDecisionNodes(left, right), id) <==> HasId(left, id) || HasId(right, id)
  {
    var merged := MergeDecisionNodes(left, right);
    MissingIds(left, right);
    if HasId(left, id) {
      var i :| 0 <= i < |left| && left[i].id == id;
      assert merged[i].id == id;
    } else if HasId(right, id) {
      var j :| 0 <= j < |Missing(left, right)| && Missing(left, right)[j].id == id;
      assert merged[|left| + j].id == id;
    }
    if HasId(merged, id) && !HasId(left, id) {
      var k :| 0 <= k < |merged| && merged[k].id == id;
      assert k >= |left| && Missing(left, right)[k - |left|].id == id;
    }
  }

  /** The right copy's node with the id, if it has one, else the node itself. */
  ghost predicate Prefers(node: Node, right: seq<Node>, merged: Node) {
    if HasId(right, node.id)
    then exists j :: 0 <= j < |right| && merged == right[j] && right[j].id == node.id && forall k :: 0 <= k < j ==> right[k].id != node.id
    else merged == node
  }

  /** The merged copy lists the nodes of the left copy in place, each as the right copy has it if it does, and
      then, in order, the nodes only the right copy has. */
  lemma {:induction false} MergeMeaning(left: seq<Node>, right: seq<Node>) returns (added: seq<Node>, at: seq<nat>)
    ensures var merged := MergeDecisionNodes(left, right);
      && |merged| == |left| + |added| && merged[|left|..] == added
      && forall i :: 0 <= i < |left| ==> Prefers(left[i], right, merged[i])
    ensures Selects(right, added, at)
    ensures forall node :: node in added <==> node in right && !HasId(left, node.id)
  {
    added := Missing(left, right);
    at := MissingPositions(left, right);
    var merged := MergeDecisionNodes(left, right);
    forall i | 0 <= i < |left| ensures Prefers(left[i], right, merged[i]) {
      assert merged[i] == Overlay(left, right)[i];
    }
  }

  lemma {:induction false} MissingPositions(left: seq<Node>, right: seq<Node>) returns (at: seq<nat>)
    ensures Selects(right, Missing(left, right), at)
    ensures forall node :: node in Missing(left, right) <==> node in right && !HasId(left, node.id)
  {
    if right == [] {
      at := [];
    } else {
      var rest := MissingPositions(left, right[1..]);
      at := seq(|rest|, k requires 0 <= k < |rest| => rest[k] + 1);
      SelectsTail(right, Missing(left, right[1..]), rest, at);
      assert forall node :: node in right <==> node == right[0] || node in right[1..];
      if !HasId(left, right[0].id) {
        at := [0] + at;
      } else {
        assert [] + Missing(left, right[1..]) == Missing(left, right[1..]);
      }
    }
  }

  /** A merge keeps every id of both copies; it keeps history exactly when the right copy has not gone
      behind a node the left copy has superseded. */
  lemma {:induction false} MergeKeepsHistory(left: seq<Node>, right: seq<Node>)
    ensures forall id :: HasId(MergeDecisionNodes(left, right), id) <==> HasId(left, id) || HasId(right, id)
    ensures Extends(left, MergeDecisionNodes(left, right)) <==>
      forall i, j :: 0 <= i < |left| && PositionOf(right, left[i].id) == Some(j) && left[i].status == "superseded" ==>
        right[j] == left[i]
  {
    forall id {
      MergeKeepsIds(left, right, id);
    }
    var merged := MergeDecisionNodes(left, right);
    forall i | 0 <= i < |left| ensures merged[i] == Overlay(left, right)[i] && merged[i].id == left[i].id {}
  }

  /** History lost: the right copy has confirmed a node that the left copy superseded. */
  lemma {:induction false} MergeLosesHistory() returns (left: seq<Node>, right: seq<Node>)
    ensures DistinctIds(left) && DistinctIds(right) && !Extends(left, MergeDecisionNodes(left, right))
  {
    left := [Node("n", "fact", "a", "superseded", "", [])];
    right := [left[0].(status := "confirmed")];
    assert PositionOf(right, "n") == Some(0);
    assert Overlay(left, right)[0] == right[0];
  }

  lemma {:induction false} MissingIds(left: seq<Node>, right: seq<Node>)
    ensures forall id :: HasId(Missing(left, right), id) <==> HasId(right, id) && !HasId(left, id)
  {
    if right != [] {
      var rest, all := Missing(left, right[1..]), Missing(left, right);
      MissingIds(left, right[1..]);
      forall id ensures HasId(all, id) <==> HasId(right, id) && !HasId(left, id) {
        assert HasId(right, id) <==> right[0].id == id || HasId(right[1..], id) by {
          if HasId(right[1..], id) {
            var i :| 0 <= i < |right[1..]| && right[1..][i].id == id;
            assert right[i + 1].id == id;
          }
        }
        if all != rest {
          assert all == [right[0]] + rest;
          assert HasId(all, id) <==> right[0].id == id || HasId(rest, id) by {
            assert all[0] == right[0];
            if HasId(rest, id) {
              var i :| 0 <= i < |rest| && rest[i].id == id;
              assert all[i + 1].id == id;
            }
          }
        }
      }
    }
  }
}

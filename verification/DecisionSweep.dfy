/** Questions the decision graph is given: legacy notes migrated to nodes, and the completeness sweep with the
    questions it parks (app/graphs/decision_graph.py). */
module DecisionSweep {
  import opened Wrappers
  import opened Text
  import opened DecisionGraph

  // ----- migrating legacy notes

  /** Notes of one kind become nodes unless a node of the kind states the same; `ids` supplies new ids. */
  function MigrateNotes(nodes: seq<Node>, kind: string, status: string, notes: seq<string>, ids: seq<string>): seq<Node>
    requires |ids| >= |notes|
    decreases |notes|
  {
    if notes == [] then nodes
    else
      var n := |notes| - 1;
      var before := MigrateNotes(nodes, kind, status, notes[..n], ids);
      var statement := Strip(notes[n]);
      if statement == "" || StatementPresent(before, kind, statement) then before
      else before + [Node(ids[n], kind, statement, status, "", [])]
  }

  function Migrated(nodes: seq<Node>, assumptions: seq<string>, questions: seq<string>, ids: seq<string>): seq<Node>
    requires |ids| >= |assumptions| + |questions|
  {
    MigrateNotes(MigrateNotes(nodes, "assumption", "needs_confirmation", assumptions, ids),
                 "open_question", "proposed", questions, ids[|assumptions|..])
  }

  method MigrateLegacyNotes(nodes: seq<Node>, assumptions: seq<string>, questions: seq<string>, ids: seq<string>)
    returns (result: seq<Node>, migrated: nat)
    requires |ids| >= |assumptions| + |questions|
    ensures result == Migrated(nodes, assumptions, questions, ids)
    ensures |result| == |nodes| + migrated
  {
    result, migrated := nodes, 0;
    for i := 0 to |assumptions|
      invariant result == MigrateNotes(nodes, "assumption", "needs_confirmation", assumptions[..i], ids)
      invariant |result| == |nodes| + migrated
    {
      assert assumptions[..i + 1][..i] == assumptions[..i];
      var statement := Strip(assumptions[i]);
      if statement != "" && !StatementPresent(result, "assumption", statement) {
        result := result + [Node(ids[i], "assumption", statement, "needs_confirmation", "", [])];
        migrated := migrated + 1;
      }
    }
    assert assumptions[..|assumptions|] == assumptions;
    ghost var first := result;
    for i := 0 to |questions|
      invariant result == MigrateNotes(first, "open_question", "proposed", questions[..i], ids[|assumptions|..])
      invariant |result| == |nodes| + migrated
    {
      assert questions[..i + 1][..i] == questions[..i];
      var statement := Strip(questions[i]);
      if statement != "" && !StatementPresent(result, "open_question", statement) {
        result := result + [Node(ids[|assumptions| + i], "open_question", statement, "proposed", "", [])];
        migrated := migrated + 1;
      }
    }
    assert questions[..|questions|] == questions;
  }

  lemma {:induction false} MigrateExtends(nodes: seq<Node>, kind: string, status: string, notes: seq<string>,
                                          ids: seq<string>)
    requires |ids| >= |notes|
    ensures var r := MigrateNotes(nodes, kind, status, notes, ids);
      |nodes| <= |r| && r[..|nodes|] == nodes
    decreases |notes|
  {
    if notes != [] {
      MigrateExtends(nodes, kind, status, notes[..|notes| - 1], ids);
    }
  }

  predicate AllPresent(nodes: seq<Node>, kind: string, notes: seq<string>) {
    forall i :: 0 <= i < |notes| ==> Strip(notes[i]) == "" || StatementPresent(nodes, kind, Strip(notes[i]))
  }

  /** After a migration every note is stated. */
  lemma {:induction false} MigrateStates(nodes: seq<Node>, kind: string, status: string, notes: seq<string>,
                                         ids: seq<string>)
    requires |ids| >= |notes|
    ensures AllPresent(MigrateNotes(nodes, kind, status, notes, ids), kind, notes)
    decreases |notes|
  {
    if notes != [] {
      var n := |notes| - 1;
      var before, after := MigrateNotes(nodes, kind, status, notes[..n], ids), MigrateNotes(nodes, kind, status, notes, ids);
      MigrateStates(nodes, kind, status, notes[..n], ids);
      assert |before| <= |after| && after[..|before|] == before;
      forall i | 0 <= i < |notes| && Strip(notes[i]) != "" ensures StatementPresent(after, kind, Strip(notes[i])) {
        if i < n {
          assert notes[..n][i] == notes[i];
          PresentAfter(before, after, kind, Strip(notes[i]));
        } else if after != before {
          assert after[|before|].kind == kind && after[|before|].statement == Strip(notes[n]);
        }
      }
    }
  }

  /** Stated notes migrate to nothing. */
  lemma {:induction false} StatedMigrateNothing(nodes: seq<Node>, kind: string, status: string, notes: seq<string>,
                                                ids: seq<string>)
    requires |ids| >= |notes| && AllPresent(nodes, kind, notes)
    ensures MigrateNotes(nodes, kind, status, notes, ids) == nodes
    decreases |notes|
  {
    if notes != [] {
      var n := |notes| - 1;
      var init := notes[..n];
      forall i | 0 <= i < n ensures Strip(init[i]) == "" || StatementPresent(nodes, kind, Strip(init[i])) {
        assert init[i] == notes[i];
      }
      StatedMigrateNothing(nodes, kind, status, init, ids);
      assert Strip(notes[n]) == "" || StatementPresent(nodes, kind, Strip(notes[n]));
    }
  }

  /** Migrating the same notes again migrates nothing, whatever new ids are offered. */
  lemma {:induction false} MigrationIsIdempotent(nodes: seq<Node>, assumptions: seq<string>, questions: seq<string>,
                                                 ids: seq<string>, more: seq<string>)
    requires |ids| >= |assumptions| + |questions| && |more| >= |assumptions| + |questions|
    ensures var once := Migrated(nodes, assumptions, questions, ids);
      Migrated(once, assumptions, questions, more) == once
  {
    var first := MigrateNotes(nodes, "assumption", "needs_confirmation", assumptions, ids);
    var once := Migrated(nodes, assumptions, questions, ids);
    MigrateStates(nodes, "assumption", "needs_confirmation", assumptions, ids);
    MigrateStates(first, "open_question", "proposed", questions, ids[|assumptions|..]);
    MigrateExtends(first, "open_question", "proposed", questions, ids[|assumptions|..]);
    forall i | 0 <= i < |assumptions| && Strip(assumptions[i]) != ""
      ensures StatementPresent(once, "assumption", Strip(assumptions[i]))
    {
      PresentAfter(first, once, "assumption", Strip(assumptions[i]));
    }
    StatedMigrateNothing(once, "assumption", "needs_confirmation", assumptions, more);
    StatedMigrateNothing(once, "open_question", "proposed", questions, more[|assumptions|..]);
  }

  predicate SameStatement(a: Node, b: Node) {
    Normalize(a.statement) == Normalize(b.statement)
  }

  /** A node that a migration added: a note of its kind, trimmed and in the status of its kind, that no node of
      that kind stated before. */
  predicate MigratedNote(nodes: seq<Node>, assumptions: seq<string>, questions: seq<string>, node: Node) {
    && node.section == "" && node.fields == [] && node.statement != "" && !StatementPresent(nodes, node.kind, node.statement)
    && ((node.kind == "assumption" && node.status == "needs_confirmation" && IsNote(assumptions, node.statement))
        || (node.kind == "open_question" && node.status == "proposed" && IsNote(questions, node.statement)))
  }

  predicate IsNote(notes: seq<string>, statement: string) {
    exists i :: 0 <= i < |notes| && statement == Strip(notes[i])
  }

  /** A node that the migration of the notes of one kind added. */
  predicate AddedNote(nodes: seq<Node>, kind: string, status: string, notes: seq<string>, node: Node) {
    && node.kind == kind && node.status == status && node.section == "" && node.fields == [] && node.statement != ""
    && !StatementPresent(nodes, kind, node.statement) && IsNote(notes, node.statement)
  }

  lemma {:induction false} MigrateAdds(nodes: seq<Node>, kind: string, status: string, notes: seq<string>, ids: seq<string>)
    requires |ids| >= |notes|
    ensures var r := MigrateNotes(nodes, kind, status, notes, ids);
      && |nodes| <= |r| && r[..|nodes|] == nodes
      && (forall i :: |nodes| <= i < |r| ==> AddedNote(nodes, kind, status, notes, r[i]))
      && (forall i, j :: |nodes| <= i < j < |r| ==> !SameStatement(r[i], r[j]))
    decreases |notes|
  {
    if notes != [] {
      var n := |notes| - 1;
      var before, after := MigrateNotes(nodes, kind, status, notes[..n], ids), MigrateNotes(nodes, kind, status, notes, ids);
      MigrateAdds(nodes, kind, status, notes[..n], ids);
      forall statement | IsNote(notes[..n], statement) ensures IsNote(notes, statement) {
        var i :| 0 <= i < n && statement == Strip(notes[..n][i]);
        assert notes[i] == notes[..n][i];
      }
      if after != before {
        MigrateOne(nodes, kind, status, notes, before, after[|before|]);
      }
    }
  }

  lemma {:induction false} MigrateOne(nodes: seq<Node>, kind: string, status: string, notes: seq<string>,
                                      before: seq<Node>, node: Node)
    requires |nodes| <= |before| && before[..|nodes|] == nodes
    requires forall i :: |nodes| <= i < |before| ==> before[i].kind == kind
    requires node.kind == kind && !StatementPresent(before, kind, node.statement)
    ensures !StatementPresent(nodes, kind, node.statement)
    ensures forall i :: |nodes| <= i < |before| ==> !SameStatement(before[i], node)
  {
    if StatementPresent(nodes, kind, node.statement) {
      PresentAfter(nodes, before, kind, node.statement);
    }
  }

  /** A migration adds nothing but notes that were not stated, no two of one kind the same. */
  lemma {:induction false} MigrationMeaning(nodes: seq<Node>, assumptions: seq<string>, questions: seq<string>,
                                            ids: seq<string>)
    requires |ids| >= |assumptions| + |questions|
    ensures var r := Migrated(nodes, assumptions, questions, ids);
      && |nodes| <= |r| && r[..|nodes|] == nodes
      && (forall i :: |nodes| <= i < |r| ==> MigratedNote(nodes, assumptions, questions, r[i]))
      && (forall i, j :: |nodes| <= i < j < |r| && r[i].kind == r[j].kind ==> !SameStatement(r[i], r[j]))
      && AllPresent(r, "assumption", assumptions) && AllPresent(r, "open_question", questions)
  {
    var first := MigrateNotes(nodes, "assumption", "needs_confirmation", assumptions, ids);
    var r := Migrated(nodes, assumptions, questions, ids);
    MigrateAdds(nodes, "assumption", "needs_confirmation", assumptions, ids);
    MigrateAdds(first, "open_question", "proposed", questions, ids[|assumptions|..]);
    MigrateStates(nodes, "assumption", "needs_confirmation", assumptions, ids);
    MigrateStates(first, "open_question", "proposed", questions, ids[|assumptions|..]);
    forall i | |nodes| <= i < |first| ensures r[i] == first[i] {
      assert r[..|first|][i] == r[i];
    }
    forall i | |first| <= i < |r| ensures MigratedNote(nodes, assumptions, questions, r[i]) {
      assert AddedNote(first, "open_question", "proposed", questions, r[i]);
      if StatementPresent(nodes, "open_question", r[i].statement) {
        PresentAfter(nodes, first, "open_question", r[i].statement);
      }
    }
    forall i | 0 <= i < |assumptions| && Strip(assumptions[i]) != ""
      ensures StatementPresent(r, "assumption", Strip(assumptions[i]))
    {
      PresentAfter(first, r, "assumption", Strip(assumptions[i]));
    }
    assert r[..|nodes|] == r[..|first|][..|nodes|];
  }

  // ----- the completeness sweep

  /** A checklist entry: what to look for and what to ask when it is missing. */
  datatype Gap = Gap(marker: string, question: string)

  /** Label (here `title`) and description of an item kind. */
  datatype ItemText = ItemText(title: string, description: string)

  function Spaces(marker: string): string {
    seq(|marker|, i requires 0 <= i < |marker| => if marker[i] == '_' then ' ' else marker[i])
  }

  predicate Considered(node: Node) {
    node.status != "parked" && node.status != "superseded"
  }

  predicate ItemMentioned(node: Node, marker: string, item: ItemText) {
    var texts := {Normalize(Spaces(marker)), Normalize(item.title), Normalize(item.description)};
    Considered(node) && exists text :: text in texts && Occurs(node, text)
  }

  predicate Occurs(node: Node, text: string) {
    text != "" && (Contains(Normalize(node.section), text) || Contains(Normalize(node.statement), text))
  }

  predicate GapPresent(nodes: seq<Node>, marker: string, items: map<string, ItemText>) {
    if marker in VALID_KINDS then exists i :: 0 <= i < |nodes| && Considered(nodes[i]) && nodes[i].kind == marker
    else if marker in items then exists i :: 0 <= i < |nodes| && ItemMentioned(nodes[i], marker, items[marker])
    else exists i :: 0 <= i < |nodes| && Considered(nodes[i]) && Contains(Normalize(nodes[i].statement), Spaces(marker))
  }

  /** What one node needs to close the gap of a marker: it is neither parked nor superseded and, for a marker that
      is a kind of node, it has that kind; for one that names a kind of item, its statement or its section mentions
      the marker, the item's title or its description; otherwise its statement mentions the marker. */
  ghost predicate Closes(node: Node, marker: string, items: map<string, ItemText>) {
    && node.status != "parked" && node.status != "superseded"
    && if marker in VALID_KINDS then node.kind == marker
       else if marker in items then
         exists text :: text in {Spaces(marker), items[marker].title, items[marker].description} && Mentions(node, text)
       else Contains(Normalize(node.statement), Spaces(marker))
  }

  predicate Mentions(node: Node, text: string) {
    Normalize(text) != ""
    && (Contains(Normalize(node.statement), Normalize(text)) || Contains(Normalize(node.section), Normalize(text)))
  }

  lemma {:induction false} MentionsMeaning(node: Node, marker: string, item: ItemText)
    ensures var texts := {Normalize(Spaces(marker)), Normalize(item.title), Normalize(item.description)};
      (exists text :: text in {Spaces(marker), item.title, item.description} && Mentions(node, text)) <==>
        exists text :: text in texts && Occurs(node, text)
  {
    var texts := {Normalize(Spaces(marker)), Normalize(item.title), Normalize(item.description)};
    if text :| text in texts && Occurs(node, text) {
      var plain :| plain in {Spaces(marker), item.title, item.description} && Normalize(plain) == text;
      assert Mentions(node, plain);
    }
    if plain :| plain in {Spaces(marker), item.title, item.description} && Mentions(node, plain) {
      assert Normalize(plain) in texts;
    }
  }

  /** A gap is closed exactly when some one node closes it. */
  lemma {:induction false} GapMeaning(nodes: seq<Node>, marker: string, items: map<string, ItemText>)
    ensures GapPresent(nodes, marker, items) <==> exists i :: 0 <= i < |nodes| && Closes(nodes[i], marker, items)
  {
    if marker !in VALID_KINDS && marker in items {
      forall i | 0 <= i < |nodes| ensures Closes(nodes[i], marker, items) <==> ItemMentioned(nodes[i], marker, items[marker]) {
        MentionsMeaning(nodes[i], marker, items[marker]);
      }
    }
  }

  lemma {:induction false} SpacesMeaning(marker: string)
    ensures |Spaces(marker)| == |marker|
    ensures forall i :: 0 <= i < |marker| ==> Spaces(marker)[i] == if marker[i] == '_' then ' ' else marker[i]
  {
  }

  predicate Asked(nodes: seq<Node>, question: string) {
    StatementPresent(nodes, "open_question", question)
  }

  /** The checklist questions neither asked nor answered, in order. */
  function OpenGaps(nodes: seq<Node>, template: seq<Gap>, items: map<string, ItemText>): seq<string> {
    if template == [] then []
    else
      var last := template[|template| - 1];
      OpenGaps(nodes, template[..|template| - 1], items) +
        if Asked(nodes, last.question) || GapPresent(nodes, last.marker, items) then [] else [last.question]
  }

  /** The sweep appends before it compares with its limit, so even a limit below one lets one question by. */
  function Sweep(nodes: seq<Node>, template: seq<Gap>, items: map<string, ItemText>, maxQuestions: int): seq<string> {
    var open := OpenGaps(nodes, template, items);
    var limit := if maxQuestions < 1 then 1 else maxQuestions;
    if |open| <= limit then open else open[..limit]
  }

  /** A sweep stays within its limit exactly when the limit is positive, or zero with no gap open. */
  lemma {:induction false} SweepKeepsLimit(nodes: seq<Node>, template: seq<Gap>, items: map<string, ItemText>,
                                           maxQuestions: int)
    ensures |Sweep(nodes, template, items, maxQuestions)| <= maxQuestions <==>
      maxQuestions >= 1 || (maxQuestions == 0 && OpenGaps(nodes, template, items) == [])
  {
  }

  /** A limit of zero is passed: the one open gap is returned. */
  lemma {:induction false} ZeroLimitIsPassed()
    ensures Sweep([], [Gap("objective", "goal?")], map[], 0) == ["goal?"]
  {
    var template := [Gap("objective", "goal?")];
    assert template[..0] == [] && OpenGaps([], [], map[]) == [];
    assert !Asked([], "goal?") && !GapPresent([], "objective", map[]);
  }

  method CompletenessSweep(nodes: seq<Node>, template: seq<Gap>, items: map<string, ItemText>, maxQuestions: int)
    returns (gaps: seq<string>)
    ensures gaps == Sweep(nodes, template, items, maxQuestions)
  {
    gaps := [];
    for i := 0 to |template|
      invariant gaps == OpenGaps(nodes, template[..i], items)
      invariant |gaps| == 0 || |gaps| < maxQuestions
    {
      var gap := template[i];
      NextGap(nodes, template, items, i);
      if Asked(nodes, gap.question) {
        continue;
      }
      if GapPresent(nodes, gap.marker, items) {
        continue;
      }
      gaps := gaps + [gap.question];
      if |gaps| >= maxQuestions {
        OpenGapsGrow(nodes, template, items, i + 1);
        PrefixIsSweep(nodes, template, items, maxQuestions, gaps);
        return;
      }
    }
    assert template[..|template|] == template;
  }

  lemma {:induction false} NextGap(nodes: seq<Node>, template: seq<Gap>, items: map<string, ItemText>, i: nat)
    requires i < |template|
    ensures OpenGaps(nodes, template[..i + 1], items) == OpenGaps(nodes, template[..i], items) +
      if Asked(nodes, template[i].question) || GapPresent(nodes, template[i].marker, items) then [] else [template[i].question]
  {
    assert template[..i + 1][..i] == template[..i];
  }

  /** As many of the first open questions as the limit lets by are the sweep. */
  lemma {:induction false} PrefixIsSweep(nodes: seq<Node>, template: seq<Gap>, items: map<string, ItemText>,
                                         maxQuestions: int, gaps: seq<string>)
    requires gaps <= OpenGaps(nodes, template, items) && |gaps| == if maxQuestions < 1 then 1 else maxQuestions
    ensures gaps == Sweep(nodes, template, items, maxQuestions)
  {
  }

  lemma {:induction false} OpenGapsGrow(nodes: seq<Node>, template: seq<Gap>, items: map<string, ItemText>, k: nat)
    requires k <= |template|
    ensures OpenGaps(nodes, template[..k], items) <= OpenGaps(nodes, template, items)
    decreases |template| - k
  {
    if k == |template| {
      assert template[..k] == template;
    } else {
      assert template[..k + 1][..k] == template[..k];
      OpenGapsGrow(nodes, template, items, k + 1);
    }
  }

  function Park(nodes: seq<Node>, gaps: seq<string>, ids: seq<string>): seq<Node>
    requires |ids| >= |gaps|
    decreases |gaps|
  {
    if gaps == [] then nodes
    else
      var n := |gaps| - 1;
      var before := Park(nodes, gaps[..n], ids);
      if Asked(before, gaps[n]) then before
      else before + [Node(ids[n], "open_question", gaps[n], "parked", "", [])]
  }

  method AddParkedQuestionsForGaps(nodes: seq<Node>, gaps: seq<string>, ids: seq<string>)
    returns (result: seq<Node>, created: seq<Node>)
    requires |ids| >= |gaps|
    ensures result == Park(nodes, gaps, ids) && result == nodes + created
  {
    result, created := nodes, [];
    for i := 0 to |gaps|
      invariant result == Park(nodes, gaps[..i], ids) && result == nodes + created
    {
      assert gaps[..i + 1][..i] == gaps[..i];
      if !Asked(result, gaps[i]) {
        var node := Node(ids[i], "open_question", gaps[i], "parked", "", []);
        result := result + [node];
        created := created + [node];
      }
    }
    assert gaps[..|gaps|] == gaps;
  }

  /** Parking keeps the nodes and adds parked questions that state gaps not asked before, no two the same. */
  predicate ParkedOnce(nodes: seq<Node>, gaps: seq<string>, r: seq<Node>) {
    && |nodes| <= |r| && r[..|nodes|] == nodes
    && (forall i :: |nodes| <= i < |r| ==> ParkedQuestion(nodes, gaps, r[i]))
    && (forall i, j :: |nodes| <= i < j < |r| ==> !SameStatement(r[i], r[j]))
  }

  predicate ParkedQuestion(nodes: seq<Node>, gaps: seq<string>, node: Node) {
    && node.kind == "open_question" && node.status == "parked" && node.section == "" && node.fields == []
    && !Asked(nodes, node.statement) && node.statement in gaps
  }

  lemma {:induction false} ParkAsksOnce(nodes: seq<Node>, gaps: seq<string>, ids: seq<string>)
    requires |ids| >= |gaps|
    ensures ParkedOnce(nodes, gaps, Park(nodes, gaps, ids))
    ensures forall i :: 0 <= i < |gaps| ==> Asked(Park(nodes, gaps, ids), gaps[i])
    decreases |gaps|
  {
    if gaps != [] {
      var n := |gaps| - 1;
      var before, after := Park(nodes, gaps[..n], ids), Park(nodes, gaps, ids);
      ParkAsksOnce(nodes, gaps[..n], ids);
      assert |before| <= |after| && after[..|before|] == before;
      forall i | 0 <= i < |gaps| ensures Asked(after, gaps[i]) {
        if i < n {
          assert gaps[..n][i] == gaps[i];
          PresentAfter(before, after, "open_question", gaps[i]);
        } else if after != before {
          assert after[|before|].kind == "open_question" && after[|before|].statement == gaps[n];
        }
      }
      assert gaps == gaps[..n] + [gaps[n]];
      assert forall i :: |nodes| <= i < |before| ==> ParkedQuestion(nodes, gaps, before[i]);
      if after != before {
        ParkOne(nodes, gaps, before, after[|before|]);
      }
    }
  }

  lemma {:induction false} ParkOne(nodes: seq<Node>, gaps: seq<string>, before: seq<Node>, node: Node)
    requires |nodes| <= |before| && before[..|nodes|] == nodes
    requires forall i :: |nodes| <= i < |before| ==> ParkedQuestion(nodes, gaps, before[i])
    requires forall i, j :: |nodes| <= i < j < |before| ==> !SameStatement(before[i], before[j])
    requires node.kind == "open_question" && node.status == "parked" && node.section == "" && node.fields == []
    requires node.statement in gaps
    requires !Asked(before, node.statement)
    ensures ParkedOnce(nodes, gaps, before + [node])
  {
    if Asked(nodes, node.statement) {
      PresentAfter(nodes, before, "open_question", node.statement);
    }
    forall i | |nodes| <= i < |before| ensures !SameStatement(before[i], node) {
      assert ParkedQuestion(nodes, gaps, before[i]);
    }
  }

  /** Ids not in use, no two the same. */
  ghost predicate FreshIds(nodes: seq<Node>, ids: seq<string>) {
    && (forall i :: 0 <= i < |ids| ==> !HasId(nodes, ids[i]))
    && (forall i, j :: 0 <= i < j < |ids| ==> ids[i] != ids[j])
  }

  /** Whatever id a node of `more` has, a node had before or it is among the first `n` new ones. */
  ghost predicate IdsFrom(nodes: seq<Node>, ids: seq<string>, n: nat, more: seq<Node>)
    requires n <= |ids|
  {
    forall id :: HasId(more, id) ==> HasId(nodes, id) || id in ids[..n]
  }

  lemma {:induction false} FreshIdKeepsDistinct(nodes: seq<Node>, ids: seq<string>, n: nat, more: seq<Node>, node: Node)
    requires n < |ids| && FreshIds(nodes, ids) && IdsFrom(nodes, ids, n, more) && DistinctIds(more) && node.id == ids[n]
    ensures DistinctIds(more + [node]) && IdsFrom(nodes, ids, n + 1, more + [node])
  {
    assert !HasId(more, node.id);
    assert ids[..n + 1] == ids[..n] + [ids[n]];
    forall id | HasId(more + [node], id) ensures HasId(nodes, id) || id in ids[..n + 1] {
      var i :| 0 <= i < |more + [node]| && (more + [node])[i].id == id;
      if i < |more| {
        assert more[i].id == id;
      }
    }
  }

  /** With fresh ids parking keeps the graph keyed by id. */
  lemma {:induction false} ParkKeepsDistinct(nodes: seq<Node>, gaps: seq<string>, ids: seq<string>)
    requires |ids| >= |gaps| && FreshIds(nodes, ids) && DistinctIds(nodes)
    ensures DistinctIds(Park(nodes, gaps, ids)) && IdsFrom(nodes, ids, |gaps|, Park(nodes, gaps, ids))
    decreases |gaps|
  {
    if gaps != [] {
      var n := |gaps| - 1;
      var before := Park(nodes, gaps[..n], ids);
      ParkKeepsDistinct(nodes, gaps[..n], ids);
      assert ids[..n + 1] == ids[..n] + [ids[n]];
      FreshIdKeepsDistinct(nodes, ids, n, before, Node(ids[n], "open_question", gaps[n], "parked", "", []));
    }
  }

  lemma {:induction false} MigrateKeepsDistinct(nodes: seq<Node>, kind: string, status: string, notes: seq<string>,
                                                ids: seq<string>)
    requires |ids| >= |notes| && FreshIds(nodes, ids) && DistinctIds(nodes)
    ensures var r := MigrateNotes(nodes, kind, status, notes, ids); DistinctIds(r) && IdsFrom(nodes, ids, |notes|, r)
    decreases |notes|
  {
    if notes != [] {
      var n := |notes| - 1;
      var before := MigrateNotes(nodes, kind, status, notes[..n], ids);
      MigrateKeepsDistinct(nodes, kind, status, notes[..n], ids);
      assert ids[..n + 1] == ids[..n] + [ids[n]];
      FreshIdKeepsDistinct(nodes, ids, n, before, Node(ids[n], kind, Strip(notes[n]), status, "", []));
    }
  }

  /** So does a migration. */
  lemma {:induction false} MigrationKeepsDistinct(nodes: seq<Node>, assumptions: seq<string>, questions: seq<string>,
                                                  ids: seq<string>)
    requires |ids| >= |assumptions| + |questions| && FreshIds(nodes, ids) && DistinctIds(nodes)
    ensures DistinctIds(Migrated(nodes, assumptions, questions, ids))
  {
    var first := MigrateNotes(nodes, "assumption", "needs_confirmation", assumptions, ids);
    var later := ids[|assumptions|..];
    MigrateKeepsDistinct(nodes, "assumption", "needs_confirmation", assumptions, ids);
    forall i | 0 <= i < |later| ensures !HasId(first, later[i]) {
      assert later[i] == ids[|assumptions| + i];
      assert later[i] !in ids[..|assumptions|];
    }
    MigrateKeepsDistinct(first, "open_question", "proposed", questions, later);
  }

  /** Checklist entries whose question has not been asked. */
  function Unasked(nodes: seq<Node>, template: seq<Gap>): nat {
    if template == [] then 0
    else Unasked(nodes, template[..|template| - 1]) + if Asked(nodes, template[|template| - 1].question) then 0 else 1
  }

  lemma {:induction false} UnaskedShrinks(nodes: seq<Node>, more: seq<Node>, template: seq<Gap>, k: nat)
    requires |nodes| <= |more| && more[..|nodes|] == nodes
    requires k < |template| ==> !Asked(nodes, template[k].question) && Asked(more, template[k].question)
    ensures Unasked(more, template) <= Unasked(nodes, template)
    ensures k < |template| ==> Unasked(more, template) < Unasked(nodes, template)
  {
    if template != [] {
      var n := |template| - 1;
      var init := template[..n];
      UnaskedShrinks(nodes, more, init, k);
      if Asked(nodes, template[n].question) {
        PresentAfter(nodes, more, "open_question", template[n].question);
      }
      if k < n {
        assert init[k] == template[k];
      }
    }
  }

  lemma {:induction false} OpenGapIsUnasked(nodes: seq<Node>, template: seq<Gap>, items: map<string, ItemText>)
    returns (k: nat)
    ensures OpenGaps(nodes, template, items) == [] ==> k == |template|
    ensures OpenGaps(nodes, template, items) != [] ==>
      k < |template| && template[k].question == OpenGaps(nodes, template, items)[0] && !Asked(nodes, template[k].question)
  {
    if template == [] {
      k := 0;
    } else {
      var init := template[..|template| - 1];
      k := OpenGapIsUnasked(nodes, init, items);
      if OpenGaps(nodes, init, items) == [] && OpenGaps(nodes, template, items) == [] {
        k := |template|;
      }
    }
  }

  /** A sweep that finds gaps leaves fewer questions unasked once they are parked. */
  lemma {:induction false} SweepThenParkProgresses(nodes: seq<Node>, template: seq<Gap>, items: map<string, ItemText>,
                                                   maxQuestions: int, ids: seq<string>)
    requires |ids| >= |Sweep(nodes, template, items, maxQuestions)|
    ensures var after := Park(nodes, Sweep(nodes, template, items, maxQuestions), ids);
      if Sweep(nodes, template, items, maxQuestions) == [] then after == nodes
      else Unasked(after, template) < Unasked(nodes, template)
  {
    var gaps := Sweep(nodes, template, items, maxQuestions);
    if gaps != [] {
      ParkAsksOnce(nodes, gaps, ids);
      var k := OpenGapIsUnasked(nodes, template, items);
      assert gaps[0] == template[k].question;
      UnaskedShrinks(nodes, Park(nodes, gaps, ids), template, k);
    }
  }

  /** Sweep and park, once for each supply of ids. */
  function Rounds(nodes: seq<Node>, template: seq<Gap>, items: map<string, ItemText>, maxQuestions: int,
                  supplies: seq<seq<string>>): seq<Node>
    requires forall i :: 0 <= i < |supplies| ==> |supplies[i]| >= |template|
    decreases |supplies|
  {
    if supplies == [] then nodes
    else
      SweepIsBounded(nodes, template, items, maxQuestions);
      Rounds(Park(nodes, Sweep(nodes, template, items, maxQuestions), supplies[0]), template, items, maxQuestions, supplies[1..])
  }

  lemma {:induction false} OpenGapsBounded(nodes: seq<Node>, template: seq<Gap>, items: map<string, ItemText>)
    ensures |OpenGaps(nodes, template, items)| <= Unasked(nodes, template) <= |template|
  {
    if template != [] {
      OpenGapsBounded(nodes, template[..|template| - 1], items);
    }
  }

  lemma {:induction false} SweepIsBounded(nodes: seq<Node>, template: seq<Gap>, items: map<string, ItemText>,
                                          maxQuestions: int)
    ensures |Sweep(nodes, template, items, maxQuestions)| <= |template|
  {
    OpenGapsBounded(nodes, template, items);
  }

  /** As many rounds as there are unasked questions leave nothing to ask. */
  lemma {:induction false} RoundsReachNoGaps(nodes: seq<Node>, template: seq<Gap>, items: map<string, ItemText>,
                                             maxQuestions: int, supplies: seq<seq<string>>)
    requires forall i :: 0 <= i < |supplies| ==> |supplies[i]| >= |template|
    requires |supplies| >= Unasked(nodes, template)
    ensures Sweep(Rounds(nodes, template, items, maxQuestions, supplies), template, items, maxQuestions) == []
    decreases |supplies|
  {
    OpenGapsBounded(nodes, template, items);
    if supplies != [] {
      SweepIsBounded(nodes, template, items, maxQuestions);
      SweepThenParkProgresses(nodes, template, items, maxQuestions, supplies[0]);
      var next := Park(nodes, Sweep(nodes, template, items, maxQuestions), supplies[0]);
      if next == nodes {
        NoGapsStay(nodes, template, items, maxQuestions, supplies);
      } else {
        RoundsReachNoGaps(next, template, items, maxQuestions, supplies[1..]);
      }
    }
  }

  lemma {:induction false} NoGapsStay(nodes: seq<Node>, template: seq<Gap>, items: map<string, ItemText>,
                                      maxQuestions: int, supplies: seq<seq<string>>)
    requires forall i :: 0 <= i < |supplies| ==> |supplies[i]| >= |template|
    requires Sweep(nodes, template, items, maxQuestions) == []
    ensures Rounds(nodes, template, items, maxQuestions, supplies) == nodes
    decreases |supplies|
  {
    if supplies != [] {
      NoGapsStay(nodes, template, items, maxQuestions, supplies[1..]);
    }
  }
}

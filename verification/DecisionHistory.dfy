/** Every run of operations on the decision graph (app/graphs/decision_graph.py). */
module DecisionHistory {
  import opened Wrappers
  import opened DecisionGraph
  import opened DecisionImpact
  import opened DecisionSweep

  datatype Op =
    | Update(id: string, patch: Patch)
    | ImpactOp(affected: set<string>)
    | MigrateOp(assumptions: seq<string>, questions: seq<string>, ids: seq<string>)
    | SweepAndPark(template: seq<Gap>, items: map<string, ItemText>, maxQuestions: int, ids: seq<string>)

  function Apply(nodes: seq<Node>, op: Op): seq<Node> {
    match op
    case Update(id, patch) =>
      var r := UpdateNode(nodes, id, patch);
      if r.Success? then r.value else nodes
    case ImpactOp(affected) => Impact(nodes, affected)
    case MigrateOp(assumptions, questions, ids) =>
      if |ids| >= |assumptions| + |questions| then Migrated(nodes, assumptions, questions, ids) else nodes
    case SweepAndPark(template, items, maxQuestions, ids) =>
      var gaps := Sweep(nodes, template, items, maxQuestions);
      if |ids| >= |gaps| then Park(nodes, gaps, ids) else nodes
  }

  function Run(nodes: seq<Node>, ops: seq<Op>): seq<Node> {
    if ops == [] then nodes else Apply(Run(nodes, ops[..|ops| - 1]), ops[|ops| - 1])
  }

  /** Each operation does what it names whenever it can: a patch that is not refused, and migrations and parked
      questions with ids enough for them. */
  lemma {:induction false} ApplyMeaning(nodes: seq<Node>, op: Op)
    ensures op.Update? && UpdateNode(nodes, op.id, op.patch).Success? ==>
      Apply(nodes, op) == UpdateNode(nodes, op.id, op.patch).value
    ensures op.ImpactOp? ==> Apply(nodes, op) == Impact(nodes, op.affected)
    ensures op.MigrateOp? && |op.ids| >= |op.assumptions| + |op.questions| ==>
      Apply(nodes, op) == Migrated(nodes, op.assumptions, op.questions, op.ids)
    ensures op.SweepAndPark? && |op.ids| >= |Sweep(nodes, op.template, op.items, op.maxQuestions)| ==>
      Apply(nodes, op) == Park(nodes, Sweep(nodes, op.template, op.items, op.maxQuestions), op.ids)
  {
  }

  /** A run is its operations one after the other. */
  lemma {:induction false} RunSnoc(nodes: seq<Node>, ops: seq<Op>, op: Op)
    ensures Run(nodes, []) == nodes && Run(nodes, ops + [op]) == Apply(Run(nodes, ops), op)
  {
    assert (ops + [op])[..|ops|] == ops;
  }

  lemma {:induction false} ApplyExtends(nodes: seq<Node>, op: Op)
    ensures Extends(nodes, Apply(nodes, op))
  {
    match op {
      case Update(_, _) =>
      case ImpactOp(_) =>
      case MigrateOp(assumptions, questions, ids) =>
        if |ids| >= |assumptions| + |questions| {
          var first := MigrateNotes(nodes, "assumption", "needs_confirmation", assumptions, ids);
          MigrateExtends(nodes, "assumption", "needs_confirmation", assumptions, ids);
          MigrateExtends(first, "open_question", "proposed", questions, ids[|assumptions|..]);
          KeptExtends(nodes, first);
          KeptExtends(first, Apply(nodes, op));
        }
      case SweepAndPark(template, items, maxQuestions, ids) =>
        var gaps := Sweep(nodes, template, items, maxQuestions);
        if |ids| >= |gaps| {
          ParkAsksOnce(nodes, gaps, ids);
          KeptExtends(nodes, Apply(nodes, op));
        }
    }
  }

  /** Over any run no node id disappears and a superseded node never changes. */
  lemma {:induction false} HistoryIsKept(nodes: seq<Node>, ops: seq<Op>)
    ensures Extends(nodes, Run(nodes, ops))
  {
    if ops != [] {
      HistoryIsKept(nodes, ops[..|ops| - 1]);
      ApplyExtends(Run(nodes, ops[..|ops| - 1]), ops[|ops| - 1]);
    }
  }
}

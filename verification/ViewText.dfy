/** What the text of the rendered view says about each node (app/graphs/decision_graph.py). */
module ViewText {
  import opened Wrappers
  import opened Text
  import opened DecisionGraph
  import opened DecisionView
  import MarkdownTable

  // ----- lines

  /** A line shows its statement in full, and says so exactly when that still needs confirmation. */
  lemma {:induction false} LineMeaning(node: Node)
    ensures StartsWith(LineText(node), "- " + node.statement)
    ensures LineText(node)[|"- " + node.statement|..] ==
      if node.status == "needs_confirmation" then " \U{27E8}needs_confirmation\U{27E9}" else ""
  {
  }

  // ----- fields

  /** Position `i` has the name as wanted, and no later one has. */
  predicate LastNamed(names: seq<string>, name: string, i: nat) {
    i < |names| && names[i] == name && forall j :: i < j < |names| ==> names[j] != name
  }

  function Names(fields: seq<(string, string)>): seq<string> {
    seq(|fields|, i requires 0 <= i < |fields| => fields[i].0)
  }

  /** Names up to case and outer space. */
  function LooseNames(fields: seq<(string, string)>): seq<string> {
    seq(|fields|, i requires 0 <= i < |fields| => Lower(Strip(fields[i].0)))
  }

  lemma {:induction false} FieldAtMeaning(fields: seq<(string, string)>, names: seq<string>, column: string)
    requires |names| == |fields| && forall i :: 0 <= i < |fields| ==> fields[i].0 == names[i]
    ensures FieldAt(fields, column).None? <==> column !in names
    ensures forall i: nat :: LastNamed(names, column, i) ==> FieldAt(fields, column) == Some(fields[i].1)
  {
    if fields != [] {
      var n := |fields| - 1;
      FieldAtMeaning(fields[..n], names[..n], column);
      assert names == names[..n] + [names[n]];
      forall i: nat | LastNamed(names, column, i) && i < n ensures LastNamed(names[..n], column, i) {}
    }
  }

  /** A column takes the field of exactly its name; failing that, the last of its name up to case and outer
      space; failing that, it is blank. */
  lemma {:induction false} FieldMeaning(fields: seq<(string, string)>, column: string, i: nat)
    ensures LastNamed(Names(fields), column, i) ==> FieldValue(fields, column) == fields[i].1
    ensures column !in Names(fields) && LastNamed(LooseNames(fields), Lower(column), i) ==>
      FieldValue(fields, column) == fields[i].1
    ensures column !in Names(fields) && Lower(column) !in LooseNames(fields) ==> FieldValue(fields, column) == ""
  {
    var normalized := seq(|fields|, i requires 0 <= i < |fields| => (Lower(Strip(fields[i].0)), fields[i].1));
    FieldAtMeaning(fields, Names(fields), column);
    FieldAtMeaning(normalized, LooseNames(fields), Lower(column));
    if LastNamed(Names(fields), column, i) {
      assert Names(fields)[i] in Names(fields);
    }
  }

  // ----- cells

  /** What the node says in a column, escaped for a table. */
  function Own(node: Node, column: string): string {
    MarkdownTable.Cell(Some(FieldValue(node.fields, column)))
  }

  predicate IdColumn(column: string, prefix: string) {
    prefix != "" && column == "id"
  }

  /** The node has something to say in some column. */
  ghost predicate Speaks(node: Node, columns: seq<string>, prefix: string) {
    exists j :: 0 <= j < |columns| && !IdColumn(columns[j], prefix) && Own(node, columns[j]) != ""
  }

  /** Column `i` is the first that is not for the tag. */
  predicate FirstOther(columns: seq<string>, prefix: string, i: nat)
    requires i < |columns|
  {
    !IdColumn(columns[i], prefix) && forall j :: 0 <= j < i ==> IdColumn(columns[j], prefix)
  }

  /** Cell `i` before any marker: the tag, what the node says there, its statement if it says nothing at all and
      this is the first column for content, and else a placeholder. */
  ghost predicate Fills(node: Node, columns: seq<string>, prefix: string, n: nat, i: nat, cell: string)
    requires i < |columns|
  {
    var statement := MarkdownTable.Cell(Some(node.statement));
    if IdColumn(columns[i], prefix) then cell == Tag(prefix, n)
    else if Own(node, columns[i]) != "" then cell == Own(node, columns[i])
    else if !Speaks(node, columns, prefix) && FirstOther(columns, prefix, i) && statement != "" then cell == statement
    else cell == INCOMPLETE_CELL_PLACEHOLDER
  }

  lemma {:induction false} FirstContentMeaning(columns: seq<string>, prefix: string)
    ensures match FirstContent(columns, prefix)
      case None => forall j :: 0 <= j < |columns| ==> IdColumn(columns[j], prefix)
      case Some(i) => FirstOther(columns, prefix, i)
  {
    if columns != [] {
      FirstContentMeaning(columns[1..], prefix);
      assert forall j :: 0 < j < |columns| ==> columns[j] == columns[1..][j - 1];
    }
  }

  lemma {:induction false} RawMeaning(node: Node, columns: seq<string>, prefix: string, n: nat)
    ensures var raw := RawCells(node, columns, prefix, n);
      |raw| == |columns| && forall i :: 0 <= i < |columns| ==> Fills(node, columns, prefix, n, i, Filled(raw)[i])
  {
    var cells := seq(|columns|, i requires 0 <= i < |columns| =>
      if IsAutoId(columns[i], prefix) then Tag(prefix, n) else MarkdownCell(FieldValue(node.fields, columns[i])));
    SpeaksMeaning(node, columns, prefix, cells);
    forall i | 0 <= i < |columns| {
      FirstOtherMeaning(columns, prefix, i);
    }
  }

  lemma {:induction false} FirstOtherMeaning(columns: seq<string>, prefix: string, i: nat)
    requires i < |columns|
    ensures FirstOther(columns, prefix, i) <==> FirstContent(columns, prefix) == Some(i)
  {
    FirstContentMeaning(columns, prefix);
  }

  lemma {:induction false} SpeaksMeaning(node: Node, columns: seq<string>, prefix: string, cells: seq<string>)
    requires |cells| == |columns|
    requires forall i :: 0 <= i < |columns| && !IsAutoId(columns[i], prefix) ==> cells[i] == MarkdownCell(FieldValue(node.fields, columns[i]))
    ensures Speaks(node, columns, prefix) <==>
      exists j :: 0 <= j < |columns| && !IsAutoId(columns[j], prefix) && cells[j] != ""
  {
    forall j | 0 <= j < |columns| && !IdColumn(columns[j], prefix) ensures cells[j] == Own(node, columns[j]) {}
  }

  /** A row as it is rendered: its cells, and a marker at the end of the last one exactly when the node needs
      confirmation and none of them says so. */
  lemma {:induction false} CellsMeaning(node: Node, columns: seq<string>, prefix: string, n: nat)
    returns (filled: seq<string>)
    ensures |filled| == |columns| && forall i :: 0 <= i < |columns| ==> Fills(node, columns, prefix, n, i, filled[i])
    ensures TableCells(node, columns, prefix, n) ==
      if columns != [] && node.status == "needs_confirmation" && forall i :: 0 <= i < |filled| ==> !MentionsConfirmation(filled[i])
      then filled[..|columns| - 1] + [filled[|columns| - 1] + CONFIRMATION_MARKER] else filled
  {
    RawMeaning(node, columns, prefix, n);
    filled := Filled(RawCells(node, columns, prefix, n));
  }

  lemma {:induction false} MentionsMeaning(cell: string)
    ensures MentionsConfirmation(cell) <==>
      exists words :: words in ["needs confirmation", "needs_confirmation"] && Contains(Lower(cell), words)
  {
    if MentionsConfirmation(cell) {
      var words := if Contains(Lower(cell), "needs confirmation") then "needs confirmation" else "needs_confirmation";
      assert words in ["needs confirmation", "needs_confirmation"];
    }
  }

  // ----- entries

  /** The lines of an entry: its title with tag, statement and marker, then each column with what the node says. */
  lemma {:induction false} EntryMeaning(node: Node, columns: seq<string>, prefix: string, n: nat)
    returns (title: string, lines: seq<string>)
    ensures EntryText(node, columns, prefix, n) == Join([title] + lines, "\n") && |lines| == |columns|
    ensures var statement := MarkdownTable.Cell(Some(node.statement));
      title == "### " + Tag(prefix, n) + ": " + (if statement == "" then INCOMPLETE_CELL_PLACEHOLDER else statement)
        + (if node.status == "needs_confirmation" then CONFIRMATION_MARKER else "")
    ensures forall i :: 0 <= i < |columns| ==>
      lines[i] == "- **" + columns[i] + ":** " +
        (if Own(node, columns[i]) == "" then INCOMPLETE_CELL_PLACEHOLDER else Own(node, columns[i]))
  {
    var statement := MarkdownCell(node.statement);
    title := "### " + Tag(prefix, n) + ": " + (if statement == "" then INCOMPLETE_CELL_PLACEHOLDER else statement)
      + (if node.status == "needs_confirmation" then CONFIRMATION_MARKER else "");
    lines := seq(|columns|, i requires 0 <= i < |columns| =>
      var value := MarkdownCell(FieldValue(node.fields, columns[i]));
      "- **" + columns[i] + ":** " + (if value == "" then INCOMPLETE_CELL_PLACEHOLDER else value));
  }

  // ----- sections

  /** `f` of each element and its number, counted from one. */
  ghost function Numbered<T, R>(s: seq<T>, f: (T, nat) -> R): seq<R> {
    if s == [] then [] else Numbered(s[..|s| - 1], f) + [f(s[|s| - 1], |s|)]
  }

  lemma {:induction false} NumberedAt<T, R>(s: seq<T>, f: (T, nat) -> R)
    ensures |Numbered(s, f)| == |s| && forall i :: 0 <= i < |s| ==> Numbered(s, f)[i] == f(s[i], i + 1)
  {
    if s != [] {
      NumberedAt(s[..|s| - 1], f);
    }
  }

  lemma {:induction false} RowsAreNumbered(layout: Layout, style: Style, nodes: seq<Node>, f: (Node, nat) -> Row)
    requires layout.Contract? && forall node, n: nat :: f(node, n) == RenderRow(layout, style, node, n)
    ensures RenderRows(layout, style, nodes) == Numbered(nodes, f)
  {
    if nodes != [] {
      RowsAreNumbered(layout, style, nodes[..|nodes| - 1], f);
    }
  }

  lemma {:induction false} RowsMeaning(layout: Layout, style: Style, nodes: seq<Node>)
    requires layout.Contract?
    ensures var rows := RenderRows(layout, style, nodes);
      |rows| == |nodes| && forall i :: 0 <= i < |nodes| ==> rows[i] == RenderRow(layout, style, nodes[i], i + 1)
  {
    var f := (node: Node, n: nat) => RenderRow(layout, style, node, n);
    RowsAreNumbered(layout, style, nodes, f);
    NumberedAt(nodes, f);
  }

  /** Each kind of section: entries for a contract that asks for them, a table with its header if there are columns
      and either tags or any field to show, and a list of lines otherwise; one row for each node, in order. */
  lemma {:induction false} SectionMeaning(layout: Layout, heading: string, nodes: seq<Node>)
    requires layout.Contract?
    ensures var block := ContractBlock(layout, heading, nodes); var columns := layout.columns; var prefix := layout.prefix;
      && block.heading == heading && |block.rows| == |nodes|
      && (forall i :: 0 <= i < |nodes| ==> block.rows[i].node == nodes[i])
      && if prefix != "" && layout.entries then
           && block.intro == [] && block.separator == "\n\n"
           && forall i :: 0 <= i < |nodes| ==>
                block.rows[i].text == EntryText(nodes[i], columns, prefix, i + 1) && block.rows[i].tag == Some(Tag(prefix, i + 1))
         else if columns != [] && (prefix != "" || exists node :: node in nodes && node.fields != []) then
           && block.intro == [MarkdownTable.Line(columns), MarkdownTable.Line(MarkdownTable.Dashes(|columns|))]
           && block.separator == "\n"
           && forall i :: 0 <= i < |nodes| ==>
                && block.rows[i].text == MarkdownTable.Line(TableCells(nodes[i], columns, prefix, i + 1))
                && block.rows[i].tag == (if prefix != "" && "id" in columns then Some(Tag(prefix, i + 1)) else None)
         else
           && block.intro == [] && block.separator == "\n"
           && forall i :: 0 <= i < |nodes| ==> block.rows[i].text == LineText(nodes[i]) && block.rows[i].tag == None
  {
    var style := StyleOf(layout, nodes);
    RowsMeaning(layout, style, nodes);
    if node :| node in nodes && node.fields != [] {
      var i :| 0 <= i < |nodes| && nodes[i] == node;
    }
  }

  /** The sections by kind, and the parked section, list one line for each node. */
  lemma {:induction false} LineRowsMeaning(nodes: seq<Node>)
    ensures |LineRows(nodes)| == |nodes|
    ensures forall i :: 0 <= i < |nodes| ==> LineRows(nodes)[i] == Row(nodes[i], None, LineText(nodes[i]))
  {
    if nodes != [] {
      LineRowsMeaning(nodes[..|nodes| - 1]);
    }
  }

  /** A list of lines: nothing before the rows, and each row the line of its node. */
  ghost predicate PlainBlock(block: Block, nodes: seq<Node>) {
    && block.intro == [] && block.separator == "\n" && |block.rows| == |nodes|
    && forall i :: 0 <= i < |nodes| ==> block.rows[i] == Row(nodes[i], None, LineText(nodes[i]))
  }

  lemma {:induction false} SectionBlocksMeaning(nodes: seq<Node>, sections: seq<KindSection>)
    ensures forall block :: block in SectionBlocks(nodes, sections) ==>
      exists section :: section in sections && block.heading == "## " + section.title && PlainBlock(block, OfKinds(nodes, section.kinds))
  {
    if sections != [] {
      var n := |sections| - 1;
      SectionBlocksMeaning(nodes, sections[..n]);
      LineRowsMeaning(OfKinds(nodes, sections[n].kinds));
      assert forall section :: section in sections[..n] ==> section in sections;
      assert sections[n] in sections;
    }
  }

  /** The view ends with its parked section, one line for each parked node, if there is one. */
  lemma {:induction false} ParkedMeaning(nodes: seq<Node>, layout: Layout)
    requires Known(layout) && Parked(nodes) != []
    ensures var blocks := ViewBlocks(nodes, layout);
      && blocks != [] && blocks[|blocks| - 1].heading == "## Parked" && PlainBlock(blocks[|blocks| - 1], Parked(nodes))
  {
    LineRowsMeaning(Parked(nodes));
  }

  lemma {:induction false} TextsMeaning(blocks: seq<Block>)
    ensures |Texts(blocks)| == |blocks| && forall b :: 0 <= b < |blocks| ==> Texts(blocks)[b] == blocks[b].Text()
  {
    if blocks != [] {
      TextsMeaning(blocks[..|blocks| - 1]);
    }
  }

  /** The whole text: the blocks with a blank line between any two, each its heading, on a line of its own, and then
      what goes before its rows and the rows with the separator of the block between any two. */
  lemma {:induction false} ViewMeaning(nodes: seq<Node>, layout: Layout) returns (texts: seq<string>)
    requires Known(layout)
    ensures View(nodes, layout) == Join(texts, ['\n', '\n']) && |texts| == |ViewBlocks(nodes, layout)|
    ensures forall b :: 0 <= b < |texts| ==>
      var block := ViewBlocks(nodes, layout)[b];
      texts[b] == block.heading + ['\n'] + Join(block.intro + RowTexts(block), block.separator)
  {
    texts := Texts(ViewBlocks(nodes, layout));
    TextsMeaning(ViewBlocks(nodes, layout));
  }
}

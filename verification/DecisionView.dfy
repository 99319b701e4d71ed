/** The two projections of the decision graph (app/graphs/decision_graph.py): the rendered view, and the
    map from node ids to sections and trace tags that other artifacts refer to. */
module DecisionView {
  import opened Wrappers
  import opened Text
  import opened DecisionGraph
  import MarkdownTable

  // ----- what the registry says about an artifact type

  datatype Layout =
    | Contract(headings: seq<string>, columns: seq<string>, prefix: string, entries: bool)
    | Sections(sections: seq<KindSection>)

  datatype KindSection = KindSection(title: string, kinds: set<string>)

  const BRD_SECTIONS := [
    KindSection("Vision & Objectives", {"objective"}), KindSection("Scope", {"scope"}),
    KindSection("Assumptions", {"assumption"}), KindSection("Decisions", {"decision"}),
    KindSection("Risks", {"risk"}), KindSection("Open Questions", {"open_question"}), KindSection("Facts", {"fact"})
  ]

  const PRD_SECTIONS := [
    KindSection("Objectives", {"objective"}), KindSection("Scope", {"scope"}),
    KindSection("Business Rules", {"decision", "fact"}), KindSection("Assumptions", {"assumption"}),
    KindSection("Risks", {"risk"}), KindSection("Open Questions", {"open_question"})
  ]

  const INCOMPLETE_CELL_PLACEHOLDER := "_(c\U{1EA7}n b\U{1ED5} sung)_"

  const PARKED_HEADING := "## Parked"

  function KindHints(kind: string): seq<string> {
    if kind == "objective" then ["objective", "goal", "vision"]
    else if kind == "scope" then ["scope", "capability"]
    else if kind == "assumption" then ["assumption"]
    else if kind == "decision" then ["decision", "rule"]
    else if kind == "risk" then ["risk", "issue", "mitigation"]
    else if kind == "open_question" then ["question", "validation"]
    else if kind == "fact" then ["fact", "context"]
    else []
  }

  lemma {:induction false} HintTable(kind: string)
    ensures |KindHints(kind)| > 0 ==> kind in VALID_KINDS
    ensures KindHints("objective") == ["objective", "goal", "vision"] && KindHints("scope") == ["scope", "capability"]
    ensures KindHints("assumption") == ["assumption"] && KindHints("decision") == ["decision", "rule"]
    ensures KindHints("risk") == ["risk", "issue", "mitigation"] && KindHints("fact") == ["fact", "context"]
    ensures KindHints("open_question") == ["question", "validation"]
  {
  }

  // ----- which heading a node belongs under

  function DropHashes(s: string): string {
    if s != "" && s[0] == '#' then DropHashes(s[1..]) else s
  }

  function HeadingKey(heading: string): string {
    Lower(Strip(DropHashes(heading)))
  }

  predicate NamesHeading(section: string, heading: string) {
    section == heading || HeadingKey(section) == HeadingKey(heading)
  }

  predicate HintsAt(hints: seq<string>, heading: string) {
    exists i :: 0 <= i < |hints| && Contains(Lower(heading), hints[i])
  }

  /** Hashes, outer space and case aside, a heading is known by its text. */
  lemma {:induction false} HeadingKeyMeaning(hashes: string, text: string)
    requires (forall i :: 0 <= i < |hashes| ==> hashes[i] == '#') && (text != "" ==> text[0] != '#')
    ensures HeadingKey(hashes + text) == Lower(Strip(text))
  {
    if hashes == "" {
      assert hashes + text == text;
    } else {
      assert (hashes + text)[1..] == hashes[1..] + text;
      HeadingKeyMeaning(hashes[1..], text);
    }
  }

  /** So a section names a heading exactly when the two are the same text, hashes, outer space and case aside. */
  lemma {:induction false} NamingMeaning(hashes: string, section: string, marks: string, heading: string)
    requires (forall i :: 0 <= i < |hashes| ==> hashes[i] == '#') && (section != "" ==> section[0] != '#')
    requires (forall i :: 0 <= i < |marks| ==> marks[i] == '#') && (heading != "" ==> heading[0] != '#')
    ensures NamesHeading(hashes + section, marks + heading) <==> Lower(Strip(section)) == Lower(Strip(heading))
  {
    HeadingKeyMeaning(hashes, section);
    HeadingKeyMeaning(marks, heading);
  }

  lemma {:induction false} HintMeaning(hints: seq<string>, heading: string)
    ensures HintsAt(hints, heading) <==> exists hint :: hint in hints && Contains(Lower(heading), hint)
  {
    if hint :| hint in hints && Contains(Lower(heading), hint) {
      var i :| 0 <= i < |hints| && hints[i] == hint;
    }
  }

  function FirstNamed(section: string, headings: seq<string>): Option<string> {
    if headings == [] then None
    else if NamesHeading(section, headings[0]) then Some(headings[0])
    else FirstNamed(section, headings[1..])
  }

  function FirstHinted(hints: seq<string>, headings: seq<string>): Option<string> {
    if headings == [] then None
    else if HintsAt(hints, headings[0]) then Some(headings[0])
    else FirstHinted(hints, headings[1..])
  }

  /** By the node's own section if it names a heading, else by what its kind hints at, else the first. */
  function ResolveHeading(node: Node, headings: seq<string>): (r: string)
    requires headings != []
    ensures r in headings
  {
    var section := Strip(node.section);
    var named := if section != "" then FirstNamed(section, headings) else None;
    FirstIsHeading(section, KindHints(node.kind), headings);
    if named.Some? then named.value
    else FirstHinted(KindHints(node.kind), headings).GetOr(headings[0])
  }

  lemma {:induction false} FirstIsHeading(section: string, hints: seq<string>, headings: seq<string>)
    ensures FirstNamed(section, headings).Some? ==> FirstNamed(section, headings).value in headings
    ensures FirstHinted(hints, headings).Some? ==> FirstHinted(hints, headings).value in headings
  {
    if headings != [] {
      FirstIsHeading(section, hints, headings[1..]);
    }
  }

  /** Heading `i` is the first that the section names. */
  predicate NamedFirst(section: string, headings: seq<string>, i: nat)
    requires i < |headings|
  {
    NamesHeading(section, headings[i]) && forall j :: 0 <= j < i ==> !NamesHeading(section, headings[j])
  }

  lemma {:induction false} FirstNamedMeaning(section: string, headings: seq<string>, i: nat)
    requires i < |headings| && NamedFirst(section, headings, i)
    ensures FirstNamed(section, headings) == Some(headings[i])
  {
    if i > 0 {
      assert forall j :: 0 < j < |headings| ==> headings[j] == headings[1..][j - 1];
      FirstNamedMeaning(section, headings[1..], i - 1);
    }
  }

  /** A node whose section names a heading, exactly or up to hashes, case and outer space, is put under the
      first such heading, whatever its kind hints at. */
  lemma {:induction false} SectionDecides(node: Node, headings: seq<string>, i: nat)
    requires i < |headings| && Strip(node.section) != "" && NamedFirst(Strip(node.section), headings, i)
    ensures ResolveHeading(node, headings) == headings[i]
  {
    FirstNamedMeaning(Strip(node.section), headings, i);
  }

  /** Heading `i` is the first that the hints point at. */
  predicate HintedFirst(hints: seq<string>, headings: seq<string>, i: nat)
    requires i < |headings|
  {
    HintsAt(hints, headings[i]) && forall j :: 0 <= j < i ==> !HintsAt(hints, headings[j])
  }

  lemma {:induction false} FirstHintedMeaning(hints: seq<string>, headings: seq<string>, i: nat)
    requires i < |headings| && HintedFirst(hints, headings, i)
    ensures FirstHinted(hints, headings) == Some(headings[i])
  {
    if i > 0 {
      assert forall j :: 0 < j < |headings| ==> headings[j] == headings[1..][j - 1];
      FirstHintedMeaning(hints, headings[1..], i - 1);
    }
  }

  lemma {:induction false} NothingFound(section: string, hints: seq<string>, headings: seq<string>)
    ensures (forall i :: 0 <= i < |headings| ==> !NamesHeading(section, headings[i])) ==> FirstNamed(section, headings).None?
    ensures (forall i :: 0 <= i < |headings| ==> !HintsAt(hints, headings[i])) ==> FirstHinted(hints, headings).None?
  {
    if headings != [] {
      assert forall i :: 0 < i < |headings| ==> headings[i] == headings[1..][i - 1];
      NothingFound(section, hints, headings[1..]);
    }
  }

  predicate SectionNamesNone(node: Node, headings: seq<string>) {
    Strip(node.section) == "" || forall i :: 0 <= i < |headings| ==> !NamesHeading(Strip(node.section), headings[i])
  }

  /** A node whose section names no heading goes under the first heading its kind hints at. */
  lemma {:induction false} KindDecides(node: Node, headings: seq<string>, i: nat)
    requires i < |headings| && SectionNamesNone(node, headings) && HintedFirst(KindHints(node.kind), headings, i)
    ensures ResolveHeading(node, headings) == headings[i]
  {
    NothingFound(Strip(node.section), [], headings);
    FirstHintedMeaning(KindHints(node.kind), headings, i);
  }

  /** Without a named or hinted heading it goes under the first. */
  lemma {:induction false} FirstHeadingByDefault(node: Node, headings: seq<string>)
    requires headings != [] && SectionNamesNone(node, headings)
    requires forall i :: 0 <= i < |headings| ==> !HintsAt(KindHints(node.kind), headings[i])
    ensures ResolveHeading(node, headings) == headings[0]
  {
    NothingFound(Strip(node.section), KindHints(node.kind), headings);
  }

  // ----- trace tags

  function Decimal(n: nat): string {
    if n < 10 then [(n + '0' as int) as char] else Decimal(n / 10) + [(n % 10 + '0' as int) as char]
  }

  /** Two digits at least. */
  function Padded(n: nat): string {
    if n < 10 then "0" + Decimal(n) else Decimal(n)
  }

  function Tag(prefix: string, n: nat): string {
    prefix + "-" + Padded(n)
  }

  function Value(digits: string): int {
    if digits == "" then 0
    else 10 * Value(digits[..|digits| - 1]) + (digits[|digits| - 1] as int - '0' as int)
  }

  lemma {:induction false} DecimalValue(n: nat)
    ensures Value(Decimal(n)) == n
  {
    if n < 10 {
      assert Decimal(n)[..0] == "";
    } else {
      var last := [(n % 10 + '0' as int) as char];
      DecimalValue(n / 10);
      assert (Decimal(n / 10) + last)[..|Decimal(n / 10)|] == Decimal(n / 10);
    }
  }

  /** Tags of different numbers differ, for any number of nodes. */
  lemma {:induction false} TagInjective(prefix: string, m: nat, n: nat)
    requires Tag(prefix, m) == Tag(prefix, n)
    ensures m == n
  {
    assert Tag(prefix, m)[|prefix| + 1..] == Padded(m) && Tag(prefix, n)[|prefix| + 1..] == Padded(n);
    forall k: nat ensures Value(Padded(k)) == k {
      DecimalValue(k);
      if k < 10 {
        assert Padded(k)[..1] == "0" && "0"[..0] == "";
      }
    }
    assert Value(Padded(m)) == m && Value(Padded(n)) == n;
  }

  predicate Digits(s: string) {
    forall i :: 0 <= i < |s| ==> '0' <= s[i] <= '9'
  }

  lemma {:induction false} DecimalDigits(n: nat)
    ensures Digits(Decimal(n)) && Decimal(n) != "" && (n > 0 ==> Decimal(n)[0] != '0')
    ensures |Decimal(n)| == 1 <==> n < 10
  {
    if n >= 10 {
      DecimalDigits(n / 10);
    }
  }

  /** A tag is its prefix, a dash and the number in at least two digits, with a leading zero only below ten. */
  lemma {:induction false} TagMeaning(prefix: string, n: nat) returns (digits: string)
    ensures Tag(prefix, n) == prefix + ['-'] + digits && Digits(digits) && Value(digits) == n && |digits| >= 2
    ensures digits[0] == '0' <==> n < 10
    ensures n < 10 ==> |digits| == 2
  {
    digits := Padded(n);
    DecimalDigits(n);
    DecimalValue(n);
    if n < 10 {
      assert digits == ['0'] + Decimal(n) && digits[..1] == "0" && "0"[..0] == "";
    }
  }

  // ----- the rendered view

  /** One rendered node: the tag it carries and its text. */
  datatype Row = Row(node: Node, tag: Option<string>, text: string)

  datatype Block = Block(heading: string, rows: seq<Row>, intro: seq<string>, separator: string) {
    function Text(): string {
      heading + "\n" + Join(intro + RowTexts(this), separator)
    }
  }

  function RowTexts(block: Block): seq<string> {
    seq(|block.rows|, i requires 0 <= i < |block.rows| => block.rows[i].text)
  }

  predicate IsActive(node: Node) {
    node.status in {"confirmed", "inferred", "needs_confirmation"}
  }

  predicate IsParked(node: Node) {
    node.status == "parked"
  }

  function LineText(node: Node): string {
    "- " + node.statement +
      (if node.status == "needs_confirmation" then " \U{27E8}needs_confirmation\U{27E9}" else "")
  }

  function MarkdownCell(value: string): string {
    MarkdownTable.Cell(Some(value))
  }

  function FieldAt(fields: seq<(string, string)>, column: string): Option<string> {
    if fields == [] then None
    else if fields[|fields| - 1].0 == column then Some(fields[|fields| - 1].1)
    else FieldAt(fields[..|fields| - 1], column)
  }

  /** The field under the column's exact name, else the last under its name up to case and outer space. */
  function FieldValue(fields: seq<(string, string)>, column: string): string {
    if FieldAt(fields, column).Some? then FieldAt(fields, column).value
    else
      var normalized := seq(|fields|, i requires 0 <= i < |fields| => (Lower(Strip(fields[i].0)), fields[i].1));
      FieldAt(normalized, Lower(column)).GetOr("")
  }

  const CONFIRMATION_MARKER := " \U{26A0}\U{FE0F} needs confirmation"

  predicate MentionsConfirmation(cell: string) {
    Contains(Lower(cell), "needs confirmation") || Contains(Lower(cell), "needs_confirmation")
  }

  predicate SaysUnconfirmed(cells: seq<string>) {
    exists i :: 0 <= i < |cells| && MentionsConfirmation(cells[i])
  }

  predicate IsAutoId(column: string, prefix: string) {
    prefix != "" && column == "id"
  }

  /** The cells of a table row before placeholders: the tag in the id column, fields elsewhere, and the
      statement in the first content column when no field has content. */
  function RawCells(node: Node, columns: seq<string>, prefix: string, n: nat): seq<string> {
    var cells := seq(|columns|, i requires 0 <= i < |columns| =>
      if IsAutoId(columns[i], prefix) then Tag(prefix, n) else MarkdownCell(FieldValue(node.fields, columns[i])));
    match FirstContent(columns, prefix)
    case None => cells
    case Some(first) =>
      if exists i :: 0 <= i < |columns| && !IsAutoId(columns[i], prefix) && cells[i] != "" then cells
      else cells[first := MarkdownCell(node.statement)]
  }

  function FirstContent(columns: seq<string>, prefix: string): (r: Option<nat>)
    ensures r.Some? ==> r.value < |columns| && !IsAutoId(columns[r.value], prefix)
  {
    if columns == [] then None
    else if !IsAutoId(columns[0], prefix) then Some(0)
    else match FirstContent(columns[1..], prefix)
      case None => None
      case Some(i) => Some(i + 1)
  }

  /** Blank cells get the placeholder. */
  function Filled(cells: seq<string>): seq<string> {
    seq(|cells|, i requires 0 <= i < |cells| => if cells[i] == "" then INCOMPLETE_CELL_PLACEHOLDER else cells[i])
  }

  /** A row that needs confirmation and does not say so gets the marker in its last cell. */
  function Marked(cells: seq<string>, status: string): seq<string> {
    if status == "needs_confirmation" && cells != [] && !SaysUnconfirmed(cells)
    then cells[|cells| - 1 := cells[|cells| - 1] + CONFIRMATION_MARKER]
    else cells
  }

  function TableCells(node: Node, columns: seq<string>, prefix: string, n: nat): seq<string> {
    Marked(Filled(RawCells(node, columns, prefix, n)), node.status)
  }

  function EntryText(node: Node, columns: seq<string>, prefix: string, n: nat): string {
    var statement := MarkdownCell(node.statement);
    var title := "### " + Tag(prefix, n) + ": "
      + (if statement == "" then INCOMPLETE_CELL_PLACEHOLDER else statement)
      + (if node.status == "needs_confirmation" then CONFIRMATION_MARKER else "");
    Join([title] + seq(|columns|, i requires 0 <= i < |columns| =>
      var value := MarkdownCell(FieldValue(node.fields, columns[i]));
      "- **" + columns[i] + ":** " + (if value == "" then INCOMPLETE_CELL_PLACEHOLDER else value)), "\n")
  }

  /** How a section's nodes are rendered. */
  datatype Style = Entries | Table | Lines

  function StyleOf(layout: Layout, nodes: seq<Node>): Style
    requires layout.Contract?
  {
    if layout.prefix != "" && layout.entries then Entries
    else if layout.columns != [] && (layout.prefix != "" || exists i :: 0 <= i < |nodes| && nodes[i].fields != [])
    then Table
    else Lines
  }

  /** The n-th node of a section, rendered. A tag shows in an entry's title and in a table's id column. */
  function RenderRow(layout: Layout, style: Style, node: Node, n: nat): Row
    requires layout.Contract?
  {
    var tag := if layout.prefix != "" then Some(Tag(layout.prefix, n)) else None;
    match style
    case Entries => Row(node, tag, EntryText(node, layout.columns, layout.prefix, n))
    case Table =>
      Row(node, if "id" in layout.columns then tag else None,
          MarkdownTable.Line(TableCells(node, layout.columns, layout.prefix, n)))
    case Lines => Row(node, None, LineText(node))
  }

  function RenderRows(layout: Layout, style: Style, nodes: seq<Node>): seq<Row>
    requires layout.Contract?
  {
    if nodes == [] then []
    else
      RenderRows(layout, style, nodes[..|nodes| - 1]) + [RenderRow(layout, style, nodes[|nodes| - 1], |nodes|)]
  }

  function LineRows(nodes: seq<Node>): seq<Row> {
    if nodes == [] then []
    else LineRows(nodes[..|nodes| - 1]) + [Row(nodes[|nodes| - 1], None, LineText(nodes[|nodes| - 1]))]
  }

  /** The active nodes that resolve to a heading, in graph order. */
  function Under(nodes: seq<Node>, headings: seq<string>, heading: string): seq<Node>
    requires headings != []
  {
    if nodes == [] then []
    else
      var last := nodes[|nodes| - 1];
      Under(nodes[..|nodes| - 1], headings, heading) +
        if IsActive(last) && ResolveHeading(last, headings) == heading then [last] else []
  }

  function OfKinds(nodes: seq<Node>, kinds: set<string>): seq<Node> {
    if nodes == [] then []
    else
      var last := nodes[|nodes| - 1];
      OfKinds(nodes[..|nodes| - 1], kinds) + if IsActive(last) && last.kind in kinds then [last] else []
  }

  function Parked(nodes: seq<Node>): seq<Node> {
    if nodes == [] then []
    else Parked(nodes[..|nodes| - 1]) + if IsParked(nodes[|nodes| - 1]) then [nodes[|nodes| - 1]] else []
  }

  function ContractBlock(layout: Layout, heading: string, nodes: seq<Node>): Block
    requires layout.Contract?
  {
    var style := StyleOf(layout, nodes);
    var rows := RenderRows(layout, style, nodes);
    match style
    case Entries => Block(heading, rows, [], "\n\n")
    case Table =>
      Block(heading, rows, [MarkdownTable.Line(layout.columns), MarkdownTable.Line(MarkdownTable.Dashes(|layout.columns|))], "\n")
    case Lines => Block(heading, rows, [], "\n")
  }

  function ContractBlocks(nodes: seq<Node>, layout: Layout, n: nat): seq<Block>
    requires layout.Contract? && layout.headings != [] && n <= |layout.headings|
  {
    if n == 0 then []
    else
      var heading := layout.headings[n - 1];
      var members := Under(nodes, layout.headings, heading);
      ContractBlocks(nodes, layout, n - 1) + if members == [] then [] else [ContractBlock(layout, heading, members)]
  }

  function SectionBlocks(nodes: seq<Node>, sections: seq<KindSection>): seq<Block> {
    if sections == [] then []
    else
      var last := sections[|sections| - 1];
      var members := OfKinds(nodes, last.kinds);
      SectionBlocks(nodes, sections[..|sections| - 1]) +
        if members == [] then [] else [Block("## " + last.title, LineRows(members), [], "\n")]
  }

  predicate Known(layout: Layout) {
    layout.Contract? ==> layout.headings != []
  }

  function ViewBlocks(nodes: seq<Node>, layout: Layout): seq<Block>
    requires Known(layout)
  {
    (if layout.Contract? then ContractBlocks(nodes, layout, |layout.headings|) else SectionBlocks(nodes, layout.sections))
    + (if Parked(nodes) == [] then [] else [Block(PARKED_HEADING, LineRows(Parked(nodes)), [], "\n")])
  }

  function Texts(blocks: seq<Block>): seq<string> {
    if blocks == [] then [] else Texts(blocks[..|blocks| - 1]) + [blocks[|blocks| - 1].Text()]
  }

  function View(nodes: seq<Node>, layout: Layout): string
    requires Known(layout)
  {
    Join(Texts(ViewBlocks(nodes, layout)), "\n\n")
  }

  // ----- the node map

  datatype Place = Place(section: string, tag: Option<string>)

  function Places(nodes: seq<Node>, prefix: string, heading: string): map<string, Place> {
    if nodes == [] then map[]
    else
      var before, id := Places(nodes[..|nodes| - 1], prefix, heading), Strip(nodes[|nodes| - 1].id);
      if id == "" then before
      else before[id := Place(heading, if prefix != "" then Some(Tag(prefix, |nodes|)) else None)]
  }

  /** The nodes under a heading, mapped. */
  function LocalPlaces(nodes: seq<Node>, layout: Layout, heading: string): map<string, Place>
    requires layout.Contract? && layout.headings != []
  {
    Places(Under(nodes, layout.headings, heading), layout.prefix, heading)
  }

  function ContractMap(nodes: seq<Node>, layout: Layout, n: nat): map<string, Place>
    requires layout.Contract? && layout.headings != [] && n <= |layout.headings|
  {
    if n == 0 then map[]
    else
      ContractMap(nodes, layout, n - 1) + LocalPlaces(nodes, layout, layout.headings[n - 1])
  }

  function SectionMap(nodes: seq<Node>, sections: seq<KindSection>): map<string, Place> {
    if sections == [] then map[]
    else
      var last := sections[|sections| - 1];
      SectionMap(nodes, sections[..|sections| - 1]) + Places(OfKinds(nodes, last.kinds), "", "## " + last.title)
  }

  function NodeMap(nodes: seq<Node>, layout: Layout): map<string, Place>
    requires Known(layout)
  {
    (if layout.Contract? then ContractMap(nodes, layout, |layout.headings|) else SectionMap(nodes, layout.sections))
    + Places(Parked(nodes), "", PARKED_HEADING)
  }

  // ----- the projections as the code computes them

  /** Active nodes collected under the heading each resolves to. */
  method GroupByHeading(nodes: seq<Node>, headings: seq<string>) returns (byHeading: map<string, seq<Node>>)
    requires headings != []
    ensures forall h :: h in byHeading <==> h in headings
    ensures forall h :: h in headings ==> byHeading[h] == Under(nodes, headings, h)
  {
    byHeading := map h | h in headings :: [];
    for i := 0 to |nodes|
      invariant forall h :: h in byHeading <==> h in headings
      invariant forall h :: h in headings ==> byHeading[h] == Under(nodes[..i], headings, h)
    {
      var node := nodes[i];
      assert nodes[..i + 1][..i] == nodes[..i];
      if IsActive(node) {
        var heading := ResolveHeading(node, headings);
        byHeading := byHeading[heading := byHeading[heading] + [node]];
      }
    }
    assert nodes[..|nodes|] == nodes;
  }

  method RenderContractBlocks(nodes: seq<Node>, layout: Layout) returns (blocks: seq<Block>)
    requires layout.Contract? && layout.headings != []
    ensures blocks == ContractBlocks(nodes, layout, |layout.headings|)
  {
    var byHeading := GroupByHeading(nodes, layout.headings);
    blocks := [];
    for n := 0 to |layout.headings|
      invariant blocks == ContractBlocks(nodes, layout, n)
    {
      var heading := layout.headings[n];
      assert heading in layout.headings;
      var members := byHeading[heading];
      assert members == Under(nodes, layout.headings, heading);
      if members != [] {
        blocks := blocks + [ContractBlock(layout, heading, members)];
      }
    }
  }

  method RenderSectionBlocks(nodes: seq<Node>, sections: seq<KindSection>) returns (blocks: seq<Block>)
    ensures blocks == SectionBlocks(nodes, sections)
  {
    blocks := [];
    for n := 0 to |sections|
      invariant blocks == SectionBlocks(nodes, sections[..n])
    {
      assert sections[..n + 1][..n] == sections[..n];
      var members := OfKinds(nodes, sections[n].kinds);
      if members != [] {
        blocks := blocks + [Block("## " + sections[n].title, LineRows(members), [], "\n")];
      }
    }
    assert sections[..|sections|] == sections;
  }

  method RenderView(nodes: seq<Node>, layout: Layout) returns (text: string)
    requires Known(layout)
    ensures text == View(nodes, layout)
  {
    var blocks: seq<Block>;
    if layout.Contract? {
      blocks := RenderContractBlocks(nodes, layout);
    } else {
      blocks := RenderSectionBlocks(nodes, layout.sections);
    }
    var parked := Parked(nodes);
    if parked != [] {
      blocks := blocks + [Block(PARKED_HEADING, LineRows(parked), [], "\n")];
    } else {
      assert blocks + [] == blocks;
    }
    text := Join(Texts(blocks), "\n\n");
  }

  lemma {:induction false} PlacesSnoc(nodes: seq<Node>, node: Node, prefix: string, heading: string)
    ensures Places(nodes + [node], prefix, heading) ==
      if Strip(node.id) == "" then Places(nodes, prefix, heading)
      else Places(nodes, prefix, heading)[Strip(node.id) :=
             Place(heading, if prefix != "" then Some(Tag(prefix, |nodes| + 1)) else None)]
  {
    assert (nodes + [node])[..|nodes|] == nodes;
  }

  lemma {:induction false} MergeUpdate<K, V>(a: map<K, V>, b: map<K, V>, key: K, value: V)
    ensures a + b[key := value] == (a + b)[key := value]
  {
  }

  /** Adds the places of one section, numbering its nodes from one. */
  method AddPlaces(places: map<string, Place>, nodes: seq<Node>, prefix: string, heading: string)
    returns (result: map<string, Place>)
    ensures result == places + Places(nodes, prefix, heading)
  {
    result := places;
    for index := 0 to |nodes|
      invariant result == places + Places(nodes[..index], prefix, heading)
    {
      PlacesSnoc(nodes[..index], nodes[index], prefix, heading);
      assert nodes[..index + 1] == nodes[..index] + [nodes[index]];
      var id := Strip(nodes[index].id);
      if id != "" {
        var place := Place(heading, if prefix != "" then Some(Tag(prefix, index + 1)) else None);
        MergeUpdate(places, Places(nodes[..index], prefix, heading), id, place);
        result := result[id := place];
      }
    }
    assert nodes[..|nodes|] == nodes;
  }

  method RenderNodeMap(nodes: seq<Node>, layout: Layout) returns (places: map<string, Place>)
    requires Known(layout)
    ensures places == NodeMap(nodes, layout)
  {
    places := map[];
    if layout.Contract? {
      var byHeading := GroupByHeading(nodes, layout.headings);
      for n := 0 to |layout.headings|
        invariant places == ContractMap(nodes, layout, n)
      {
        places := AddPlaces(places, byHeading[layout.headings[n]], layout.prefix, layout.headings[n]);
      }
    } else {
      for n := 0 to |layout.sections|
        invariant places == SectionMap(nodes, layout.sections[..n])
      {
        assert layout.sections[..n + 1][..n] == layout.sections[..n];
        places := AddPlaces(places, OfKinds(nodes, layout.sections[n].kinds), "", "## " + layout.sections[n].title);
      }
      assert layout.sections[..|layout.sections|] == layout.sections;
    }
    places := AddPlaces(places, Parked(nodes), "", PARKED_HEADING);
  }
}

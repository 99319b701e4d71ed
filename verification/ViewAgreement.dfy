/** The rendered view and the node map agree on where every node appears and under which tag, and what the
    text of the view shows (app/graphs/decision_graph.py). */
module ViewAgreement {
  import opened Wrappers
  import opened Text
  import opened DecisionGraph
  import opened DecisionView
  import MarkdownTable

  /** The graph is keyed by node id. */
  predicate Keyed(nodes: seq<Node>) {
    DistinctIds(nodes) && forall i :: 0 <= i < |nodes| ==> nodes[i].id != "" && Trimmed(nodes[i].id)
  }

  /** Headings are distinct, a contract with tags shows them, and no kind is in two sections. */
  ghost predicate WellFormed(layout: Layout) {
    && Known(layout)
    && (layout.Contract? ==>
          && (forall i, j :: 0 <= i < j < |layout.headings| ==> layout.headings[i] != layout.headings[j])
          && (layout.prefix != "" ==> layout.entries || "id" in layout.columns))
    && (layout.Sections? ==>
          forall i, j, k :: 0 <= i < j < |layout.sections| && k in layout.sections[i].kinds ==> k !in layout.sections[j].kinds)
  }

  /** Where a rendered row for `id` appears, in order. */
  function RowPlaces(rows: seq<Row>, heading: string, id: string): seq<Place> {
    if rows == [] then []
    else
      var last := rows[|rows| - 1];
      RowPlaces(rows[..|rows| - 1], heading, id) + if last.node.id == id then [Place(heading, last.tag)] else []
  }

  function Appearances(blocks: seq<Block>, id: string): seq<Place> {
    if blocks == [] then []
    else
      var last := blocks[|blocks| - 1];
      Appearances(blocks[..|blocks| - 1], id) + RowPlaces(last.rows, last.heading, id)
  }

  function MapPlaces(places: map<string, Place>, id: string): seq<Place> {
    if id in places then [places[id]] else []
  }

  predicate Shows(layout: Layout, style: Style)
    requires layout.Contract?
  {
    layout.prefix != "" ==> style == Entries || (style == Table && "id" in layout.columns)
  }

  lemma {:induction false} PrefixKeyed(nodes: seq<Node>)
    requires Keyed(nodes) && nodes != []
    ensures Keyed(nodes[..|nodes| - 1]) && !HasId(nodes[..|nodes| - 1], nodes[|nodes| - 1].id)
    ensures Strip(nodes[|nodes| - 1].id) == nodes[|nodes| - 1].id
  {
    StripTrimmed(nodes[|nodes| - 1].id);
  }

  lemma {:induction false} PlacesKeys(nodes: seq<Node>, prefix: string, heading: string)
    requires Keyed(nodes)
    ensures forall id :: id in Places(nodes, prefix, heading) <==> HasId(nodes, id)
    ensures forall id :: id in Places(nodes, prefix, heading) ==> Places(nodes, prefix, heading)[id].section == heading
  {
    if nodes != [] {
      var n := |nodes| - 1;
      PrefixKeyed(nodes);
      PlacesKeys(nodes[..n], prefix, heading);
      forall id ensures HasId(nodes, id) <==> HasId(nodes[..n], id) || id == nodes[n].id {
        if HasId(nodes[..n], id) {
          var i :| 0 <= i < n && nodes[..n][i].id == id;
          assert nodes[i].id == id;
        }
      }
    }
  }

  lemma {:induction false} RowPlacesSnoc(rows: seq<Row>, row: Row, heading: string, id: string)
    ensures RowPlaces(rows + [row], heading, id) ==
      RowPlaces(rows, heading, id) + if row.node.id == id then [Place(heading, row.tag)] else []
  {
    assert (rows + [row])[..|rows|] == rows;
  }

  lemma {:induction false} ShownTag(layout: Layout, style: Style, node: Node, n: nat)
    requires layout.Contract? && Shows(layout, style)
    ensures var row := RenderRow(layout, style, node, n);
      row.node == node && row.tag == if layout.prefix != "" then Some(Tag(layout.prefix, n)) else None
  {
  }

  lemma {:induction false} SectionAgrees(layout: Layout, style: Style, nodes: seq<Node>, heading: string, id: string)
    requires layout.Contract? && Shows(layout, style) && Keyed(nodes)
    ensures RowPlaces(RenderRows(layout, style, nodes), heading, id) == MapPlaces(Places(nodes, layout.prefix, heading), id)
  {
    if nodes != [] {
      var n := |nodes| - 1;
      PrefixKeyed(nodes);
      SectionAgrees(layout, style, nodes[..n], heading, id);
      PlacesKeys(nodes[..n], layout.prefix, heading);
      ShownTag(layout, style, nodes[n], n + 1);
      RowPlacesSnoc(RenderRows(layout, style, nodes[..n]), RenderRow(layout, style, nodes[n], n + 1), heading, id);
    }
  }

  lemma {:induction false} LinesAgree(nodes: seq<Node>, heading: string, id: string)
    requires Keyed(nodes)
    ensures RowPlaces(LineRows(nodes), heading, id) == MapPlaces(Places(nodes, "", heading), id)
  {
    if nodes != [] {
      var n := |nodes| - 1;
      PrefixKeyed(nodes);
      LinesAgree(nodes[..n], heading, id);
      PlacesKeys(nodes[..n], "", heading);
      RowPlacesSnoc(LineRows(nodes[..n]), Row(nodes[n], None, LineText(nodes[n])), heading, id);
    }
  }

  /** Which nodes each selection holds, and that it stays keyed. */
  lemma {:induction false} SelectionsKeyed(nodes: seq<Node>, headings: seq<string>, heading: string, kinds: set<string>)
    requires Keyed(nodes) && headings != []
    ensures Keyed(Under(nodes, headings, heading)) && Keyed(OfKinds(nodes, kinds)) && Keyed(Parked(nodes))
    ensures forall m :: m in Under(nodes, headings, heading) <==>
      m in nodes && IsActive(m) && ResolveHeading(m, headings) == heading
    ensures forall m :: m in OfKinds(nodes, kinds) <==> m in nodes && IsActive(m) && m.kind in kinds
    ensures forall m :: m in Parked(nodes) <==> m in nodes && IsParked(m)
  {
    if nodes != [] {
      var n := |nodes| - 1;
      PrefixKeyed(nodes);
      SelectionsKeyed(nodes[..n], headings, heading, kinds);
      assert forall m :: m in nodes <==> m in nodes[..n] || m == nodes[n];
      forall m | m in nodes[..n] ensures m.id != nodes[n].id {}
      KeyedSnoc(Under(nodes[..n], headings, heading), nodes[n]);
      KeyedSnoc(OfKinds(nodes[..n], kinds), nodes[n]);
      KeyedSnoc(Parked(nodes[..n]), nodes[n]);
    }
  }

  lemma {:induction false} KeyedSnoc(nodes: seq<Node>, last: Node)
    requires Keyed(nodes) && last.id != "" && Trimmed(last.id) && forall m :: m in nodes ==> m.id != last.id
    ensures Keyed(nodes + [last])
  {
    forall i | 0 <= i < |nodes| ensures nodes[i] in nodes {}
  }

  lemma {:induction false} SameId(nodes: seq<Node>, a: Node, b: Node)
    requires DistinctIds(nodes) && a in nodes && b in nodes && a.id == b.id
    ensures a == b
  {
  }

  /** Among members of a keyed graph, a node is found by its id exactly when it is one of them. */
  lemma {:induction false} MemberById(nodes: seq<Node>, members: seq<Node>, node: Node)
    requires Keyed(nodes) && node in nodes && forall m :: m in members ==> m in nodes
    ensures HasId(members, node.id) <==> node in members
  {
    if HasId(members, node.id) {
      var i :| 0 <= i < |members| && members[i].id == node.id;
      SameId(nodes, members[i], node);
    }
  }

  lemma {:induction false} AppearancesAppend(a: seq<Block>, b: seq<Block>, id: string)
    ensures Appearances(a + b, id) == Appearances(a, id) + Appearances(b, id)
    decreases |b|
  {
    if b == [] {
      assert a + b == a;
    } else {
      var init, last := b[..|b| - 1], b[|b| - 1];
      AppearancesAppend(a, init, id);
      InitOfAppend(a, b);
      Associates(Appearances(a, id), Appearances(init, id), RowPlaces(last.rows, last.heading, id));
    }
  }

  /** Adding a section to both projections keeps them agreeing. */
  lemma {:induction false} AddSection(blocks: seq<Block>, places: map<string, Place>, more: seq<Block>,
                                      local: map<string, Place>, id: string)
    requires Appearances(blocks, id) == MapPlaces(places, id) && Appearances(more, id) == MapPlaces(local, id)
    requires !(id in places && id in local)
    ensures Appearances(blocks + more, id) == MapPlaces(places + local, id)
  {
    AppearancesAppend(blocks, more, id);
  }

  lemma {:induction false} OneBlock(block: Block, id: string)
    ensures Appearances([block], id) == RowPlaces(block.rows, block.heading, id)
  {
    assert [block][..0] == [];
  }

  function ContractSection(nodes: seq<Node>, layout: Layout, heading: string): seq<Block>
    requires layout.Contract? && layout.headings != []
  {
    var members := Under(nodes, layout.headings, heading);
    if members == [] then [] else [ContractBlock(layout, heading, members)]
  }

  lemma {:induction false} ContractSectionAgrees(nodes: seq<Node>, layout: Layout, heading: string, node: Node)
    requires Keyed(nodes) && WellFormed(layout) && layout.Contract? && node in nodes
    ensures var places := LocalPlaces(nodes, layout, heading);
      && Appearances(ContractSection(nodes, layout, heading), node.id) == MapPlaces(places, node.id)
      && (node.id in places <==> IsActive(node) && ResolveHeading(node, layout.headings) == heading)
      && (node.id in places ==> places[node.id].section == heading)
  {
    var members := Under(nodes, layout.headings, heading);
    SelectionsKeyed(nodes, layout.headings, heading, {});
    PlacesKeys(members, layout.prefix, heading);
    MemberById(nodes, members, node);
    if members != [] {
      SectionAgrees(layout, StyleOf(layout, members), members, heading, node.id);
      OneBlock(ContractBlock(layout, heading, members), node.id);
    }
  }

  /** After `n` headings what appears is what is mapped, for the active nodes that resolve to them. */
  ghost predicate AgreesAfter(nodes: seq<Node>, layout: Layout, n: nat, node: Node)
    requires layout.Contract? && layout.headings != [] && n <= |layout.headings|
  {
    var places := ContractMap(nodes, layout, n);
    && Appearances(ContractBlocks(nodes, layout, n), node.id) == MapPlaces(places, node.id)
    && (node.id in places <==> IsActive(node) && ResolveHeading(node, layout.headings) in layout.headings[..n])
    && (node.id in places ==> places[node.id].section == ResolveHeading(node, layout.headings))
  }

  lemma {:induction false} AnotherBlock(nodes: seq<Node>, layout: Layout, n: nat)
    requires layout.Contract? && layout.headings != [] && 0 < n <= |layout.headings|
    ensures ContractBlocks(nodes, layout, n) ==
      ContractBlocks(nodes, layout, n - 1) + ContractSection(nodes, layout, layout.headings[n - 1])
  {
  }

  lemma {:induction false} AnotherHeading(nodes: seq<Node>, layout: Layout, m: nat, n: nat)
    requires layout.Contract? && layout.headings != [] && m < n <= |layout.headings| && m == n - 1
    ensures var heading := layout.headings[m];
      && ContractBlocks(nodes, layout, n) == ContractBlocks(nodes, layout, m) + ContractSection(nodes, layout, heading)
      && ContractMap(nodes, layout, n) == ContractMap(nodes, layout, m) + LocalPlaces(nodes, layout, heading)
      && layout.headings[..n] == layout.headings[..m] + [heading]
  {
    AnotherBlock(nodes, layout, n);
  }

  lemma {:induction false} AnotherHeadingAgrees(nodes: seq<Node>, layout: Layout, m: nat, n: nat, node: Node)
    requires Keyed(nodes) && WellFormed(layout) && layout.Contract? && m < n <= |layout.headings| && node in nodes
    requires m == n - 1 && AgreesAfter(nodes, layout, m, node)
    ensures AgreesAfter(nodes, layout, n, node)
  {
    var heading := layout.headings[m];
    AnotherHeading(nodes, layout, m, n);
    ContractSectionAgrees(nodes, layout, heading, node);
    assert heading !in layout.headings[..m];
    AddSection(ContractBlocks(nodes, layout, m), ContractMap(nodes, layout, m), ContractSection(nodes, layout, heading),
               LocalPlaces(nodes, layout, heading), node.id);
  }

  lemma {:induction false} NoHeadingAgrees(nodes: seq<Node>, layout: Layout, n: nat, node: Node)
    requires layout.Contract? && layout.headings != [] && n == 0
    ensures AgreesAfter(nodes, layout, n, node)
  {
  }

  lemma {:induction false} ContractAgrees(nodes: seq<Node>, layout: Layout, n: nat, node: Node)
    requires Keyed(nodes) && WellFormed(layout) && layout.Contract? && n <= |layout.headings| && node in nodes
    ensures AgreesAfter(nodes, layout, n, node)
    decreases n
  {
    if n == 0 {
      NoHeadingAgrees(nodes, layout, n, node);
    } else {
      var m := n - 1;
      ContractAgrees(nodes, layout, m, node);
      AnotherHeadingAgrees(nodes, layout, m, n, node);
    }
  }

  function LineSection(members: seq<Node>, heading: string): seq<Block> {
    if members == [] then [] else [Block(heading, LineRows(members), [], "\n")]
  }

  lemma {:induction false} LineSectionAgrees(nodes: seq<Node>, members: seq<Node>, heading: string, node: Node)
    requires Keyed(nodes) && Keyed(members) && node in nodes && forall m :: m in members ==> m in nodes
    ensures Appearances(LineSection(members, heading), node.id) == MapPlaces(Places(members, "", heading), node.id)
    ensures node.id in Places(members, "", heading) <==> node in members
    ensures node in members ==> Places(members, "", heading)[node.id] == Place(heading, None)
  {
    PlacesKeys(members, "", heading);
    PlainPlaces(members, heading);
    MemberById(nodes, members, node);
    LinesAgree(members, heading, node.id);
    if members != [] {
      OneBlock(Block(heading, LineRows(members), [], "\n"), node.id);
    }
  }

  /** The first `n` sections have one for the node's kind. */
  predicate Covered(layout: Layout, n: nat, kind: string)
    requires layout.Sections? && n <= |layout.sections|
  {
    exists i :: 0 <= i < n && kind in layout.sections[i].kinds
  }

  /** The place is that of every section among the first `n` that has the kind. */
  predicate InSectionBefore(layout: Layout, n: nat, kind: string, place: Place)
    requires layout.Sections? && n <= |layout.sections|
  {
    forall i :: 0 <= i < n && kind in layout.sections[i].kinds ==> place == Place("## " + layout.sections[i].title, None)
  }

  lemma {:induction false} CoveredByOne(layout: Layout, n: nat, kind: string)
    requires WellFormed(layout) && layout.Sections? && 0 < n <= |layout.sections|
    ensures Covered(layout, n, kind) <==> Covered(layout, n - 1, kind) || kind in layout.sections[n - 1].kinds
    ensures !(Covered(layout, n - 1, kind) && kind in layout.sections[n - 1].kinds)
  {
  }

  lemma {:induction false} SectionsAgree(nodes: seq<Node>, layout: Layout, n: nat, node: Node)
    requires Keyed(nodes) && WellFormed(layout) && layout.Sections? && n <= |layout.sections| && node in nodes
    ensures var sections := layout.sections[..n]; var places := SectionMap(nodes, sections);
      && Appearances(SectionBlocks(nodes, sections), node.id) == MapPlaces(places, node.id)
      && (node.id in places <==> IsActive(node) && Covered(layout, n, node.kind))
      && (node.id in places ==> InSectionBefore(layout, n, node.kind, places[node.id]))
  {
    if n > 0 {
      var last := layout.sections[n - 1];
      var heading, members := "## " + last.title, OfKinds(nodes, last.kinds);
      CoveredByOne(layout, n, node.kind);
      assert layout.sections[..n][..n - 1] == layout.sections[..n - 1];
      SectionsAgree(nodes, layout, n - 1, node);
      SelectionsKeyed(nodes, [""], "", last.kinds);
      LineSectionAgrees(nodes, members, heading, node);
      AddSection(SectionBlocks(nodes, layout.sections[..n - 1]), SectionMap(nodes, layout.sections[..n - 1]),
                 LineSection(members, heading), Places(members, "", heading), node.id);
      assert SectionBlocks(nodes, layout.sections[..n])
          == SectionBlocks(nodes, layout.sections[..n - 1]) + LineSection(members, heading);
    }
  }

  lemma {:induction false} PlainPlaces(nodes: seq<Node>, heading: string)
    requires Keyed(nodes)
    ensures forall id :: id in Places(nodes, "", heading) ==> Places(nodes, "", heading)[id] == Place(heading, None)
  {
    if nodes != [] {
      PrefixKeyed(nodes);
      PlainPlaces(nodes[..|nodes| - 1], heading);
    }
  }

  /** Whether the layout has a section for an active node. */
  predicate HasSection(layout: Layout, node: Node) {
    layout.Sections? ==> Covered(layout, |layout.sections|, node.kind)
  }

  /** The body of the view, without its parked section, agrees with the map. */
  lemma {:induction false} BodyAgrees(nodes: seq<Node>, layout: Layout, node: Node)
    requires Keyed(nodes) && WellFormed(layout) && node in nodes
    ensures var body := if layout.Contract? then ContractBlocks(nodes, layout, |layout.headings|) else SectionBlocks(nodes, layout.sections);
      var places := if layout.Contract? then ContractMap(nodes, layout, |layout.headings|) else SectionMap(nodes, layout.sections);
      && Appearances(body, node.id) == MapPlaces(places, node.id)
      && (node.id in places <==> IsActive(node) && HasSection(layout, node))
      && (node.id in places ==> InItsSection(layout, node, places[node.id]))
  {
    if layout.Contract? {
      ContractAgrees(nodes, layout, |layout.headings|, node);
      assert layout.headings[..|layout.headings|] == layout.headings;
    } else {
      SectionsAgree(nodes, layout, |layout.sections|, node);
      assert layout.sections[..|layout.sections|] == layout.sections;
    }
  }

  /** The place is the heading the node resolves to, or the section of its kind. */
  predicate InItsSection(layout: Layout, node: Node, place: Place)
    requires Known(layout)
  {
    if layout.Contract? then place.section == ResolveHeading(node, layout.headings)
    else InSectionBefore(layout, |layout.sections|, node.kind, place)
  }

  /** Main result: a node appears in the view exactly where the map says, with the tag the map says; it
      appears once if it is parked, or active with a section, and otherwise not at all. */
  lemma {:induction false} ViewAgreesWithMap(nodes: seq<Node>, layout: Layout, node: Node)
    requires Keyed(nodes) && WellFormed(layout) && node in nodes
    ensures var places := NodeMap(nodes, layout);
      && Appearances(ViewBlocks(nodes, layout), node.id) == MapPlaces(places, node.id)
      && (node.id in places <==> IsParked(node) || (IsActive(node) && HasSection(layout, node)))
      && (IsParked(node) ==> places[node.id] == Place(PARKED_HEADING, None))
      && (IsActive(node) && HasSection(layout, node) ==> InItsSection(layout, node, places[node.id]))
  {
    var parked := Parked(nodes);
    SelectionsKeyed(nodes, [""], "", {});
    BodyAgrees(nodes, layout, node);
    LineSectionAgrees(nodes, parked, PARKED_HEADING, node);
    var body := if layout.Contract? then ContractBlocks(nodes, layout, |layout.headings|) else SectionBlocks(nodes, layout.sections);
    var places := if layout.Contract? then ContractMap(nodes, layout, |layout.headings|) else SectionMap(nodes, layout.sections);
    AddSection(body, places, LineSection(parked, PARKED_HEADING), Places(parked, "", PARKED_HEADING), node.id);
  }

  /** What that means for each status: a confirmed, inferred or unconfirmed node with a section appears once, in its
      section; a parked one appears once, under the parked heading; any other appears nowhere. */
  lemma {:induction false} StatusDecides(nodes: seq<Node>, layout: Layout, node: Node)
    requires Keyed(nodes) && WellFormed(layout) && node in nodes
    ensures var places := Appearances(ViewBlocks(nodes, layout), node.id);
      if node.status == "parked" then places == [Place("## Parked", None)]
      else if (node.status == "confirmed" || node.status == "inferred" || node.status == "needs_confirmation") && HasSection(layout, node)
      then |places| == 1 && InItsSection(layout, node, places[0])
      else places == []
  {
    ViewAgreesWithMap(nodes, layout, node);
  }

  // ----- tags

  lemma {:induction false} PlacesTags(nodes: seq<Node>, prefix: string, heading: string, id: string) returns (k: nat)
    requires Keyed(nodes) && prefix != "" && id in Places(nodes, prefix, heading)
    ensures k < |nodes| && nodes[k].id == id && Places(nodes, prefix, heading)[id].tag == Some(Tag(prefix, k + 1))
  {
    var n := |nodes| - 1;
    PrefixKeyed(nodes);
    if nodes[n].id == id {
      k := n;
    } else {
      k := PlacesTags(nodes[..n], prefix, heading, id);
    }
  }

  lemma {:induction false} PlacesSection(nodes: seq<Node>, prefix: string, heading: string, id: string)
    requires id in Places(nodes, prefix, heading)
    ensures Places(nodes, prefix, heading)[id].section == heading
  {
    if Strip(nodes[|nodes| - 1].id) != id || id == "" {
      PlacesSection(nodes[..|nodes| - 1], prefix, heading, id);
    }
  }

  function Merged<K, V>(maps: seq<map<K, V>>): map<K, V> {
    if maps == [] then map[] else Merged(maps[..|maps| - 1]) + maps[|maps| - 1]
  }

  lemma {:induction false} MergedSnoc<K, V>(maps: seq<map<K, V>>, last: map<K, V>)
    ensures Merged(maps + [last]) == Merged(maps) + last
  {
    assert (maps + [last])[..|maps|] == maps;
  }

  lemma {:induction false} MergedSource<K, V>(maps: seq<map<K, V>>, key: K) returns (k: nat)
    requires key in Merged(maps)
    ensures k < |maps| && key in maps[k] && Merged(maps)[key] == maps[k][key]
  {
    k := |maps| - 1;
    if key !in maps[k] {
      k := MergedSource(maps[..k], key);
    }
  }

  /** The local maps of the first `n` headings. */
  function LocalMaps(nodes: seq<Node>, layout: Layout, n: nat): (maps: seq<map<string, Place>>)
    requires layout.Contract? && layout.headings != [] && n <= |layout.headings|
    ensures |maps| == n && forall k :: 0 <= k < n ==> maps[k] == LocalPlaces(nodes, layout, layout.headings[k])
  {
    seq(n, k requires 0 <= k < n => LocalPlaces(nodes, layout, layout.headings[k]))
  }

  lemma {:induction false} LocalMapsSnoc(nodes: seq<Node>, layout: Layout, m: nat, n: nat)
    requires layout.Contract? && layout.headings != [] && m < n <= |layout.headings| && m == n - 1
    ensures LocalMaps(nodes, layout, n) == LocalMaps(nodes, layout, m) + [LocalPlaces(nodes, layout, layout.headings[m])]
  {
  }

  /** The node map is the local maps of the headings merged in order. */
  lemma {:induction false} ContractMapMerges(nodes: seq<Node>, layout: Layout, n: nat)
    requires layout.Contract? && layout.headings != [] && n <= |layout.headings|
    ensures Merged(LocalMaps(nodes, layout, n)) == ContractMap(nodes, layout, n)
    decreases n
  {
    if n > 0 {
      var m := n - 1;
      ContractMapMerges(nodes, layout, m);
      AnotherHeading(nodes, layout, m, n);
      LocalMapsSnoc(nodes, layout, m, n);
      MergedSnoc(LocalMaps(nodes, layout, m), LocalPlaces(nodes, layout, layout.headings[m]));
    }
  }

  /** A node is mapped to its place among the nodes of the heading it is mapped under. */
  lemma {:induction false} ContractPlaceIsLocal(nodes: seq<Node>, layout: Layout, n: nat, id: string, place: Place)
    requires layout.Contract? && layout.headings != [] && n <= |layout.headings|
    requires id in ContractMap(nodes, layout, n) && ContractMap(nodes, layout, n)[id] == place
    ensures id in LocalPlaces(nodes, layout, place.section)
    ensures LocalPlaces(nodes, layout, place.section)[id] == place
  {
    ContractMapMerges(nodes, layout, n);
    var k := MergedSource(LocalMaps(nodes, layout, n), id);
    PlacesSection(Under(nodes, layout.headings, layout.headings[k]), layout.prefix, layout.headings[k], id);
  }

  /** Under one heading no two nodes share a tag. */
  lemma {:induction false} TagsDistinct(members: seq<Node>, prefix: string, heading: string, a: string, b: string)
    requires Keyed(members) && prefix != ""
    requires var places := Places(members, prefix, heading); a in places && b in places && places[a] == places[b]
    ensures a == b
  {
    var i := PlacesTags(members, prefix, heading, a);
    var j := PlacesTags(members, prefix, heading, b);
    assert Some(Tag(prefix, i + 1)) == Some(Tag(prefix, j + 1));
    TagInjective(prefix, i + 1, j + 1);
    assert members[i] == members[j];
  }

  /** In the whole map no two nodes share a section and a tag. */
  lemma {:induction false} TagsAreUnique(nodes: seq<Node>, layout: Layout, a: string, b: string)
    requires Keyed(nodes) && WellFormed(layout) && layout.Contract? && layout.prefix != ""
    requires var places := ContractMap(nodes, layout, |layout.headings|);
      a in places && b in places && places[a] == places[b]
    ensures a == b
  {
    var place := ContractMap(nodes, layout, |layout.headings|)[a];
    var heading := place.section;
    ContractPlaceIsLocal(nodes, layout, |layout.headings|, a, place);
    ContractPlaceIsLocal(nodes, layout, |layout.headings|, b, place);
    SelectionsKeyed(nodes, layout.headings, heading, {});
    TagsDistinct(Under(nodes, layout.headings, heading), layout.prefix, heading, a, b);
  }

  lemma {:induction false} EntryStartsWithTag(node: Node, columns: seq<string>, prefix: string, n: nat)
    ensures StartsWith(EntryText(node, columns, prefix, n), "### " + Tag(prefix, n) + ": ")
  {
    var statement := MarkdownCell(node.statement);
    var title := "### " + Tag(prefix, n) + ": "
      + (if statement == "" then INCOMPLETE_CELL_PLACEHOLDER else statement)
      + (if node.status == "needs_confirmation" then CONFIRMATION_MARKER else "");
    assert "### " + Tag(prefix, n) + ": " <= title <= EntryText(node, columns, prefix, n);
  }

  lemma {:induction false} IdCellStartsWithTag(node: Node, columns: seq<string>, prefix: string, n: nat, i: nat)
    requires prefix != "" && i < |columns| && columns[i] == "id"
    ensures var cells := TableCells(node, columns, prefix, n);
      |cells| == |columns| && StartsWith(cells[i], Tag(prefix, n))
  {
    var raw := RawCells(node, columns, prefix, n);
    assert IsAutoId(columns[i], prefix);
    assert |raw| == |columns| && raw[i] == Tag(prefix, n) != "";
  }

  /** A row's tag is in its text: at the head of an entry's title, or of the cell in the id column. */
  lemma {:induction false} TagIsShown(layout: Layout, style: Style, node: Node, n: nat)
    requires layout.Contract? && RenderRow(layout, style, node, n).tag.Some?
    ensures var row := RenderRow(layout, style, node, n);
      && row.tag == Some(Tag(layout.prefix, n))
      && (style == Entries ==> StartsWith(row.text, "### " + row.tag.value + ": "))
      && (style == Table ==>
            var cells := TableCells(node, layout.columns, layout.prefix, n);
            row.text == MarkdownTable.Line(cells) && |cells| == |layout.columns|
            && forall i :: 0 <= i < |cells| && layout.columns[i] == "id" ==> StartsWith(cells[i], row.tag.value))
  {
    match style {
      case Entries => EntryStartsWithTag(node, layout.columns, layout.prefix, n);
      case Table =>
        forall i | 0 <= i < |layout.columns| && layout.columns[i] == "id"
          ensures StartsWith(TableCells(node, layout.columns, layout.prefix, n)[i], Tag(layout.prefix, n))
        {
          IdCellStartsWithTag(node, layout.columns, layout.prefix, n, i);
        }
      case Lines =>
    }
  }

  lemma {:induction false} MarkedMentions(cells: seq<string>)
    requires cells != []
    ensures SaysUnconfirmed(Marked(cells, "needs_confirmation"))
  {
    if !SaysUnconfirmed(cells) {
      var last := |cells| - 1;
      MarkerMentions(cells[last]);
      assert Marked(cells, "needs_confirmation")[last] == cells[last] + CONFIRMATION_MARKER;
    }
  }

  lemma {:induction false} FieldsOpenCells(node: Node, columns: seq<string>, prefix: string, n: nat, i: nat)
    requires i < |columns| && !IsAutoId(columns[i], prefix)
    ensures var raw := RawCells(node, columns, prefix, n); var field := MarkdownCell(FieldValue(node.fields, columns[i]));
      |raw| == |columns| && (field != "" ==> raw[i] == field)
  {
  }

  /** Placeholders and markers only add to a cell. */
  lemma {:induction false} DressingKeepsCells(cells: seq<string>, status: string, i: nat)
    requires i < |cells|
    ensures var dressed := Marked(Filled(cells), status);
      |dressed| == |cells| && dressed[i] != "" && StartsWith(dressed[i], cells[i])
  {
    var filled := Filled(cells);
    assert filled[i] != "" && StartsWith(filled[i], cells[i]);
  }

  /** A row's cells show its fields: a field with content opens its cell, and no cell is blank. */
  lemma {:induction false} CellsShowFields(node: Node, columns: seq<string>, prefix: string, n: nat, i: nat)
    requires i < |columns|
    ensures var cells := TableCells(node, columns, prefix, n);
      && |cells| == |columns| && cells[i] != ""
      && var field := MarkdownCell(FieldValue(node.fields, columns[i]));
         (!IsAutoId(columns[i], prefix) && field != "" ==> StartsWith(cells[i], field))
  {
    var raw := RawCells(node, columns, prefix, n);
    assert |raw| == |columns|;
    DressingKeepsCells(raw, node.status, i);
    if !IsAutoId(columns[i], prefix) {
      FieldsOpenCells(node, columns, prefix, n, i);
    }
  }

  /** A row that needs confirmation says so in some cell. */
  lemma {:induction false} ConfirmationIsShown(node: Node, columns: seq<string>, prefix: string, n: nat)
    requires node.status == "needs_confirmation" && columns != []
    ensures SaysUnconfirmed(TableCells(node, columns, prefix, n))
  {
    MarkedMentions(Filled(RawCells(node, columns, prefix, n)));
  }

  lemma {:induction false} MarkerMentions(cell: string)
    ensures MentionsConfirmation(cell + CONFIRMATION_MARKER)
  {
    var before := Lower(cell) + " \U{26A0}\U{FE0F} ";
    assert Lower(cell + CONFIRMATION_MARKER) == before + "needs confirmation" + "";
    ContainsMiddle(before, "needs confirmation", "");
  }

  lemma {:induction false} TextsAt(blocks: seq<Block>, b: nat)
    requires b < |blocks|
    ensures |Texts(blocks)| == |blocks| && Texts(blocks)[b] == blocks[b].Text()
  {
    if b < |blocks| - 1 {
      TextsAt(blocks[..|blocks| - 1], b);
    } else if b > 0 {
      TextsAt(blocks[..|blocks| - 1], b - 1);
    }
  }

  lemma {:induction false} BlockIsShown(blocks: seq<Block>, b: nat, r: nat)
    requires b < |blocks| && r < |blocks[b].rows|
    ensures Contains(Join(Texts(blocks), "\n\n"), blocks[b].Text())
    ensures Contains(Join(Texts(blocks), "\n\n"), blocks[b].rows[r].text)
  {
    var block := blocks[b];
    TextsAt(blocks, b);
    var x, y := JoinHolds(Texts(blocks), "\n\n", b);
    ContainsMiddle(x, block.Text(), y);
    var p, q := JoinHolds(block.intro + RowTexts(block), block.separator, |block.intro| + r);
    ContainsNested(Join(Texts(blocks), "\n\n"), x, block.Text(), y, block.heading + "\n", p, block.rows[r].text, q);
  }

  /** Whatever the blocks hold is in the rendered text: each block from its heading on, and every row. */
  lemma {:induction false} RowIsInView(nodes: seq<Node>, layout: Layout, b: nat, r: nat)
    requires Known(layout) && b < |ViewBlocks(nodes, layout)| && r < |ViewBlocks(nodes, layout)[b].rows|
    ensures var block := ViewBlocks(nodes, layout)[b];
      && Contains(View(nodes, layout), block.Text()) && Contains(View(nodes, layout), block.rows[r].text)
      && StartsWith(block.Text(), block.heading + "\n")
  {
    BlockIsShown(ViewBlocks(nodes, layout), b, r);
  }

  lemma {:induction false} LayoutsDisjoint(sections: seq<KindSection>)
    requires sections == BRD_SECTIONS || sections == PRD_SECTIONS
    ensures WellFormed(Sections(sections))
  {
  }

  lemma {:induction false} LayoutsCover(sections: seq<KindSection>, kind: string)
    requires sections == BRD_SECTIONS || sections == PRD_SECTIONS
    ensures Covered(Sections(sections), |sections|, kind) <==> kind in VALID_KINDS
  {
    if kind in VALID_KINDS {
      assert kind in sections[0].kinds || kind in sections[1].kinds || kind in sections[2].kinds
        || kind in sections[3].kinds || kind in sections[4].kinds || kind in sections[5].kinds
        || kind in sections[|sections| - 1].kinds;
    }
  }

  /** The two section layouts are well formed and have a section for every valid kind, and for no other. */
  lemma {:induction false} SectionLayouts(sections: seq<KindSection>, node: Node)
    requires sections == BRD_SECTIONS || sections == PRD_SECTIONS
    ensures WellFormed(Sections(sections))
    ensures HasSection(Sections(sections), node) <==> node.kind in VALID_KINDS
  {
    LayoutsDisjoint(sections);
    LayoutsCover(sections, node.kind);
  }

  /** The section of a kind in a container view. */
  function SectionTitle(prd: bool, kind: string): string {
    if kind == "scope" then "Scope"
    else if kind == "assumption" then "Assumptions"
    else if kind == "risk" then "Risks"
    else if kind == "open_question" then "Open Questions"
    else if kind == "objective" then if prd then "Objectives" else "Vision & Objectives"
    else if prd then "Business Rules"
    else if kind == "decision" then "Decisions" else "Facts"
  }

  /** Where a mapped node of each kind is: a PRD folds decisions and facts into its business rules. */
  lemma {:induction false} SectionOfKind(prd: bool, kind: string, place: Place)
    requires kind in VALID_KINDS
    requires var sections := if prd then PRD_SECTIONS else BRD_SECTIONS; InSectionBefore(Sections(sections), |sections|, kind, place)
    ensures place == Place("## " + SectionTitle(prd, kind), None)
  {
    var sections := if prd then PRD_SECTIONS else BRD_SECTIONS;
    LayoutsCover(sections, kind);
    var i :| 0 <= i < |sections| && kind in sections[i].kinds;
    assert sections[i].title == SectionTitle(prd, kind);
  }

  lemma {:induction false} NoneOfKinds(node: Node, kinds: set<string>)
    requires node.kind !in kinds
    ensures OfKinds([node], kinds) == []
  {
    assert [node][..0] == [];
  }

  lemma {:induction false} NoBlocks(node: Node, sections: seq<KindSection>)
    requires forall section :: section in sections ==> node.kind !in section.kinds
    ensures SectionBlocks([node], sections) == []
  {
    if sections != [] {
      var n := |sections| - 1;
      NoBlocks(node, sections[..n]);
      NoneOfKinds(node, sections[n].kinds);
    }
  }

  lemma {:induction false} NoPlaces(node: Node, sections: seq<KindSection>)
    requires forall section :: section in sections ==> node.kind !in section.kinds
    ensures SectionMap([node], sections) == map[]
  {
    if sections != [] {
      var n := |sections| - 1;
      NoPlaces(node, sections[..n]);
      NoneOfKinds(node, sections[n].kinds);
    }
  }

  lemma {:induction false} NotParked(node: Node)
    requires !IsParked(node)
    ensures Parked([node]) == []
  {
    assert [node][..0] == [];
  }

  /** An active node of an unknown kind: nothing is rendered, nothing is mapped. */
  lemma {:induction false} UnknownKindIsDropped(sections: seq<KindSection>, node: Node)
    requires sections == BRD_SECTIONS || sections == PRD_SECTIONS
    requires IsActive(node) && node.kind !in VALID_KINDS
    ensures View([node], Sections(sections)) == "" && NodeMap([node], Sections(sections)) == map[]
  {
    LayoutsCover(sections, node.kind);
    forall section | section in sections ensures node.kind !in section.kinds {
      var i :| 0 <= i < |sections| && sections[i] == section;
      assert !Covered(Sections(sections), |sections|, node.kind);
    }
    NoBlocks(node, sections);
    NoPlaces(node, sections);
    NotParked(node);
  }

  /** There is such a node. */
  lemma {:induction false} SomeNodeIsDropped() returns (node: Node)
    ensures IsActive(node) && Keyed([node])
    ensures View([node], Sections(BRD_SECTIONS)) == "" && NodeMap([node], Sections(BRD_SECTIONS)) == map[]
    ensures View([node], Sections(PRD_SECTIONS)) == "" && NodeMap([node], Sections(PRD_SECTIONS)) == map[]
  {
    node := Node("n", "metric", "a", "confirmed", "", []);
    UnknownKindIsDropped(BRD_SECTIONS, node);
    UnknownKindIsDropped(PRD_SECTIONS, node);
  }

  // ----- the contracts with tags

  /** The output contracts whose items carry trace tags. */
  function TaggedContract(itemType: string): Option<Layout> {
    if itemType == "functional_requirement" then
      Some(Contract(["## Functional Requirements"],
                    ["id", "requirement", "behavior", "inputs/outputs", "acceptance signal", "priority", "dependencies"],
                    "FR", false))
    else if itemType == "use_case" then
      Some(Contract(["## Business Capabilities"], ["goal", "user_segment", "business_value", "scope"], "BC", true))
    else if itemType == "non_functional_requirement" then
      Some(Contract(["## Non-Functional Requirements"],
                    ["id", "quality attribute", "requirement", "measurement", "scope/tradeoff"], "NFR", false))
    else if itemType == "domain_event" then
      Some(Contract(["## Domain Events", "## Hotspots"], ["trigger", "triggered by", "downstream effects"], "EVT", true))
    else if itemType == "actor_command" then
      Some(Contract(["## Actors and Commands"], ["id", "actor", "command", "precondition", "resulting event", "flow"],
                    "CMD", false))
    else if itemType == "policy" then
      Some(Contract(["## Policies"], ["when", "then", "crosses aggregate boundary", "flow"], "POL", true))
    else if itemType == "aggregate" then
      Some(Contract(["## Aggregates"], ["responsibilities", "commands handled", "events emitted", "invariants", "flows"],
                    "AGG", true))
    else None
  }

  /** Each is well formed, so that its view agrees with its map and its tags are unique and shown. */
  lemma {:induction false} TaggedContractsWellFormed(itemType: string)
    requires TaggedContract(itemType).Some?
    ensures var layout := TaggedContract(itemType).value;
      WellFormed(layout) && layout.Contract? && layout.prefix != "" && forall nodes :: Shows(layout, StyleOf(layout, nodes))
  {
    var layout := TaggedContract(itemType).value;
    assert layout.entries || layout.columns[0] == "id";
  }

  /** The item type whose tags begin with `initial`. */
  function TypeOfInitial(initial: char): string {
    match initial
    case 'F' => "functional_requirement"
    case 'B' => "use_case"
    case 'N' => "non_functional_requirement"
    case 'E' => "domain_event"
    case 'C' => "actor_command"
    case 'P' => "policy"
    case _ => "aggregate"
  }

  lemma {:induction false} InitialTellsType(itemType: string)
    requires TaggedContract(itemType).Some?
    ensures var prefix := TaggedContract(itemType).value.prefix; prefix != "" && TypeOfInitial(prefix[0]) == itemType
  {
  }

  /** A tag tells which item it belongs to: its type, and its number within its section. */
  lemma {:induction false} TagTellsItem(a: string, b: string, m: nat, n: nat)
    requires TaggedContract(a).Some? && TaggedContract(b).Some?
    requires Tag(TaggedContract(a).value.prefix, m) == Tag(TaggedContract(b).value.prefix, n)
    ensures a == b && m == n
  {
    var p, q := TaggedContract(a).value.prefix, TaggedContract(b).value.prefix;
    InitialTellsType(a);
    InitialTellsType(b);
    assert Tag(p, m)[0] == p[0] && Tag(q, n)[0] == q[0];
    TagInjective(p, m, n);
  }
}

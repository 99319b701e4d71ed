/** The canonical markdown table and its parser (scripts/seed_research_platform_demo.py). */
module MarkdownTable {
  import opened Wrappers
  import opened Text

  // ----- characters

  /** Where `str.splitlines` breaks. */
  predicate IsLineBreak(c: char) {
    '\n' <= c <= '\r' || '\U{1C}' <= c <= '\U{1E}' || c in {'\U{85}', '\U{2028}', '\U{2029}'}
  }

  predicate OneLine(s: string) {
    forall i :: 0 <= i < |s| ==> !IsLineBreak(s[i])
  }

  function EscapePipes(s: string): string {
    if s == "" then "" else (if s[0] == '|' then "\\|" else [s[0]]) + EscapePipes(s[1..])
  }

  function BreaksToTags(s: string): string {
    if s == "" then "" else (if s[0] == '\n' then "<br>" else [s[0]]) + BreaksToTags(s[1..])
  }

  /** `replace("\\|", "|")`: occurrences taken from the left. */
  function UnescapePipes(s: string): string {
    if s == "" then ""
    else if |s| >= 2 && s[0] == '\\' && s[1] == '|' then "|" + UnescapePipes(s[2..])
    else [s[0]] + UnescapePipes(s[1..])
  }

  // ----- the printer

  function Cell(value: Option<string>): string {
    Strip(BreaksToTags(EscapePipes(value.GetOr(""))))
  }

  function Cells(row: seq<Option<string>>): seq<string> {
    seq(|row|, i requires 0 <= i < |row| => Cell(row[i]))
  }

  function Line(cells: seq<string>): string {
    "| " + Join(cells, " | ") + " |"
  }

  function Dashes(n: nat): seq<string> {
    seq(n, _ => "---")
  }

  function RowLines(rows: seq<seq<Option<string>>>): seq<string> {
    if rows == [] then [] else RowLines(rows[..|rows| - 1]) + [Line(Cells(rows[|rows| - 1]))]
  }

  function TableLines(columns: seq<string>, rows: seq<seq<Option<string>>>): seq<string> {
    [Line(columns)] + ([Line(Dashes(|columns|))] + RowLines(rows))
  }

  datatype TableError = WrongCellCount(expected: nat, got: nat)

  method PrintTable(columns: seq<string>, rows: seq<seq<Option<string>>>) returns (r: Result<string, TableError>)
    ensures r.Success? <==> forall i :: 0 <= i < |rows| ==> |rows[i]| == |columns|
    ensures r.Success? ==> r.value == Join(TableLines(columns, rows), "\n")
    ensures r.Failure? ==> r.error.expected == |columns| && r.error.got != |columns|
    ensures r.Failure? ==> exists i :: 0 <= i < |rows| && |rows[i]| == r.error.got
  {
    var header := Line(columns);
    var separator := Line(Dashes(|columns|));
    var rendered: seq<string> := [];
    for i := 0 to |rows|
      invariant rendered == RowLines(rows[..i])
      invariant forall j :: 0 <= j < i ==> |rows[j]| == |columns|
    {
      var cells := Cells(rows[i]);
      if |cells| != |columns| {
        return Failure(WrongCellCount(|columns|, |cells|));
      }
      assert rows[..i + 1][..i] == rows[..i];
      rendered := rendered + [Line(cells)];
    }
    assert rows[..|rows|] == rows;
    return Success(Join([header] + ([separator] + rendered), "\n"));
  }

  // ----- the parser

  function StripPipesLeft(s: string): string {
    if s != "" && s[0] == '|' then StripPipesLeft(s[1..]) else s
  }

  function StripPipesRight(s: string): string {
    if s != "" && s[|s| - 1] == '|' then StripPipesRight(s[..|s| - 1]) else s
  }

  /** Split at pipes not preceded by a backslash; `escaped` says whether a backslash precedes `s`. */
  function SplitPipes(escaped: bool, s: string): (r: seq<string>)
    ensures r != []
    decreases |s|
  {
    if s == "" then [""]
    else if s[0] == '|' && !escaped then [""] + SplitPipes(false, s[1..])
    else
      var rest := SplitPipes(s[0] == '\\', s[1..]);
      [[s[0]] + rest[0]] + rest[1..]
  }

  function SplitRow(line: string): seq<string> {
    var parts := SplitPipes(false, StripPipesRight(StripPipesLeft(Strip(line))));
    seq(|parts|, i requires 0 <= i < |parts| => Strip(UnescapePipes(parts[i])))
  }

  function FirstBreak(s: string): nat {
    if s == "" || IsLineBreak(s[0]) then 0 else 1 + FirstBreak(s[1..])
  }

  function SplitLines(s: string): seq<string>
    decreases |s|
  {
    if s == "" then []
    else
      var n := FirstBreak(s);
      FirstBreakBound(s);
      if n == |s| then [s]
      else if s[n] == '\r' && n + 1 < |s| && s[n + 1] == '\n' then [s[..n]] + SplitLines(s[n + 2..])
      else [s[..n]] + SplitLines(s[n + 1..])
  }

  lemma {:induction false} FirstBreakBound(s: string)
    ensures FirstBreak(s) <= |s|
    ensures OneLine(s) ==> FirstBreak(s) == |s|
  {
    if s != "" && !IsLineBreak(s[0]) {
      FirstBreakBound(s[1..]);
    }
  }

  function WithoutBlanks(s: string): string {
    if s == "" then "" else (if s[0] == ' ' then "" else [s[0]]) + WithoutBlanks(s[1..])
  }

  /** The whole of the cell, blanks aside, is two or more dashes with an optional colon on each side. */
  predicate DashCell(cell: string) {
    var d := WithoutColons(WithoutBlanks(cell));
    |d| >= 2 && forall i :: 0 <= i < |d| ==> d[i] == '-'
  }

  function WithoutColons(t: string): string {
    var u := if t != "" && t[0] == ':' then t[1..] else t;
    if u != "" && u[|u| - 1] == ':' then u[..|u| - 1] else u
  }

  predicate AllDashes(cells: seq<string>) {
    forall i :: 0 <= i < |cells| ==> DashCell(cells[i])
  }

  function TableRowLines(lines: seq<string>): seq<string> {
    if lines == [] then []
    else
      TableRowLines(lines[..|lines| - 1]) +
        if StartsWith(Strip(lines[|lines| - 1]), "|") then [Strip(lines[|lines| - 1])] else []
  }

  function Blanks(n: int): (r: seq<string>)
    ensures |r| == if n > 0 then n else 0
  {
    if n > 0 then seq(n, _ => "") else []
  }

  function Padded(cells: seq<string>, n: nat): seq<string> {
    (cells + Blanks(n - |cells|))[..n]
  }

  /** A dictionary from pairs: a later pair with the same key wins. */
  function Zip(headers: seq<string>, cells: seq<string>): map<string, string>
    requires |headers| == |cells|
  {
    if headers == [] then map[]
    else Zip(headers[..|headers| - 1], cells[..|cells| - 1])[headers[|headers| - 1] := cells[|cells| - 1]]
  }

  function ParsedRows(headers: seq<string>, lines: seq<string>): seq<map<string, string>> {
    if lines == [] then []
    else
      var cells := SplitRow(lines[|lines| - 1]);
      ParsedRows(headers, lines[..|lines| - 1]) +
        if AllDashes(cells) then [] else [Zip(headers, Padded(cells, |headers|))]
  }

  function ParsedTable(markdown: string): seq<map<string, string>> {
    var lines := TableRowLines(SplitLines(markdown));
    if |lines| < 2 then [] else ParsedRows(SplitRow(lines[0]), lines[1..])
  }

  method ParseTable(markdown: Option<string>) returns (rows: seq<map<string, string>>)
    ensures rows == ParsedTable(markdown.GetOr(""))
  {
    var lines := TableRowLines(SplitLines(markdown.GetOr("")));
    if |lines| < 2 {
      return [];
    }
    var headers := SplitRow(lines[0]);
    rows := [];
    var body := lines[1..];
    for i := 0 to |body|
      invariant rows == ParsedRows(headers, body[..i])
    {
      var cells := SplitRow(body[i]);
      assert body[..i + 1][..i] == body[..i];
      if !AllDashes(cells) {
        rows := rows + [Zip(headers, Padded(cells, |headers|))];
      }
    }
    assert body[..|body|] == body;
  }

  /** A row with too few cells is filled up with blanks, and what a row has too many of is cut off. */
  lemma {:induction false} PaddedMeaning(cells: seq<string>, n: nat)
    ensures |Padded(cells, n)| == n
    ensures forall i :: 0 <= i < n ==> Padded(cells, n)[i] == if i < |cells| then cells[i] else ""
  {
  }

  // ----- escaping and back

  /** What one character of a value is printed as. */
  function PrintedChar(c: char): string {
    if c == '|' then "\\|" else if c == '\n' then "<br>" else [c]
  }

  function Printed(s: string): string {
    if s == "" then "" else PrintedChar(s[0]) + Printed(s[1..])
  }

  lemma {:induction false} BreaksAppend(a: string, b: string)
    ensures BreaksToTags(a + b) == BreaksToTags(a) + BreaksToTags(b)
  {
    if a == "" {
      assert a + b == b;
    } else {
      assert (a + b)[1..] == a[1..] + b;
      BreaksAppend(a[1..], b);
    }
  }

  /** The two replacements of the printer act character by character. */
  lemma {:induction false} PrintedIsReplaced(s: string)
    ensures BreaksToTags(EscapePipes(s)) == Printed(s)
  {
    if s != "" {
      PrintedIsReplaced(s[1..]);
      var head := if s[0] == '|' then "\\|" else [s[0]];
      BreaksAppend(head, EscapePipes(s[1..]));
      assert BreaksToTags(head) == PrintedChar(s[0]) by {
        assert "\\|"[1..] == "|" && "|"[1..] == "" && [s[0]][1..] == "";
      }
    }
  }

  /** No pipe without a backslash before it; `escaped` says whether one precedes `s`. */
  predicate NoBarePipe(escaped: bool, s: string)
    decreases |s|
  {
    s != "" ==> (s[0] == '|' ==> escaped) && NoBarePipe(s[0] == '\\', s[1..])
  }

  predicate EndsInBackslash(escaped: bool, s: string) {
    if s == "" then escaped else s[|s| - 1] == '\\'
  }

  lemma {:induction false} NoBarePipeAppend(escaped: bool, a: string, b: string)
    ensures NoBarePipe(escaped, a + b) <==> NoBarePipe(escaped, a) && NoBarePipe(EndsInBackslash(escaped, a), b)
    decreases |a|
  {
    if a == "" {
      assert a + b == b;
    } else {
      assert (a + b)[1..] == a[1..] + b;
      NoBarePipeAppend(a[0] == '\\', a[1..], b);
    }
  }

  lemma {:induction false} PrintedHasNoBarePipe(escaped: bool, s: string)
    ensures NoBarePipe(escaped, Printed(s))
    ensures Printed(s) != "" ==> Printed(s)[0] != '|'
    decreases |s|
  {
    if s != "" {
      var head := PrintedChar(s[0]);
      PrintedHasNoBarePipe(EndsInBackslash(escaped, head), s[1..]);
      assert NoBarePipe(escaped, head) by {
        assert "\\|"[1..] == "|" && "|"[1..] == "";
        assert "<br>"[1..] == "br>" && "br>"[1..] == "r>" && "r>"[1..] == ">" && ">"[1..] == "";
      }
      NoBarePipeAppend(escaped, head, Printed(s[1..]));
    }
  }

  lemma {:induction false} UnescapeAppend(a: string, b: string)
    requires !(EndsInBackslash(false, a) && b != "" && b[0] == '|')
    ensures UnescapePipes(a + b) == UnescapePipes(a) + UnescapePipes(b)
    decreases |a|
  {
    if a == "" {
      assert a + b == b;
    } else if |a| >= 2 && a[0] == '\\' && a[1] == '|' {
      UnescapeAppend(a[2..], b);
      DropOfAppend(a, b, 2);
      Associates("|", UnescapePipes(a[2..]), UnescapePipes(b));
    } else {
      assert |a| == 1 ==> a[1..] == "";
      UnescapeAppend(a[1..], b);
      DropOfAppend(a, b, 1);
      Associates([a[0]], UnescapePipes(a[1..]), UnescapePipes(b));
    }
  }

  lemma {:induction false} UnescapePlain(s: string)
    requires forall i :: 0 <= i < |s| ==> s[i] != '|'
    ensures UnescapePipes(s) == s
  {
    if s != "" {
      UnescapePlain(s[1..]);
    }
  }

  /** Unescaping what was printed gives the value back, with its newlines as tags. */
  lemma {:induction false} UnescapePrinted(s: string)
    ensures UnescapePipes(Printed(s)) == BreaksToTags(s)
  {
    if s != "" {
      var head, rest := PrintedChar(s[0]), Printed(s[1..]);
      UnescapePrinted(s[1..]);
      PrintedHasNoBarePipe(false, s[1..]);
      UnescapeAppend(head, rest);
      if s[0] == '|' {
        assert head[2..] == "";
      } else {
        UnescapePlain(head);
      }
    }
  }

  lemma {:induction false} UnescapeEnds(s: string)
    requires s != ""
    ensures UnescapePipes(s) != ""
    ensures UnescapePipes(s)[0] == s[0] || UnescapePipes(s)[0] == '|'
    ensures UnescapePipes(s)[|UnescapePipes(s)| - 1] == s[|s| - 1]
    decreases |s|
  {
    if |s| >= 2 && s[0] == '\\' && s[1] == '|' {
      if s[2..] != "" {
        UnescapeEnds(s[2..]);
      }
    } else if s[1..] != "" {
      UnescapeEnds(s[1..]);
    }
  }

  // ----- what a printed cell looks like

  /** A cell the row splitter can find again. */
  predicate CellText(s: string) {
    Trimmed(s) && NoBarePipe(false, s) && OneLine(s)
  }

  lemma {:induction false} SpaceIsPlain(s: string)
    requires AllSpace(s)
    ensures forall i :: 0 <= i < |s| ==> s[i] != '|' && s[i] != '\\'
    ensures UnescapePipes(s) == s
    ensures !EndsInBackslash(false, s)
  {
    UnescapePlain(s);
  }

  /** The text a reader should see in a cell: trimmed, newlines as tags. */
  function Shown(value: Option<string>): string {
    Strip(BreaksToTags(value.GetOr("")))
  }

  predicate NewlinesOnly(value: Option<string>) {
    value.Some? ==> forall i :: 0 <= i < |value.value| ==> IsLineBreak(value.value[i]) ==> value.value[i] == '\n'
  }

  lemma {:induction false} PrintedOneLine(s: string)
    requires forall i :: 0 <= i < |s| ==> IsLineBreak(s[i]) ==> s[i] == '\n'
    ensures OneLine(Printed(s))
  {
    if s != "" {
      PrintedOneLine(s[1..]);
      assert OneLine(PrintedChar(s[0]));
    }
  }

  /** A text without bare pipes, stripped: it is a cell, and unescaping and stripping commute. */
  lemma {:induction false} StrippedIsCell(printed: string)
    requires NoBarePipe(false, printed) && OneLine(printed)
    ensures CellText(Strip(printed))
    ensures Strip(UnescapePipes(printed)) == UnescapePipes(Strip(printed))
  {
    var before, after := StripSplits(printed);
    var cell := Strip(printed);
    assert printed == before + (cell + after);
    MiddleIsCell(before, cell, after);
    UnescapeMiddle(before, cell, after);
  }

  lemma {:induction false} MiddleIsCell(before: string, cell: string, after: string)
    requires AllSpace(before) && Trimmed(cell)
    requires NoBarePipe(false, before + (cell + after)) && OneLine(before + (cell + after))
    ensures CellText(cell)
  {
    SpaceIsPlain(before);
    NoBarePipeAppend(false, before, cell + after);
    NoBarePipeAppend(false, cell, after);
    forall i | 0 <= i < |cell| ensures cell[i] == (before + (cell + after))[|before| + i] {}
  }

  lemma {:induction false} UnescapeTrimmed(cell: string)
    requires Trimmed(cell)
    ensures Trimmed(UnescapePipes(cell))
  {
    if cell != "" {
      UnescapeEnds(cell);
    }
  }

  lemma {:induction false} UnescapeAround(before: string, cell: string, after: string)
    requires AllSpace(before) && AllSpace(after)
    ensures UnescapePipes(before + (cell + after)) == before + (UnescapePipes(cell) + after)
  {
    SpaceIsPlain(before);
    SpaceIsPlain(after);
    UnescapeAppend(before, cell + after);
    UnescapeAppend(cell, after);
  }

  lemma {:induction false} UnescapeMiddle(before: string, cell: string, after: string)
    requires AllSpace(before) && AllSpace(after) && Trimmed(cell)
    ensures Strip(UnescapePipes(before + (cell + after))) == UnescapePipes(cell)
  {
    UnescapeAround(before, cell, after);
    UnescapeTrimmed(cell);
    var seen := UnescapePipes(cell);
    assert before + (seen + after) == before + seen + after;
    StripAround(before, seen, after);
  }

  /** A printed cell can be found again, and unescapes to what should be seen. */
  lemma {:induction false} CellMeaning(value: Option<string>)
    requires NewlinesOnly(value)
    ensures CellText(Cell(value)) && UnescapePipes(Cell(value)) == Shown(value)
  {
    var raw := value.GetOr("");
    PrintedIsReplaced(raw);
    PrintedHasNoBarePipe(false, raw);
    PrintedOneLine(raw);
    UnescapePrinted(raw);
    StrippedIsCell(Printed(raw));
  }

  lemma {:induction false} SplitAtPipe(escaped: bool, a: string, rest: string)
    requires NoBarePipe(escaped, a) && !EndsInBackslash(escaped, a)
    ensures SplitPipes(escaped, a + "|" + rest) == [a] + SplitPipes(false, rest)
    decreases |a|
  {
    if a == "" {
      assert a + "|" + rest == "|" + rest && ("|" + rest)[1..] == rest;
    } else {
      assert (a + "|" + rest)[1..] == a[1..] + "|" + rest;
      SplitAtPipe(a[0] == '\\', a[1..], rest);
      assert [a[0]] + a[1..] == a;
    }
  }

  lemma {:induction false} SplitNoPipe(escaped: bool, a: string)
    requires NoBarePipe(escaped, a)
    ensures SplitPipes(escaped, a) == [a]
    decreases |a|
  {
    if a != "" {
      SplitNoPipe(a[0] == '\\', a[1..]);
      assert [a[0]] + a[1..] == a;
    }
  }

  function Spaced(cells: seq<string>): seq<string> {
    seq(|cells|, i requires 0 <= i < |cells| => " " + cells[i] + " ")
  }

  lemma {:induction false} SpacedCell(cell: string)
    requires NoBarePipe(false, cell)
    ensures NoBarePipe(false, " " + cell + " ") && !EndsInBackslash(false, " " + cell + " ")
  {
    NoBarePipeAppend(false, " ", cell);
    assert " "[1..] == "";
    NoBarePipeAppend(false, " " + cell, " ");
  }

  lemma {:induction false} SplitInside(cells: seq<string>)
    requires cells != [] && forall i :: 0 <= i < |cells| ==> NoBarePipe(false, cells[i])
    ensures SplitPipes(false, " " + Join(cells, " | ") + " ") == Spaced(cells)
  {
    SpacedCell(cells[0]);
    if |cells| == 1 {
      SplitNoPipe(false, " " + cells[0] + " ");
    } else {
      var rest := " " + Join(cells[1..], " | ") + " ";
      SplitInside(cells[1..]);
      assert " " + Join(cells, " | ") + " " == (" " + cells[0] + " ") + "|" + rest;
      SplitAtPipe(false, " " + cells[0] + " ", rest);
      assert Spaced(cells) == [" " + cells[0] + " "] + Spaced(cells[1..]);
    }
  }

  /** The outer pipes come off a printed line and nothing else does. */
  lemma {:induction false} OuterPipes(inside: string)
    requires inside != "" && inside[0] != '|' && inside[|inside| - 1] != '|'
    ensures StripPipesRight(StripPipesLeft("|" + inside + "|")) == inside
  {
    var line := "|" + inside + "|";
    assert line[1..] == inside + "|";
    assert StripPipesLeft(inside + "|") == inside + "|";
    assert (inside + "|")[..|inside|] == inside;
    assert StripPipesRight(inside) == inside;
  }

  /** Splitting a printed line gives its cells back, unescaped. */
  lemma {:induction false} LineSplits(cells: seq<string>)
    requires cells != [] && forall i :: 0 <= i < |cells| ==> CellText(cells[i])
    ensures |SplitRow(Line(cells))| == |cells|
    ensures forall i :: 0 <= i < |cells| ==> SplitRow(Line(cells))[i] == Strip(UnescapePipes(cells[i]))
  {
    var inside := " " + Join(cells, " | ") + " ";
    assert Line(cells) == "|" + inside + "|";
    StripTrimmed(Line(cells));
    OuterPipes(inside);
    SplitInside(cells);
    forall i | 0 <= i < |cells| ensures Strip(UnescapePipes(" " + cells[i] + " ")) == Strip(UnescapePipes(cells[i])) {
      PaddedCell(cells[i]);
    }
  }

  lemma {:induction false} PaddedCell(cell: string)
    requires CellText(cell)
    ensures Strip(UnescapePipes(" " + cell + " ")) == Strip(UnescapePipes(cell))
  {
    assert " " + cell + " " == " " + (cell + " ");
    UnescapeMiddle(" ", cell, " ");
    UnescapeTrimmed(cell);
    StripTrimmed(UnescapePipes(cell));
  }

  // ----- lines

  lemma {:induction false} FirstBreakAppend(a: string, rest: string)
    requires OneLine(a) && rest != "" && IsLineBreak(rest[0])
    ensures FirstBreak(a + rest) == |a|
  {
    if a == "" {
      assert a + rest == rest;
    } else {
      assert (a + rest)[1..] == a[1..] + rest;
      FirstBreakAppend(a[1..], rest);
    }
  }

  lemma {:induction false} FirstLineSplit(line: string, rest: string)
    requires OneLine(line)
    ensures SplitLines(line + ("\n" + rest)) == [line] + SplitLines(rest)
  {
    var all := line + ("\n" + rest);
    FirstBreakAppend(line, "\n" + rest);
    assert all[|line|] == '\n' && all[..|line|] == line && all[|line| + 1..] == rest;
  }

  lemma {:induction false} JoinedLinesSplit(lines: seq<string>)
    requires lines != [] && forall i :: 0 <= i < |lines| ==> OneLine(lines[i]) && lines[i] != ""
    ensures SplitLines(Join(lines, "\n")) == lines
  {
    if |lines| == 1 {
      OnlyLineSplit(lines[0]);
    } else {
      var rest := Join(lines[1..], "\n");
      JoinedLinesSplit(lines[1..]);
      FirstLineSplit(lines[0], rest);
      assert lines[0] + "\n" + rest == lines[0] + ("\n" + rest);
      assert [lines[0]] + lines[1..] == lines;
    }
  }

  /** A carriage return and the newline after it are one break. */
  lemma {:induction false} CrlfSplit(line: string, rest: string)
    requires OneLine(line)
    ensures SplitLines(line + ("\r\n" + rest)) == [line] + SplitLines(rest)
  {
    var all := line + ("\r\n" + rest);
    FirstBreakAppend(line, "\r\n" + rest);
    assert all[|line|] == '\r' && all[|line| + 1] == '\n' && all[..|line|] == line && all[|line| + 2..] == rest;
  }

  lemma {:induction false} OnlyLineSplit(line: string)
    requires OneLine(line) && line != ""
    ensures SplitLines(line) == [line]
  {
    FirstBreakBound(line);
  }

  lemma {:induction false} JoinOneLine(parts: seq<string>)
    requires forall i :: 0 <= i < |parts| ==> OneLine(parts[i])
    ensures OneLine(Join(parts, " | "))
  {
    if |parts| >= 2 {
      JoinOneLine(parts[1..]);
    }
  }

  predicate TableLine(line: string) {
    OneLine(line) && Trimmed(line) && line != "" && line[0] == '|'
  }

  lemma {:induction false} LineIsTableLine(cells: seq<string>)
    requires forall i :: 0 <= i < |cells| ==> OneLine(cells[i])
    ensures TableLine(Line(cells))
  {
    JoinOneLine(cells);
  }

  lemma {:induction false} TableLineKept(line: string)
    requires TableLine(line)
    ensures Strip(line) == line && StartsWith(Strip(line), "|")
  {
    StripTrimmed(line);
  }

  lemma {:induction false} TableLinesKept(lines: seq<string>)
    requires forall i :: 0 <= i < |lines| ==> TableLine(lines[i])
    ensures TableRowLines(lines) == lines
  {
    if lines != [] {
      var init, last := lines[..|lines| - 1], lines[|lines| - 1];
      TableLinesKept(init);
      TableLineKept(last);
      assert TableRowLines(lines) == init + [last];
    }
  }

  // ----- which rows separate

  function SeparatorText(left: bool, dashes: nat, right: bool): string {
    (if left then ":" else "") + seq(dashes, _ => '-') + (if right then ":" else "")
  }

  /** Blanks aside: an optional colon, two dashes or more, an optional colon. */
  ghost predicate IsSeparator(cell: string) {
    exists left, dashes, right :: dashes >= 2 && WithoutBlanks(cell) == SeparatorText(left, dashes, right)
  }

  lemma {:induction false} AllDashesText(d: string)
    requires forall i :: 0 <= i < |d| ==> d[i] == '-'
    ensures d == SeparatorText(false, |d|, false)
  {
  }

  lemma {:induction false} ColonsAround(t: string) returns (left: bool, right: bool)
    ensures t == (if left then ":" else "") + WithoutColons(t) + (if right then ":" else "")
  {
    left := t != "" && t[0] == ':';
    var u := if left then t[1..] else t;
    right := u != "" && u[|u| - 1] == ':';
    assert t == (if left then ":" else "") + u;
    assert u == WithoutColons(t) + (if right then ":" else "");
  }

  lemma {:induction false} DashCellSeparates(cell: string)
    requires DashCell(cell)
    ensures IsSeparator(cell)
  {
    var t := WithoutBlanks(cell);
    var d := WithoutColons(t);
    var left, right := ColonsAround(t);
    AllDashesText(d);
    assert t == SeparatorText(left, |d|, right);
  }

  lemma {:induction false} DashCellMeaning(cell: string)
    ensures DashCell(cell) <==> IsSeparator(cell)
  {
    var t := WithoutBlanks(cell);
    if DashCell(cell) {
      DashCellSeparates(cell);
    }
    if IsSeparator(cell) {
      var left, dashes, right :| dashes >= 2 && t == SeparatorText(left, dashes, right);
      SeparatorTextIsDashed(left, dashes, right);
    }
  }

  lemma {:induction false} SeparatorTextIsDashed(left: bool, dashes: nat, right: bool)
    requires dashes >= 2
    ensures WithoutColons(SeparatorText(left, dashes, right)) == SeparatorText(false, dashes, false)
  {
    var t, d := SeparatorText(left, dashes, right), SeparatorText(false, dashes, false);
    assert d[0] == '-' && d[|d| - 1] == '-';
    if left {
      assert t[1..] == d + if right then ":" else "";
    } else {
      assert t == d + if right then ":" else "";
    }
    assert (d + ":")[..|d|] == d;
  }

  /** Dropping blanks keeps every other character as often as it occurs. */
  lemma {:induction false} WithoutBlanksCounts(s: string, c: char)
    ensures multiset(WithoutBlanks(s))[c] == if c == ' ' then 0 else multiset(s)[c]
  {
    if s != "" {
      WithoutBlanksCounts(s[1..], c);
      assert s == [s[0]] + s[1..];
    }
  }

  /** And their order. */
  lemma {:induction false} WithoutBlanksAppend(a: string, b: string)
    ensures WithoutBlanks(a + b) == WithoutBlanks(a) + WithoutBlanks(b)
  {
    if a == "" {
      assert a + b == b;
    } else {
      assert (a + b)[1..] == a[1..] + b;
      WithoutBlanksAppend(a[1..], b);
    }
  }

  /** A cell with a character that separators lack, or without two dashes, is no separator. */
  predicate Speaks(cell: string) {
    (exists c | c in cell :: c !in {' ', '-', ':'}) || multiset(cell)['-'] < 2
  }

  lemma {:induction false} SpeakingIsNoSeparator(cell: string)
    requires Speaks(cell)
    ensures !IsSeparator(cell)
  {
    if IsSeparator(cell) {
      var left, dashes, right :| dashes >= 2 && WithoutBlanks(cell) == SeparatorText(left, dashes, right);
      SeparatorCounts(left, dashes, right);
      WithoutBlanksCounts(cell, '-');
      forall c | c in cell && c != ' ' ensures c in {'-', ':'} {
        SurvivesBlanks(cell, c);
      }
    }
  }

  lemma {:induction false} SurvivesBlanks(cell: string, c: char)
    requires c in cell && c != ' '
    ensures c in WithoutBlanks(cell)
  {
    WithoutBlanksCounts(cell, c);
    assert multiset(cell)[c] > 0 && multiset(WithoutBlanks(cell))[c] > 0;
  }

  lemma {:induction false} SeparatorCounts(left: bool, dashes: nat, right: bool)
    ensures multiset(SeparatorText(left, dashes, right))['-'] == dashes
    ensures forall c :: c in SeparatorText(left, dashes, right) ==> c in {'-', ':'}
  {
    DashesCount(dashes);
  }

  lemma {:induction false} DashesCount(dashes: nat)
    ensures multiset(seq(dashes, _ => '-'))['-'] == dashes
  {
    if dashes > 0 {
      DashesCount(dashes - 1);
      assert seq(dashes, _ => '-') == seq(dashes - 1, _ => '-') + ['-'];
    }
  }

  /** A row of separators only; the parser leaves it out. */
  ghost predicate SeparatorRow(row: seq<Option<string>>) {
    forall i :: 0 <= i < |row| ==> IsSeparator(Shown(row[i]))
  }

  lemma {:induction false} SeparatorRowMeaning(row: seq<Option<string>>)
    ensures AllDashes(ShownRow(row)) <==> SeparatorRow(row)
  {
    forall i | 0 <= i < |row| ensures DashCell(ShownRow(row)[i]) <==> IsSeparator(Shown(row[i])) {
      DashCellMeaning(Shown(row[i]));
    }
  }

  // ----- the round trip

  predicate ColumnName(s: string) {
    Trimmed(s) && OneLine(s) && '|' !in s
  }

  predicate Printable(columns: seq<string>, rows: seq<seq<Option<string>>>) {
    && columns != []
    && (forall i :: 0 <= i < |columns| ==> ColumnName(columns[i]))
    && (forall r :: 0 <= r < |rows| ==> |rows[r]| == |columns|)
    && (forall r, i :: 0 <= r < |rows| && 0 <= i < |rows[r]| ==> NewlinesOnly(rows[r][i]))
  }

  function ShownRow(row: seq<Option<string>>): seq<string> {
    seq(|row|, i requires 0 <= i < |row| => Shown(row[i]))
  }

  /** What parsing should give back: one dictionary for each row, rows of dashes only left out. */
  function Expected(columns: seq<string>, rows: seq<seq<Option<string>>>): seq<map<string, string>>
    requires forall r :: 0 <= r < |rows| ==> |rows[r]| == |columns|
  {
    if rows == [] then []
    else
      var shown := ShownRow(rows[|rows| - 1]);
      Expected(columns, rows[..|rows| - 1]) + if AllDashes(shown) then [] else [Zip(columns, shown)]
  }

  lemma {:induction false} ColumnSplits(columns: seq<string>)
    requires columns != [] && forall i :: 0 <= i < |columns| ==> ColumnName(columns[i])
    ensures SplitRow(Line(columns)) == columns
    ensures TableLine(Line(columns))
  {
    forall i | 0 <= i < |columns| ensures CellText(columns[i]) && Strip(UnescapePipes(columns[i])) == columns[i] {
      UnescapePlain(columns[i]);
      StripTrimmed(columns[i]);
      NoPipes(false, columns[i]);
    }
    LineSplits(columns);
    LineIsTableLine(columns);
  }

  lemma {:induction false} NoPipes(escaped: bool, s: string)
    requires '|' !in s
    ensures NoBarePipe(escaped, s)
    decreases |s|
  {
    if s != "" {
      NoPipes(s[0] == '\\', s[1..]);
    }
  }

  lemma {:induction false} RowSplits(row: seq<Option<string>>)
    requires row != [] && forall i :: 0 <= i < |row| ==> NewlinesOnly(row[i])
    ensures SplitRow(Line(Cells(row))) == ShownRow(row)
    ensures TableLine(Line(Cells(row)))
  {
    forall i | 0 <= i < |row|
      ensures CellText(Cells(row)[i]) && Strip(UnescapePipes(Cells(row)[i])) == Shown(row[i])
    {
      CellMeaning(row[i]);
      var before, after := StripSplits(BreaksToTags(row[i].GetOr("")));
      StripTrimmed(Shown(row[i]));
    }
    LineSplits(Cells(row));
    LineIsTableLine(Cells(row));
  }

  lemma {:induction false} RowsParse(columns: seq<string>, rows: seq<seq<Option<string>>>)
    requires Printable(columns, rows)
    ensures ParsedRows(columns, RowLines(rows)) == Expected(columns, rows)
    ensures forall i :: 0 <= i < |RowLines(rows)| ==> TableLine(RowLines(rows)[i])
  {
    if rows != [] {
      var init, last := rows[..|rows| - 1], rows[|rows| - 1];
      RowsParse(columns, init);
      RowSplits(last);
      assert RowLines(rows)[..|RowLines(rows)| - 1] == RowLines(init);
      assert Padded(ShownRow(last), |columns|) == ShownRow(last);
    }
  }

  lemma {:induction false} DashLine(n: nat)
    requires n >= 1
    ensures AllDashes(SplitRow(Line(Dashes(n)))) && TableLine(Line(Dashes(n)))
  {
    assert ColumnName("---");
    ColumnSplits(Dashes(n));
    assert WithoutBlanks("---") == "---" by {
      assert "---"[1..] == "--" && "--"[1..] == "-" && "-"[1..] == "";
    }
  }

  lemma {:induction false} TableLinesFound(header: string, dashes: string, body: seq<string>)
    requires TableLine(header) && TableLine(dashes) && forall i :: 0 <= i < |body| ==> TableLine(body[i])
    ensures var lines := [header] + ([dashes] + body); TableRowLines(SplitLines(Join(lines, "\n"))) == lines
  {
    var lines := [header] + ([dashes] + body);
    JoinedLinesSplit(lines);
    TableLinesKept(lines);
  }

  lemma {:induction false} PrintedLinesFound(columns: seq<string>, rows: seq<seq<Option<string>>>)
    requires Printable(columns, rows)
    ensures TableRowLines(SplitLines(Join(TableLines(columns, rows), "\n"))) == TableLines(columns, rows)
  {
    ColumnSplits(columns);
    DashLine(|columns|);
    RowsParse(columns, rows);
    TableLinesFound(Line(columns), Line(Dashes(|columns|)), RowLines(rows));
  }

  lemma {:induction false} PrintedParses(columns: seq<string>, rows: seq<seq<Option<string>>>)
    requires Printable(columns, rows)
    ensures ParsedTable(Join(TableLines(columns, rows), "\n")) == Expected(columns, rows)
  {
    PrintedLinesFound(columns, rows);
    LinesParse(Join(TableLines(columns, rows), "\n"), Line(columns), [Line(Dashes(|columns|))] + RowLines(rows));
    ColumnSplits(columns);
    DashLine(|columns|);
    DashRowSkipped(columns, Line(Dashes(|columns|)), RowLines(rows));
    RowsParse(columns, rows);
  }

  /** `kept` lists, in order, the rows that are not made of separators only. */
  ghost predicate ContentRows(rows: seq<seq<Option<string>>>, kept: seq<nat>) {
    && (forall i, j :: 0 <= i < j < |kept| ==> kept[i] < kept[j])
    && (forall r: nat :: r in kept <==> r < |rows| && !SeparatorRow(rows[r]))
  }

  lemma {:induction false} ContentRowsSnoc(rows: seq<seq<Option<string>>>, n: nat, kept: seq<nat>)
    requires n == |rows| - 1 && ContentRows(rows[..n], kept)
    ensures ContentRows(rows, if SeparatorRow(rows[n]) then kept else kept + [n])
    ensures forall k :: 0 <= k < |kept| ==> kept[k] < n
  {
    forall k | 0 <= k < |kept| ensures kept[k] < n {
      assert kept[k] in kept;
    }
    forall r: nat | r < n ensures rows[..n][r] == rows[r] {}
  }

  /** `parsed` holds the rows at the positions `kept`. */
  predicate ParsedAt(columns: seq<string>, rows: seq<seq<Option<string>>>, kept: seq<nat>, parsed: seq<map<string, string>>)
    requires forall r :: 0 <= r < |rows| ==> |rows[r]| == |columns|
  {
    |parsed| == |kept| && forall k :: 0 <= k < |kept| ==> kept[k] < |rows| && parsed[k] == Zip(columns, ShownRow(rows[kept[k]]))
  }

  lemma {:induction false} ParsedAtSnoc(columns: seq<string>, rows: seq<seq<Option<string>>>, n: nat, kept: seq<nat>,
                                        parsed: seq<map<string, string>>)
    requires forall r :: 0 <= r < |rows| ==> |rows[r]| == |columns|
    requires n == |rows| - 1 && ParsedAt(columns, rows[..n], kept, parsed)
    ensures ParsedAt(columns, rows, kept, parsed)
    ensures ParsedAt(columns, rows, kept + [n], parsed + [Zip(columns, ShownRow(rows[n]))])
  {
    forall k | 0 <= k < |kept| ensures rows[..n][kept[k]] == rows[kept[k]] {}
  }

  lemma {:induction false} ExpectedRows(columns: seq<string>, rows: seq<seq<Option<string>>>) returns (kept: seq<nat>)
    requires forall r :: 0 <= r < |rows| ==> |rows[r]| == |columns|
    ensures ContentRows(rows, kept) && ParsedAt(columns, rows, kept, Expected(columns, rows))
  {
    if rows == [] {
      kept := [];
    } else {
      var n := |rows| - 1;
      kept := ExpectedRows(columns, rows[..n]);
      SeparatorRowMeaning(rows[n]);
      ContentRowsSnoc(rows, n, kept);
      ParsedAtSnoc(columns, rows, n, kept, Expected(columns, rows[..n]));
      if !SeparatorRow(rows[n]) {
        kept := kept + [n];
      }
    }
  }

  /** Main result: parsing a printed table gives every cell back, whatever its pipes and backslashes, for
      exactly the rows that are not made of separators only, in order. */
  lemma {:induction false} RoundTrip(columns: seq<string>, rows: seq<seq<Option<string>>>) returns (kept: seq<nat>)
    requires Printable(columns, rows)
    ensures ContentRows(rows, kept)
    ensures ParsedAt(columns, rows, kept, ParsedTable(Join(TableLines(columns, rows), "\n")))
  {
    PrintedParses(columns, rows);
    kept := ExpectedRows(columns, rows);
  }

  /** The dictionary holds the shown text of each cell of the row under its column, and nothing else. */
  ghost predicate HoldsRow(dictionary: map<string, string>, columns: seq<string>, row: seq<Option<string>>) {
    && |row| == |columns| && (forall c :: c in dictionary <==> c in columns)
    && forall i :: 0 <= i < |columns| ==> columns[i] in dictionary && dictionary[columns[i]] == Shown(row[i])
  }

  /** With distinct columns, a row with some cell that says more than a separator does is parsed, all of it. */
  lemma {:induction false} SpeakingRowIsParsed(columns: seq<string>, rows: seq<seq<Option<string>>>, r: nat, i: nat)
    returns (k: nat)
    requires Printable(columns, rows) && forall a, b :: 0 <= a < b < |columns| ==> columns[a] != columns[b]
    requires r < |rows| && i < |columns| && Speaks(Shown(rows[r][i]))
    ensures var parsed := ParsedTable(Join(TableLines(columns, rows), "\n"));
      k < |parsed| && HoldsRow(parsed[k], columns, rows[r])
  {
    SpeakingIsNoSeparator(Shown(rows[r][i]));
    var kept := RoundTrip(columns, rows);
    assert !SeparatorRow(rows[r]);
    k :| 0 <= k < |kept| && kept[k] == r;
    ZipMeaning(columns, ShownRow(rows[r]));
  }

  /** A line of other text: once stripped it does not open with a pipe. */
  predicate Prose(line: string) {
    OneLine(line) && line != "" && !StartsWith(Strip(line), "|")
  }

  lemma {:induction false} TableRowLinesAppend(a: seq<string>, b: seq<string>)
    ensures TableRowLines(a + b) == TableRowLines(a) + TableRowLines(b)
    decreases |b|
  {
    if b == [] {
      assert a + b == a;
    } else {
      var init, last := b[..|b| - 1], b[|b| - 1];
      TableRowLinesAppend(a, init);
      InitOfAppend(a, b);
      Associates(TableRowLines(a), TableRowLines(init), if StartsWith(Strip(last), "|") then [Strip(last)] else []);
    }
  }

  lemma {:induction false} ProseDropped(lines: seq<string>)
    requires forall i :: 0 <= i < |lines| ==> Prose(lines[i])
    ensures TableRowLines(lines) == []
  {
    if lines != [] {
      ProseDropped(lines[..|lines| - 1]);
    }
  }

  /** Text around a printed table does not bear on what is parsed. */
  lemma {:induction false} ProseIsSkipped(columns: seq<string>, rows: seq<seq<Option<string>>>, before: seq<string>,
                                          after: seq<string>)
    requires Printable(columns, rows)
    requires (forall i :: 0 <= i < |before| ==> Prose(before[i])) && (forall i :: 0 <= i < |after| ==> Prose(after[i]))
    ensures ParsedTable(Join(before + (TableLines(columns, rows) + after), "\n")) ==
      ParsedTable(Join(TableLines(columns, rows), "\n"))
  {
    var lines := TableLines(columns, rows);
    PrintedLinesFound(columns, rows);
    PrintedTableLines(columns, rows);
    forall i | 0 <= i < |lines| ensures OneLine(lines[i]) && lines[i] != "" {
      assert TableLine(lines[i]);
    }
    JoinedLinesSplit(lines);
    JoinedLinesSplit(before + (lines + after));
    TableRowLinesAppend(before, lines + after);
    TableRowLinesAppend(lines, after);
    ProseDropped(before);
    ProseDropped(after);
    assert [] + (TableRowLines(lines) + []) == TableRowLines(lines);
  }

  lemma {:induction false} PrintedTableLines(columns: seq<string>, rows: seq<seq<Option<string>>>)
    requires Printable(columns, rows)
    ensures forall i :: 0 <= i < |TableLines(columns, rows)| ==> TableLine(TableLines(columns, rows)[i])
  {
    ColumnSplits(columns);
    DashLine(|columns|);
    RowsParse(columns, rows);
  }

  lemma {:induction false} LinesParse(markdown: string, header: string, body: seq<string>)
    requires body != [] && TableRowLines(SplitLines(markdown)) == [header] + body
    ensures ParsedTable(markdown) == ParsedRows(SplitRow(header), body)
  {
    assert ([header] + body)[1..] == body;
  }

  lemma {:induction false} DashRowSkipped(headers: seq<string>, dashes: string, lines: seq<string>)
    requires AllDashes(SplitRow(dashes))
    ensures ParsedRows(headers, [dashes] + lines) == ParsedRows(headers, lines)
  {
    if lines == [] {
      assert ([dashes] + lines)[..0] == [];
    } else {
      assert ([dashes] + lines)[..|lines|] == [dashes] + lines[..|lines| - 1];
      DashRowSkipped(headers, dashes, lines[..|lines| - 1]);
    }
  }

  /** With distinct column names the dictionary of a row holds each cell under its column. */
  lemma {:induction false} ZipMeaning(headers: seq<string>, cells: seq<string>)
    requires |headers| == |cells| && forall i, j :: 0 <= i < j < |headers| ==> headers[i] != headers[j]
    ensures forall k :: k in Zip(headers, cells) <==> k in headers
    ensures forall i :: 0 <= i < |headers| ==> headers[i] in Zip(headers, cells) && Zip(headers, cells)[headers[i]] == cells[i]
  {
    if headers != [] {
      var n := |headers| - 1;
      ZipMeaning(headers[..n], cells[..n]);
      forall i | 0 <= i < n ensures Zip(headers, cells)[headers[i]] == cells[i] {
        assert headers[..n][i] == headers[i] && cells[..n][i] == cells[i];
      }
      assert forall k :: k in headers <==> k in headers[..n] || k == headers[n];
    }
  }
}

/** Recovering one JSON object from a model reply: the string-aware brace scanner, the fence stripper and
    the reply parser of app/services/llm_clients.py. `json.loads` is a parameter. */
module JsonRecovery {
  import opened Wrappers
  import opened Text
  import opened JsonSchema
  import opened SchemaMeaning

  // ----- the scanner

  datatype Scan = Scan(depth: int, inString: bool, escaped: bool)

  const START := Scan(0, false, false)

  function Step(st: Scan, c: char): Scan {
    if st.inString then
      if st.escaped then st.(escaped := false)
      else if c == '\\' then st.(escaped := true)
      else if c == '"' then st.(inString := false)
      else st
    else if c == '"' then st.(inString := true)
    else if c == '{' then st.(depth := st.depth + 1)
    else if c == '}' then st.(depth := st.depth - 1)
    else st
  }

  function Run(st: Scan, s: string): Scan
    decreases |s|
  {
    if s == "" then st else Run(Step(st, s[0]), s[1..])
  }

  predicate Closes(st: Scan, c: char) {
    !st.inString && c == '}' && st.depth == 1
  }

  /** The length of the shortest prefix of `s` whose last character brings the depth back to 0. */
  function CloseLength(st: Scan, s: string): Option<nat>
    decreases |s|
  {
    if s == "" then None
    else if Closes(st, s[0]) then Some(1)
    else match CloseLength(Step(st, s[0]), s[1..])
      case Some(n) => Some(n + 1)
      case None => None
  }

  function Find(s: string, c: char): (r: Option<nat>)
    ensures r.Some? ==> r.value < |s| && s[r.value] == c && c !in s[..r.value]
    ensures r.None? ==> c !in s
  {
    if s == "" then None
    else if s[0] == c then Some(0)
    else match Find(s[1..], c)
      case Some(n) => assert s[..n + 1] == [s[0]] + s[1..][..n]; Some(n + 1)
      case None => None
  }

  function Recovered(text: string): Option<string> {
    match Find(text, '{')
    case None => None
    case Some(start) =>
      match CloseLength(START, text[start..])
      case None => None
      case Some(n) => CloseLengthBound(START, text[start..]); Some(text[start..start + n])
  }

  lemma {:induction false} CloseLengthBound(st: Scan, s: string)
    ensures CloseLength(st, s).Some? ==> 0 < CloseLength(st, s).value <= |s|
    decreases |s|
  {
    if s != "" && !Closes(st, s[0]) {
      CloseLengthBound(Step(st, s[0]), s[1..]);
    }
  }

  method ExtractJsonObject(text: string) returns (r: Option<string>)
    ensures r == Recovered(text)
  {
    var found := Find(text, '{');
    if found.None? {
      return None;
    }
    var start := found.value;
    var depth, inString, escaped := 0, false, false;
    for index := start to |text|
      invariant CloseLength(START, text[start..]) ==
        match CloseLength(Scan(depth, inString, escaped), text[index..])
        case Some(n) => Some(n + (index - start))
        case None => None
    {
      var c := text[index];
      assert text[index..][1..] == text[index + 1..];
      if inString {
        if escaped {
          escaped := false;
        } else if c == '\\' {
          escaped := true;
        } else if c == '"' {
          inString := false;
        }
        continue;
      }
      if c == '"' {
        inString := true;
      } else if c == '{' {
        depth := depth + 1;
      } else if c == '}' {
        depth := depth - 1;
        if depth == 0 {
          return Some(text[start..index + 1]);
        }
      }
    }
    return None;
  }

  // ----- what the scanner returns, in terms of balance

  /** Braces outside string literals balance over the whole of `s`. */
  predicate Balanced(s: string) {
    Run(START, s).depth == 0
  }

  lemma {:induction false} RunAppend(st: Scan, a: string, b: string)
    ensures Run(st, a + b) == Run(Run(st, a), b)
    decreases |a|
  {
    if a == "" {
      assert a + b == b;
    } else {
      assert (a + b)[1..] == a[1..] + b;
      RunAppend(Step(st, a[0]), a[1..], b);
    }
  }

  lemma {:induction false} CloseLengthIsFirst(st: Scan, s: string)
    requires st.depth >= 1
    ensures CloseLength(st, s).Some? ==>
      && 0 < CloseLength(st, s).value <= |s|
      && Run(st, s[..CloseLength(st, s).value]).depth == 0
    ensures forall n :: 0 < n <= |s| && (CloseLength(st, s).Some? ==> n < CloseLength(st, s).value) ==>
      Run(st, s[..n]).depth != 0
    decreases |s|
  {
    if s != "" {
      var next := Step(st, s[0]);
      assert Run(st, s[..1]) == next by { assert s[..1][1..] == ""; }
      if !Closes(st, s[0]) {
        CloseLengthIsFirst(next, s[1..]);
        forall n | 1 < n <= |s| ensures Run(st, s[..n]) == Run(next, s[1..][..n - 1]) {
          assert s[..n][1..] == s[1..][..n - 1];
        }
        if CloseLength(next, s[1..]).Some? {
          var k := CloseLength(next, s[1..]).value;
          assert Run(st, s[..k + 1]) == Run(next, s[1..][..k]);
        }
        forall n | 0 < n <= |s| && (CloseLength(st, s).Some? ==> n < CloseLength(st, s).value)
          ensures Run(st, s[..n]).depth != 0
        {
          if n > 1 {
            assert Run(st, s[..n]) == Run(next, s[1..][..n - 1]);
          }
        }
      }
    }
  }

  /** What balances from a position on is what closes it, in terms of the text after its brace. */
  lemma {:induction false} BalanceInside(s: string, n: nat)
    requires 0 < n <= |s| && s[0] == '{'
    ensures Run(START, s[..n]) == Run(Step(START, s[0]), s[1..][..n - 1])
    ensures CloseLength(START, s) == match CloseLength(Step(START, s[0]), s[1..])
      case Some(k) => Some(k + 1)
      case None => None
  {
    assert s[..n][1..] == s[1..][..n - 1];
  }

  /** `found` is the shortest balanced prefix of `s`, or there is none. */
  predicate ShortestBalanced(s: string, found: Option<string>) {
    match found
    case None => forall n :: 0 < n <= |s| ==> !Balanced(s[..n])
    case Some(t) =>
      0 < |t| <= |s| && t == s[..|t|] && Balanced(t) && forall n :: 0 < n < |t| ==> !Balanced(s[..n])
  }

  lemma {:induction false} ClosedIsShortest(s: string)
    requires s != "" && s[0] == '{'
    ensures CloseLength(START, s).Some? ==> 0 < CloseLength(START, s).value <= |s|
    ensures ShortestBalanced(s, match CloseLength(START, s) case Some(n) => Some(s[..n]) case None => None)
  {
    var inside := Step(START, s[0]);
    CloseLengthIsFirst(inside, s[1..]);
    CloseLengthBound(START, s);
    forall n: nat | 0 < n <= |s| ensures Balanced(s[..n]) <==> Run(inside, s[1..][..n - 1]).depth == 0 {
      BalanceInside(s, n);
    }
    BalanceInside(s, |s|);
    assert s[1..][..0] == "" && inside.depth == 1;
  }

  /** The scanner returns the shortest balanced stretch from the first brace, and gives up only when
      there is no brace or no stretch from it balances. */
  lemma {:induction false} RecoveredIsShortestBalanced(text: string, start: nat)
    ensures '{' !in text ==> Recovered(text) == None
    ensures start < |text| && text[start] == '{' && '{' !in text[..start] ==> ShortestBalanced(text[start..], Recovered(text))
  {
    if start < |text| && text[start] == '{' && '{' !in text[..start] {
      assert Find(text, '{') == Some(start);
      ClosedIsShortest(text[start..]);
      match CloseLength(START, text[start..]) {
        case None =>
        case Some(n) => assert text[start..start + n] == text[start..][..n];
      }
    }
  }

  // ----- JSON text with its layout, as RFC 8259 sections 2, 4, 5 and 7 allow it

  datatype StringItem = Plain(c: char) | Escaped(c: char) | Unicode(hex: string)

  datatype Layout =
    | Scalar(token: string)
    | Text(items: seq<StringItem>)
    | Array(inner: string, elements: seq<Element>)
    | Object(inner: string, members: seq<Member>)

  /** A value with the white space before and after it. */
  datatype Element = Element(before: string, value: Layout, after: string)

  datatype Member = Member(before: string, key: seq<StringItem>, after: string, element: Element)

  predicate WhiteSpace(s: string) {
    forall i :: 0 <= i < |s| ==> s[i] in {' ', '\t', '\n', '\r'}
  }

  predicate HexDigit(c: char) {
    '0' <= c <= '9' || 'a' <= c <= 'f' || 'A' <= c <= 'F'
  }

  /** The tokens true, false, null and, as a superset, everything spelled with the characters of numbers. */
  predicate ScalarToken(s: string) {
    s in {"true", "false", "null"} || forall i :: 0 <= i < |s| ==> '0' <= s[i] <= '9' || s[i] in "+-.eE"
  }

  predicate ItemAllowed(item: StringItem) {
    match item
    case Plain(c) => c >= ' ' && c != '"' && c != '\\'
    case Escaped(c) => c in "\"\\/bfnrt"
    case Unicode(hex) => |hex| == 4 && forall i :: 0 <= i < 4 ==> HexDigit(hex[i])
  }

  predicate ItemsAllowed(items: seq<StringItem>) {
    forall i :: 0 <= i < |items| ==> ItemAllowed(items[i])
  }

  predicate Allowed(l: Layout) {
    match l
    case Scalar(token) => ScalarToken(token)
    case Text(items) => ItemsAllowed(items)
    case Array(inner, elements) =>
      WhiteSpace(inner) && forall i | 0 <= i < |elements| :: ElementAllowed(elements[i])
    case Object(inner, members) =>
      WhiteSpace(inner) && forall i | 0 <= i < |members| :: MemberAllowed(members[i])
  }

  predicate ElementAllowed(e: Element) {
    WhiteSpace(e.before) && WhiteSpace(e.after) && Allowed(e.value)
  }

  predicate MemberAllowed(m: Member) {
    WhiteSpace(m.before) && ItemsAllowed(m.key) && WhiteSpace(m.after) && ElementAllowed(m.element)
  }

  function PrintItem(item: StringItem): string {
    match item
    case Plain(c) => [c]
    case Escaped(c) => "\\" + [c]
    case Unicode(hex) => "\\u" + hex
  }

  function PrintItems(items: seq<StringItem>): string {
    if items == [] then "" else PrintItem(items[0]) + PrintItems(items[1..])
  }

  function PrintString(items: seq<StringItem>): string {
    "\"" + PrintItems(items) + "\""
  }

  function Print(l: Layout): string
    decreases l, 0
  {
    match l
    case Scalar(token) => token
    case Text(items) => PrintString(items)
    case Array(inner, elements) => "[" + inner + PrintElements(elements) + "]"
    case Object(inner, members) => "{" + inner + PrintMembers(members) + "}"
  }

  function PrintElement(e: Element): string {
    e.before + Print(e.value) + e.after
  }

  function PrintMember(m: Member): string {
    m.before + PrintString(m.key) + m.after + ":" + PrintElement(m.element)
  }

  function PrintElements(es: seq<Element>): string {
    if es == [] then "" else PrintElement(es[0]) + (if |es| == 1 then "" else "," + PrintElements(es[1..]))
  }

  function PrintMembers(ms: seq<Member>): string {
    if ms == [] then "" else PrintMember(ms[0]) + (if |ms| == 1 then "" else "," + PrintMembers(ms[1..]))
  }

  /** The layouts cover the grammar: every character a string may hold as it is, every escape, every Unicode
      escape, the three names, and every text made of the characters of numbers. */
  lemma {:induction false} SpellingsAllowed(c: char, hex: string, number: string)
    ensures c >= ' ' && c != '"' && c != '\\' ==> ItemAllowed(Plain(c)) && PrintItem(Plain(c)) == [c]
    ensures c in ['"', '\\', '/', 'b', 'f', 'n', 'r', 't'] ==> ItemAllowed(Escaped(c)) && PrintItem(Escaped(c)) == ['\\', c]
    ensures |hex| == 4 && (forall i :: 0 <= i < 4 ==> hex[i] in "0123456789abcdefABCDEF") ==>
      ItemAllowed(Unicode(hex)) && PrintItem(Unicode(hex)) == ['\\', 'u'] + hex
    ensures ScalarToken("true") && ScalarToken("false") && ScalarToken("null")
    ensures (forall i :: 0 <= i < |number| ==> number[i] in "0123456789+-.eE") ==> ScalarToken(number)
  {
    assert c in ['"', '\\', '/', 'b', 'f', 'n', 'r', 't'] ==> c in "\"\\/bfnrt";
    HexDigits(hex);
    NumberCharacters(number);
  }

  lemma {:induction false} HexDigits(hex: string)
    ensures (forall i :: 0 <= i < |hex| ==> hex[i] in "0123456789abcdefABCDEF") ==>
      forall i :: 0 <= i < |hex| ==> HexDigit(hex[i])
  {
  }

  lemma {:induction false} NumberCharacters(number: string)
    ensures (forall i :: 0 <= i < |number| ==> number[i] in "0123456789+-.eE") ==>
      forall i :: 0 <= i < |number| ==> '0' <= number[i] <= '9' || number[i] in "+-.eE"
  {
    forall i | 0 <= i < |number| && number[i] in "0123456789+-.eE" ensures '0' <= number[i] <= '9' || number[i] in "+-.eE" {
      assert "0123456789+-.eE" == "0123456789" + "+-.eE";
    }
  }

  /** A string's items and a value's parts are printed one after the other, between their marks. */
  lemma {:induction false} PrintingMeaning(items: seq<StringItem>, item: StringItem)
    ensures PrintString([]) == ['"', '"'] && PrintString([item] + items) == ['"'] + PrintItem(item) + PrintString(items)[1..]
  {
    assert ([item] + items)[1..] == items;
    assert PrintString(items)[1..] == PrintItems(items) + "\"";
  }

  // ----- the scanner walks over printed values

  /** From `st` over `s` the depth never falls below `floor`. */
  predicate Above(floor: int, st: Scan, s: string)
    decreases |s|
  {
    st.depth >= floor && (s == "" || Above(floor, Step(st, s[0]), s[1..]))
  }

  /** The scanner enters and leaves `s` in the same state and never gets below its depth in between. */
  predicate Passes(st: Scan, s: string) {
    Run(st, s) == st && Above(st.depth, st, s)
  }

  lemma {:induction false} AboveAppend(floor: int, st: Scan, a: string, b: string)
    requires Above(floor, st, a) && Above(floor, Run(st, a), b)
    ensures Above(floor, st, a + b)
    decreases |a|
  {
    if a == "" {
      assert a + b == b;
    } else {
      assert (a + b)[1..] == a[1..] + b;
      AboveAppend(floor, Step(st, a[0]), a[1..], b);
    }
  }

  lemma {:induction false} PassesAppend(st: Scan, a: string, b: string)
    requires Passes(st, a) && Passes(st, b)
    ensures Passes(st, a + b)
  {
    RunAppend(st, a, b);
    AboveAppend(st.depth, st, a, b);
  }

  /** Characters that leave the scanner where it is. */
  lemma {:induction false} PassesNeutral(st: Scan, s: string)
    requires forall i :: 0 <= i < |s| ==> Step(st, s[i]) == st
    ensures Passes(st, s)
    decreases |s|
  {
    if s != "" {
      PassesNeutral(st, s[1..]);
    }
  }

  lemma {:induction false} PassesEscape(st: Scan, c: char)
    requires st.inString && !st.escaped
    ensures Passes(st, ['\\', c])
  {
    var s := ['\\', c];
    assert s[1..] == [c] && s[1..][1..] == "";
    assert Run(st, s) == Run(Step(st, '\\'), [c]) == Run(st, "");
    assert Above(st.depth, Step(st, '\\'), [c]);
  }

  lemma {:induction false} PassesItem(st: Scan, item: StringItem)
    requires st.inString && !st.escaped && ItemAllowed(item)
    ensures Passes(st, PrintItem(item))
  {
    var s := PrintItem(item);
    match item {
      case Plain(c) =>
        PassesNeutral(st, s);
      case Escaped(c) =>
        PassesEscape(st, c);
      case Unicode(hex) =>
        PassesEscape(st, 'u');
        PassesNeutral(st, hex);
        PassesAppend(st, "\\u", hex);
    }
  }

  lemma {:induction false} PassesItems(st: Scan, items: seq<StringItem>)
    requires st.inString && !st.escaped && ItemsAllowed(items)
    ensures Passes(st, PrintItems(items))
  {
    if items != [] {
      PassesItem(st, items[0]);
      PassesItems(st, items[1..]);
      PassesAppend(st, PrintItem(items[0]), PrintItems(items[1..]));
    }
  }

  lemma {:induction false} PassesString(st: Scan, items: seq<StringItem>)
    requires !st.inString && !st.escaped && ItemsAllowed(items)
    ensures Passes(st, PrintString(items))
  {
    var inside := st.(inString := true);
    PassesItems(inside, items);
    Bracketed(st, '"', inside, PrintItems(items), '"', PrintString(items));
  }

  /** An opening character, a stretch the scanner passes in the state behind it, and a closing one. */
  lemma {:induction false} Bracketed(st: Scan, open: char, inside: Scan, s: string, close: char, whole: string)
    requires whole == [open] + s + [close]
    requires Step(st, open) == inside && Step(inside, close) == st && inside.depth >= st.depth
    requires Passes(inside, s)
    ensures Passes(st, whole)
  {
    assert whole == [open] + (s + [close]) && whole[1..] == s + [close];
    RunAppend(inside, s, [close]);
    assert [close][1..] == "";
    AboveLower(inside.depth, st.depth, inside, s);
    AboveAppend(st.depth, inside, s, [close]);
  }

  lemma {:induction false} AboveLower(floor: int, lower: int, st: Scan, s: string)
    requires lower <= floor && Above(floor, st, s)
    ensures Above(lower, st, s)
    decreases |s|
  {
    if s != "" {
      AboveLower(floor, lower, Step(st, s[0]), s[1..]);
    }
  }

  lemma {:induction false} PassesLayout(st: Scan, l: Layout)
    requires !st.inString && !st.escaped && Allowed(l)
    ensures Passes(st, Print(l))
    decreases l, 0
  {
    match l {
      case Scalar(token) => PassesNeutral(st, token);
      case Text(items) => PassesString(st, items);
      case Array(inner, elements) =>
        PassesArrayBody(st, inner, elements);
        assert Print(l) == ['['] + (inner + PrintElements(elements)) + [']'];
        Bracketed(st, '[', st, inner + PrintElements(elements), ']', Print(l));
      case Object(inner, members) =>
        PassesObjectBody(st.(depth := st.depth + 1), inner, members);
        assert Print(l) == ['{'] + (inner + PrintMembers(members)) + ['}'];
        Bracketed(st, '{', st.(depth := st.depth + 1), inner + PrintMembers(members), '}', Print(l));
    }
  }

  lemma {:induction false} PassesArrayBody(st: Scan, inner: string, elements: seq<Element>)
    requires !st.inString && !st.escaped && WhiteSpace(inner)
    requires forall i | 0 <= i < |elements| :: ElementAllowed(elements[i])
    ensures Passes(st, inner + PrintElements(elements))
    decreases elements, 2
  {
    PassesNeutral(st, inner);
    PassesElements(st, elements);
    PassesAppend(st, inner, PrintElements(elements));
  }

  lemma {:induction false} PassesObjectBody(st: Scan, inner: string, members: seq<Member>)
    requires !st.inString && !st.escaped && WhiteSpace(inner)
    requires forall i | 0 <= i < |members| :: MemberAllowed(members[i])
    ensures Passes(st, inner + PrintMembers(members))
    decreases members, 2
  {
    PassesNeutral(st, inner);
    PassesMembers(st, members);
    PassesAppend(st, inner, PrintMembers(members));
  }

  lemma {:induction false} PassesElement(st: Scan, e: Element)
    requires !st.inString && !st.escaped && ElementAllowed(e)
    ensures Passes(st, PrintElement(e))
    decreases e, 1
  {
    PassesNeutral(st, e.before);
    PassesLayout(st, e.value);
    PassesAppend(st, e.before, Print(e.value));
    PassesNeutral(st, e.after);
    PassesAppend(st, e.before + Print(e.value), e.after);
  }

  lemma {:induction false} PassesElements(st: Scan, es: seq<Element>)
    requires !st.inString && !st.escaped && forall i | 0 <= i < |es| :: ElementAllowed(es[i])
    ensures Passes(st, PrintElements(es))
    decreases es, 1
  {
    if es != [] {
      PassesElement(st, es[0]);
      if |es| == 1 {
        assert PrintElements(es) == PrintElement(es[0]);
      } else {
        PassesElements(st, es[1..]);
        PassesNeutral(st, ",");
        PassesAppend(st, ",", PrintElements(es[1..]));
        PassesAppend(st, PrintElement(es[0]), "," + PrintElements(es[1..]));
      }
    }
  }

  lemma {:induction false} PassesMembers(st: Scan, ms: seq<Member>)
    requires !st.inString && !st.escaped && forall i | 0 <= i < |ms| :: MemberAllowed(ms[i])
    ensures Passes(st, PrintMembers(ms))
    decreases ms, 1
  {
    if ms != [] {
      var m := ms[0];
      PassesNeutral(st, m.before);
      PassesString(st, m.key);
      PassesAppend(st, m.before, PrintString(m.key));
      PassesNeutral(st, m.after);
      PassesAppend(st, m.before + PrintString(m.key), m.after);
      PassesNeutral(st, ":");
      PassesAppend(st, m.before + PrintString(m.key) + m.after, ":");
      PassesElement(st, m.element);
      PassesAppend(st, m.before + PrintString(m.key) + m.after + ":", PrintElement(m.element));
      if |ms| == 1 {
        assert PrintMembers(ms) == PrintMember(m);
      } else {
        PassesMembers(st, ms[1..]);
        PassesNeutral(st, ",");
        PassesAppend(st, ",", PrintMembers(ms[1..]));
        PassesAppend(st, PrintMember(m), "," + PrintMembers(ms[1..]));
      }
    }
  }

  lemma {:induction false} CloseLengthSkips(st: Scan, s: string, rest: string)
    requires Above(1, st, s)
    ensures CloseLength(st, s + rest) ==
      match CloseLength(Run(st, s), rest)
      case Some(n) => Some(|s| + n)
      case None => None
    decreases |s|
  {
    if s == "" {
      assert s + rest == rest;
    } else {
      assert (s + rest)[1..] == s[1..] + rest;
      CloseLengthSkips(Step(st, s[0]), s[1..], rest);
    }
  }

  lemma {:induction false} ObjectCloses(l: Layout, after: string)
    requires l.Object? && Allowed(l)
    ensures CloseLength(START, Print(l) + after) == Some(|Print(l)|)
  {
    var body := l.inner + PrintMembers(l.members);
    var inside := Scan(1, false, false);
    PassesObjectBody(inside, l.inner, l.members);
    assert Print(l) + after == "{" + (body + ("}" + after));
    assert (Print(l) + after)[1..] == body + ("}" + after);
    CloseLengthSkips(inside, body, "}" + after);
    assert CloseLength(inside, "}" + after) == Some(1);
  }

  /** Main scanner result: the object's text comes back exactly, whatever its layout and whatever follows it. */
  lemma {:induction false} RecoveryIsExact(before: string, l: Layout, after: string)
    requires '{' !in before && l.Object? && Allowed(l)
    ensures Recovered(before + Print(l) + after) == Some(Print(l))
  {
    var text, start := before + Print(l) + after, |before|;
    assert Find(text, '{') == Some(start) by {
      assert Print(l)[0] == '{' && text[start] == '{';
      assert before == text[..start];
    }
    assert text[start..] == Print(l) + after;
    ObjectCloses(l, after);
    assert text[start..start + |Print(l)|] == Print(l);
  }

  // ----- the reply parser

  function StripFence(text: string): string {
    var stripped := Strip(text);
    if StartsWith(stripped, "```json") && EndsWith(stripped, "```") then
      Strip(RemoveSuffix(RemovePrefix(stripped, "```json"), "```"))
    else if StartsWith(stripped, "```") && EndsWith(stripped, "```") then
      Strip(RemoveSuffix(RemovePrefix(stripped, "```"), "```"))
    else stripped
  }

  datatype Reply = Raw(text: string) | Parsed(fields: map<string, Json>)

  datatype ReplyError = NotJson | NotAnObject | SchemaMismatch

  function Load(loads: string -> Option<Json>, stripped: string): Option<Json> {
    if loads(stripped).Some? then loads(stripped)
    else match Recovered(stripped)
      case None => None
      case Some(candidate) => loads(candidate)
  }

  function ParsedReply(text: string, schema: Option<Schema>, loads: string -> Option<Json>): Result<Reply, ReplyError> {
    if schema.None? then Success(Raw(text))
    else match Load(loads, StripFence(text))
      case None => Failure(NotJson)
      case Some(value) =>
        if !value.Obj? then Failure(NotAnObject)
        else
          var check := ValidationSchema(schema.value);
          if check.Some? && !Valid(check.value, value) then Failure(SchemaMismatch)
          else Success(Parsed(value.fields))
  }

  /** What a loaded value is answered with: an error if it is no object, itself if nothing checks it, and
      else itself or a mismatch, by the rewritten schema. Of the values that satisfy the requested schema exactly the expressible pass
      the check, and whatever passes satisfies the requested schema once its optional nulls are dropped. */
  ghost predicate Answers(schema: Schema, value: Json, r: Result<Reply, ReplyError>) {
    if !value.Obj? then r == Failure(NotAnObject)
    else if schema.ObjectLike() && schema.Declared().Keys == {} then r == Success(Parsed(value.fields))
    else
      && r == (if Valid(Normalize(schema, false), value) then Success(Parsed(value.fields)) else Failure(SchemaMismatch))
      && (Valid(schema, value) ==> (r.Success? <==> Expressible(schema, false, value)))
      && (EnumsStable(schema) && r.Success? ==> Valid(schema, DropNulls(schema, value)))
  }

  lemma {:induction false} CheckedAnswers(schema: Schema, value: Json)
    ensures Answers(schema, value,
      if !value.Obj? then Failure(NotAnObject)
      else if ValidationSchema(schema).Some? && !Valid(ValidationSchema(schema).value, value) then Failure(SchemaMismatch)
      else Success(Parsed(value.fields)))
  {
    if value.Obj? && !(schema.ObjectLike() && schema.Declared().Keys == {}) {
      assert ValidationSchema(schema) == Some(Normalize(schema, false));
      if Valid(schema, value) {
        CheckAcceptsExactly(schema, value);
      }
      if EnumsStable(schema) && Valid(Normalize(schema, false), value) {
        CheckedReply(schema, value);
      }
    }
  }

  method ParseGenerateText(text: Option<string>, schema: Option<Schema>, loads: string -> Option<Json>)
    returns (r: Result<Reply, ReplyError>)
    ensures r == ParsedReply(text.GetOr(""), schema, loads)
    ensures schema.None? ==> r == Success(Raw(if text.Some? then text.value else ""))
    ensures schema.Some? ==>
      var stripped := StripFence(if text.Some? then text.value else "");
      match loads(stripped)
      case Some(value) => Answers(schema.value, value, r)
      case None =>
        match Recovered(stripped)
        case None => r == Failure(NotJson)
        case Some(candidate) =>
          if loads(candidate).None? then r == Failure(NotJson) else Answers(schema.value, loads(candidate).value, r)
  {
    if schema.None? {
      return Success(Raw(text.GetOr("")));
    }
    var stripped := StripFence(text.GetOr(""));
    var value := loads(stripped);
    if value.None? {
      var candidate := ExtractJsonObject(stripped);
      if candidate.None? {
        return Failure(NotJson);
      }
      value := loads(candidate.value);
      if value.None? {
        return Failure(NotJson);
      }
    }
    CheckedAnswers(schema.value, value.value);
    if !value.value.Obj? {
      return Failure(NotAnObject);
    }
    var check := ValidationSchema(schema.value);
    if check.Some? && !Valid(check.value, value.value) {
      return Failure(SchemaMismatch);
    }
    return Success(Parsed(value.value.fields));
  }

  /** An object wrapped in prose, when the stripped text is not itself JSON and the object satisfies the
      requested schema: it is recovered, and let by exactly when that schema has no properties to check or
      the object is expressible once the schema is closed. */
  lemma {:induction false} WrappedObjectIsParsed(text: string, schema: Schema, loads: string -> Option<Json>,
                                                 before: string, l: Layout, after: string, fields: map<string, Json>)
    requires '{' !in before && l.Object? && Allowed(l)
    requires StripFence(text) == before + Print(l) + after
    requires loads(StripFence(text)).None? && loads(Print(l)) == Some(Obj(fields))
    requires Valid(schema, Obj(fields))
    ensures ParsedReply(text, Some(schema), loads) ==
      if (schema.ObjectLike() && schema.Declared() == map[]) || Expressible(schema, false, Obj(fields))
      then Success(Parsed(fields)) else Failure(SchemaMismatch)
  {
    RecoveryIsExact(before, l, after);
    CheckAcceptsExactly(schema, Obj(fields));
  }

  /** Between opening and closing marks, the stripper keeps the content; `json` right after the opening
      counts as its language tag. */
  lemma {:induction false} FenceIsDropped(before: string, content: string, after: string)
    requires AllSpace(before) && AllSpace(after)
    ensures StripFence(before + ("```" + content + "```") + after) ==
      Strip(if StartsWith(content, "json") then content[4..] else content)
  {
    var text := "```" + content + "```";
    assert text[0] == '`' && text[|text| - 1] == '`';
    StripAround(before, text, after);
    StripTrimmed(text);
    InnerFenceIsDropped(content);
  }

  /** Text without marks at both ends only loses its outer white space. */
  lemma {:induction false} UnfencedIsStripped(before: string, text: string, after: string)
    requires AllSpace(before) && AllSpace(after) && Trimmed(text)
    requires !StartsWith(text, "```") || !EndsWith(text, "```")
    ensures StripFence(before + text + after) == text
  {
    StripAround(before, text, after);
    if StartsWith(text, "```json") {
      assert text[..3] == "```json"[..3] == "```";
    }
  }

  lemma {:induction false} InnerFenceIsDropped(content: string)
    requires Strip("```" + content + "```") == "```" + content + "```"
    ensures StripFence("```" + content + "```") == Strip(if StartsWith(content, "json") then content[4..] else content)
  {
    var text := "```" + content + "```";
    assert text[|text| - 3..] == "```" && EndsWith(text, "```");
    if StartsWith(content, "json") {
      var rest := content[4..];
      assert content == "json" + rest;
      assert text == "```json" + (rest + "```");
      ClosingDropped(rest);
      assert RemovePrefix(text, "```json") == rest + "```";
    } else {
      assert text == "```" + (content + "```");
      TagIsContent(content);
      ClosingDropped(content);
      assert RemovePrefix(text, "```") == content + "```";
    }
  }

  lemma {:induction false} TagIsContent(content: string)
    ensures StartsWith("```" + content + "```", "```json") <==> StartsWith(content, "json")
  {
    var text := "```" + content + "```";
    if StartsWith(text, "```json") {
      assert text[3] == "```json"[3] && text[4] == "```json"[4] && text[5] == "```json"[5] && text[6] == "```json"[6];
      assert |content| >= 4 && content[..4] == "json" by {
        assert |content| > 0 && |content| > 1 && |content| > 2 && |content| > 3;
      }
    }
    if StartsWith(content, "json") {
      assert text[..7] == "```json";
    }
  }

  lemma {:induction false} ClosingDropped(content: string)
    ensures RemoveSuffix(content + "```", "```") == content
  {
    assert (content + "```")[|content|..] == "```";
  }

  lemma {:induction false} TaggedContent(tagged: bool, spaced: string)
    requires spaced != "" && spaced[0] != 'j'
    ensures var content := (if tagged then "json" else "") + spaced;
      (if StartsWith(content, "json") then content[4..] else content) == spaced
  {
    var content := (if tagged then "json" else "") + spaced;
    if tagged {
      assert content[..4] == "json" && content[4..] == spaced;
    } else {
      assert content == spaced && "json"[0] == 'j';
    }
  }

  /** A fenced object is read whole, with or without the language tag. */
  lemma {:induction false} FencedObjectIsRead(tagged: bool, before: string, l: Layout, after: string)
    requires WhiteSpace(before) && WhiteSpace(after) && l.Object? && Allowed(l)
    ensures StripFence("```" + ((if tagged then "json" else "") + (before + Print(l) + after)) + "```") == Print(l)
  {
    var spaced := before + Print(l) + after;
    var content := (if tagged then "json" else "") + spaced;
    ObjectText(l);
    WhiteIsSpace(before);
    WhiteIsSpace(after);
    FirstCharacter(before, Print(l), after);
    TaggedContent(tagged, spaced);
    Fenced(content);
    StripAround(before, Print(l), after);
  }

  lemma {:induction false} Fenced(content: string)
    ensures StripFence("```" + content + "```") == Strip(if StartsWith(content, "json") then content[4..] else content)
  {
    FenceIsDropped("", content, "");
    assert "" + ("```" + content + "```") + "" == "```" + content + "```";
  }

  lemma {:induction false} WhiteIsSpace(s: string)
    requires WhiteSpace(s)
    ensures AllSpace(s)
  {
  }

  lemma {:induction false} ObjectText(l: Layout)
    requires l.Object?
    ensures Print(l) != "" && Print(l)[0] == '{' && Trimmed(Print(l))
  {
    assert Print(l)[0] == '{' && Print(l)[|Print(l)| - 1] == '}';
  }

  lemma {:induction false} FirstCharacter(before: string, text: string, after: string)
    requires WhiteSpace(before) && text != "" && text[0] == '{'
    ensures before + text + after != "" && (before + text + after)[0] != 'j'
  {
    assert (before + text + after)[0] == if before == "" then '{' else before[0];
  }

  /** What the parser lets through, stripped of its optional nulls, satisfies the schema that was asked for. */
  lemma {:induction false} ParsedReplySatisfiesSchema(text: string, schema: Schema, loads: string -> Option<Json>)
    requires EnumsStable(schema) && !(schema.ObjectLike() && schema.Declared().Keys == {})
    ensures var r := ParsedReply(text, Some(schema), loads);
      r.Success? ==> r.value.Parsed? && Valid(schema, DropNulls(schema, Obj(r.value.fields)))
  {
    var r := ParsedReply(text, Some(schema), loads);
    if r.Success? {
      CheckedReply(schema, Obj(r.value.fields));
    }
  }
}

/** The Python string operations the modelled code uses. */
module Text {

  /** The characters `str.strip` and `str.split` treat as white space. */
  predicate IsSpace(c: char) {
    || '\t' <= c <= '\r' || '\U{1C}' <= c <= ' '
    || c in {'\U{85}', '\U{A0}', '\U{1680}', '\U{2028}', '\U{2029}', '\U{202F}', '\U{205F}', '\U{3000}'}
    || '\U{2000}' <= c <= '\U{200A}'
  }

  predicate AllSpace(s: string) {
    forall i :: 0 <= i < |s| ==> IsSpace(s[i])
  }

  function StripLeft(s: string): string {
    if s != "" && IsSpace(s[0]) then StripLeft(s[1..]) else s
  }

  function StripRight(s: string): string {
    if s != "" && IsSpace(s[|s| - 1]) then StripRight(s[..|s| - 1]) else s
  }

  function Strip(s: string): string {
    StripRight(StripLeft(s))
  }

  predicate Trimmed(s: string) {
    s != "" ==> !IsSpace(s[0]) && !IsSpace(s[|s| - 1])
  }

  function Join(parts: seq<string>, separator: string): string {
    if parts == [] then ""
    else if |parts| == 1 then parts[0]
    else parts[0] + separator + Join(parts[1..], separator)
  }

  predicate StartsWith(s: string, prefix: string) {
    prefix <= s
  }

  predicate EndsWith(s: string, suffix: string) {
    |suffix| <= |s| && s[|s| - |suffix|..] == suffix
  }

  function RemovePrefix(s: string, prefix: string): string {
    if StartsWith(s, prefix) then s[|prefix|..] else s
  }

  function RemoveSuffix(s: string, suffix: string): string {
    if suffix != "" && EndsWith(s, suffix) then s[..|s| - |suffix|] else s
  }

  predicate Contains(s: string, part: string) {
    exists i :: 0 <= i <= |s| && part <= s[i..]
  }

  function LowerChar(c: char): char {
    if 'A' <= c <= 'Z' then c - 'A' + 'a' else c
  }

  function Lower(s: string): string {
    seq(|s|, i requires 0 <= i < |s| => LowerChar(s[i]))
  }

  // ----- stripping

  /** Stripping is characterised by what it leaves: a trimmed middle between white space. */
  lemma {:induction false} StripLeftSplits(s: string) returns (before: string)
    ensures s == before + StripLeft(s) && AllSpace(before)
    ensures StripLeft(s) != "" ==> !IsSpace(StripLeft(s)[0])
  {
    if s != "" && IsSpace(s[0]) {
      var rest := StripLeftSplits(s[1..]);
      before := [s[0]] + rest;
    } else {
      before := "";
    }
  }

  lemma {:induction false} StripRightSplits(s: string) returns (after: string)
    ensures s == StripRight(s) + after && AllSpace(after)
    ensures StripRight(s) != "" ==> !IsSpace(StripRight(s)[|StripRight(s)| - 1])
  {
    if s != "" && IsSpace(s[|s| - 1]) {
      var rest := StripRightSplits(s[..|s| - 1]);
      after := rest + [s[|s| - 1]];
    } else {
      after := "";
    }
  }

  lemma {:induction false} StripLeftSpace(before: string, s: string)
    requires AllSpace(before)
    ensures StripLeft(before + s) == StripLeft(s)
  {
    if before == "" {
      assert before + s == s;
    } else {
      assert (before + s)[1..] == before[1..] + s;
      StripLeftSpace(before[1..], s);
    }
  }

  lemma {:induction false} StripRightSpace(s: string, after: string)
    requires AllSpace(after)
    ensures StripRight(s + after) == StripRight(s)
  {
    if after == "" {
      assert s + after == s;
    } else {
      assert (s + after)[..|s + after| - 1] == s + after[..|after| - 1];
      StripRightSpace(s, after[..|after| - 1]);
    }
  }

  lemma {:induction false} StripAround(before: string, s: string, after: string)
    requires AllSpace(before) && AllSpace(after) && Trimmed(s)
    ensures Strip(before + s + after) == s
  {
    assert before + s + after == before + (s + after);
    StripLeftSpace(before, s + after);
    if s == "" {
      assert s + after == after + "";
      StripLeftSpace(after, "");
    } else {
      StripRightSpace(s, after);
    }
  }

  lemma {:induction false} StripSplits(s: string) returns (before: string, after: string)
    ensures s == before + Strip(s) + after
    ensures AllSpace(before) && AllSpace(after) && Trimmed(Strip(s))
  {
    before := StripLeftSplits(s);
    after := StripRightSplits(StripLeft(s));
    assert StripLeft(s) == Strip(s) + after;
    if Strip(s) != "" {
      assert Strip(s)[0] == StripLeft(s)[0];
    }
  }

  lemma {:induction false} StripTrimmed(s: string)
    requires Trimmed(s)
    ensures Strip(s) == s
  {
    assert "" + s + "" == s;
    StripAround("", s, "");
  }

  /** Each joined part is somewhere in the result. */
  lemma {:induction false} JoinHolds(parts: seq<string>, separator: string, i: nat) returns (before: string,
                                     after: string)
    requires i < |parts|
    ensures Join(parts, separator) == before + parts[i] + after
  {
    if |parts| == 1 {
      before, after := "", "";
    } else if i == 0 {
      before, after := "", separator + Join(parts[1..], separator);
    } else {
      var b, a := JoinHolds(parts[1..], separator, i - 1);
      before, after := parts[0] + separator + b, a;
    }
  }

  lemma {:induction false} ContainsMiddle(before: string, part: string, after: string)
    ensures Contains(before + part + after, part)
  {
    assert (before + part + after)[|before|..] == part + after;
  }

  lemma {:induction false} ContainsNested(whole: string, before: string, inner: string, after: string, head: string,
                                          lead: string, part: string, rest: string)
    requires whole == before + inner + after && inner == head + (lead + part + rest)
    ensures Contains(whole, part)
  {
    assert whole == (before + head + lead) + part + (rest + after);
    ContainsMiddle(before + head + lead, part, rest + after);
  }

  // ----- sequences

  lemma {:induction false} Associates<T>(x: seq<T>, y: seq<T>, z: seq<T>)
    ensures (x + y) + z == x + (y + z)
  {
  }

  lemma {:induction false} InitOfAppend<T>(a: seq<T>, b: seq<T>)
    requires b != []
    ensures (a + b)[..|a + b| - 1] == a + b[..|b| - 1] && (a + b)[|a + b| - 1] == b[|b| - 1]
  {
  }

  lemma {:induction false} DropOfAppend<T>(a: seq<T>, b: seq<T>, n: nat)
    requires n <= |a|
    ensures (a + b)[n..] == a[n..] + b
  {
  }
}

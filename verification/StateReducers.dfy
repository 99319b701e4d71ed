/** The bounded list reducers of the workflow state (app/graphs/state.py). */
module StateReducers {
  import opened Wrappers
  import opened Recency

  // ----- source context

  /** An element of the channel; "" stands for an absent id. */
  datatype SourceEntry =
    | NotAnEntry
    | SourceEntry(reset: bool, documentId: string, predecessorVersionId: string, excerpt: string)

  datatype SourceKey = SourceDocument(id: string) | PredecessorVersion(id: string)

  const SOURCE_CONTEXT_LIMIT: nat := 12

  function KeyOf(e: SourceEntry): Option<SourceKey> {
    if e.NotAnEntry? then None
    else if e.documentId != "" then Some(SourceDocument(e.documentId))
    else if e.predecessorVersionId != "" then Some(PredecessorVersion(e.predecessorVersionId))
    else None
  }

  /** Two entries are about the same source: the same document or, where neither names one, the same version. */
  predicate SameSource(a: SourceEntry, b: SourceEntry) {
    && a.SourceEntry? && b.SourceEntry?
    && a.documentId == b.documentId
    && (a.documentId == "" ==> a.predecessorVersionId == b.predecessorVersionId && a.predecessorVersionId != "")
  }

  lemma {:induction false} KeyMeaning(a: SourceEntry, b: SourceEntry)
    ensures KeyOf(a).Some? <==> a.SourceEntry? && (a.documentId != "" || a.predecessorVersionId != "")
    ensures KeyOf(a).Some? && KeyOf(a) == KeyOf(b) <==> SameSource(a, b)
  {
  }

  predicate IsReset(e: SourceEntry) {
    e.SourceEntry? && e.reset
  }

  /** The entries after the last reset. */
  function SinceReset(entries: seq<SourceEntry>): seq<SourceEntry> {
    if entries == [] || IsReset(entries[|entries| - 1]) then []
    else SinceReset(entries[..|entries| - 1]) + [entries[|entries| - 1]]
  }

  function Loaded(entries: seq<SourceEntry>): seq<SourceEntry> {
    Latest(SinceReset(entries), KeyOf)
  }

  function SourceContext(entries: seq<SourceEntry>): seq<SourceEntry> {
    LastN(Loaded(entries), SOURCE_CONTEXT_LIMIT)
  }

  /** The reducer. `deduped` is the insertion-ordered dictionary, kept as the list of its values. */
  method MergeSourceContext(left: Option<seq<SourceEntry>>, right: Option<seq<SourceEntry>>)
    returns (r: seq<SourceEntry>)
    ensures r == SourceContext(left.GetOr([]) + right.GetOr([]))
  {
    var entries := left.GetOr([]) + right.GetOr([]);
    var deduped: seq<SourceEntry> := [];
    for i := 0 to |entries|
      invariant deduped == Loaded(entries[..i])
    {
      var entry := entries[i];
      assert entries[..i + 1] == entries[..i] + [entry];
      LoadedSnoc(entries[..i], entry);
      if !entry.NotAnEntry? && entry.reset {
        deduped := [];
      } else {
        var key := KeyOf(entry);
        if key.Some? {
          deduped := DropKey(deduped, KeyOf, key.value);
          deduped := deduped + [entry];
        }
      }
    }
    assert entries[..|entries|] == entries;
    r := LastN(deduped, SOURCE_CONTEXT_LIMIT);
  }

  function Load(loaded: seq<SourceEntry>, e: SourceEntry): seq<SourceEntry> {
    if IsReset(e) then []
    else if KeyOf(e).None? then loaded
    else DropKey(loaded, KeyOf, KeyOf(e).value) + [e]
  }

  lemma {:induction false} LoadedSnoc(entries: seq<SourceEntry>, e: SourceEntry)
    ensures Loaded(entries + [e]) == Load(Loaded(entries), e)
  {
    assert (entries + [e])[..|entries|] == entries;
    if !IsReset(e) {
      LatestSnoc(SinceReset(entries), KeyOf, e);
    }
  }

  lemma {:induction false} LoadedDistinct(entries: seq<SourceEntry>)
    ensures DistinctKeys(Loaded(entries), KeyOf)
    ensures forall i :: 0 <= i < |Loaded(entries)| ==> !IsReset(Loaded(entries)[i])
  {
    LatestKeys(SinceReset(entries), KeyOf);
    var at := LatestPositions(SinceReset(entries), KeyOf);
    SinceResetHasNone(entries);
  }

  lemma {:induction false} SinceResetHasNone(entries: seq<SourceEntry>)
    ensures forall i :: 0 <= i < |SinceReset(entries)| ==> !IsReset(SinceReset(entries)[i])
    ensures (forall i :: 0 <= i < |entries| ==> !IsReset(entries[i])) ==> SinceReset(entries) == entries
  {
    if entries != [] {
      SinceResetHasNone(entries[..|entries| - 1]);
    }
  }

  /** What counts starts right after the last reset marker, or at the beginning. */
  lemma {:induction false} SinceResetMeaning(entries: seq<SourceEntry>) returns (k: nat)
    ensures k <= |entries| && SinceReset(entries) == entries[k..]
    ensures k > 0 ==> entries[k - 1].SourceEntry? && entries[k - 1].reset
    ensures forall i :: k <= i < |entries| ==> !(entries[i].SourceEntry? && entries[i].reset)
  {
    if entries == [] || IsReset(entries[|entries| - 1]) {
      k := |entries|;
    } else {
      var n := |entries| - 1;
      k := SinceResetMeaning(entries[..n]);
      assert entries[k..] == entries[..n][k..] + [entries[n]];
      forall i | k <= i < n ensures entries[..n][i] == entries[i] {}
    }
  }

  /** A stored result reloads to itself. */
  lemma {:induction false} StoredReloads(entries: seq<SourceEntry>)
    ensures Loaded(SourceContext(entries)) == SourceContext(entries)
  {
    LoadedDistinct(entries);
    SinceResetHasNone(SourceContext(entries));
    LatestOfDistinct(SourceContext(entries), KeyOf);
  }

  /** From lists that agree on their last twelve, loading more keeps them agreeing. */
  lemma {:induction false} LoadingAgrees(a: seq<SourceEntry>, b: seq<SourceEntry>, more: seq<SourceEntry>)
    requires LastN(Loaded(a), SOURCE_CONTEXT_LIMIT) == LastN(Loaded(b), SOURCE_CONTEXT_LIMIT)
    ensures LastN(Loaded(a + more), SOURCE_CONTEXT_LIMIT) == LastN(Loaded(b + more), SOURCE_CONTEXT_LIMIT)
  {
    if more == [] {
      assert a + more == a && b + more == b;
    } else {
      var init, e := more[..|more| - 1], more[|more| - 1];
      LoadingAgrees(a, b, init);
      assert a + more == (a + init) + [e] && b + more == (b + init) + [e];
      LoadedSnoc(a + init, e);
      LoadedSnoc(b + init, e);
      LoadedDistinct(a + init);
      LoadedDistinct(b + init);
      if !IsReset(e) && KeyOf(e).Some? {
        BoundedMove(Loaded(a + init), KeyOf, e, SOURCE_CONTEXT_LIMIT);
        BoundedMove(Loaded(b + init), KeyOf, e, SOURCE_CONTEXT_LIMIT);
      }
    }
  }

  /** Merging in batches gives what merging at once gives, reset markers included. */
  lemma {:induction false} SourceContextBatches(a: seq<SourceEntry>, b: seq<SourceEntry>, c: seq<SourceEntry>)
    ensures SourceContext(SourceContext(a + b) + c) == SourceContext(a + (b + c))
  {
    StoredReloads(a + b);
    LoadingAgrees(SourceContext(a + b), a + b, c);
    assert a + (b + c) == (a + b) + c;
  }

  /** No two entries of a result are about the same source, and whatever was loaded since the reset about some
      source is there at its latest, unless twelve later sources have pushed it out. */
  lemma {:induction false} SourcesMeaning(entries: seq<SourceEntry>, i: nat) returns (j: nat)
    requires i < |SinceReset(entries)| && SameSource(SinceReset(entries)[i], SinceReset(entries)[i])
    ensures var loaded := Loaded(entries);
      && j < |loaded| && SameSource(loaded[j], SinceReset(entries)[i])
      && (forall a, b :: 0 <= a < b < |loaded| ==> !SameSource(loaded[a], loaded[b]))
      && (|loaded| - j <= 12 ==> loaded[j] in SourceContext(entries))
      && |SourceContext(entries)| <= 12
  {
    var s, loaded := SinceReset(entries), Loaded(entries);
    LatestKeys(s, KeyOf);
    KeyMeaning(s[i], s[i]);
    assert HasKey(s, KeyOf, KeyOf(s[i]).value);
    j :| 0 <= j < |loaded| && KeyOf(loaded[j]) == KeyOf(s[i]);
    KeyMeaning(loaded[j], s[i]);
    forall a, b | 0 <= a < b < |loaded| ensures !SameSource(loaded[a], loaded[b]) {
      KeyMeaning(loaded[a], loaded[b]);
    }
    if |loaded| - j <= 12 && |loaded| > 12 {
      assert SourceContext(entries)[j - (|loaded| - 12)] == loaded[j];
    }
  }

  /** The result is the last twelve distinct keys loaded since the reset, each at its latest entry. */
  lemma {:induction false} SourceContextMeaning(entries: seq<SourceEntry>) returns (at: seq<nat>)
    ensures var s := SinceReset(entries);
      && Selects(s, Loaded(entries), at)
      && (forall i :: 0 <= i < |at| ==>
            KeyOf(s[at[i]]).Some? && !HasKey(s[at[i] + 1..], KeyOf, KeyOf(s[at[i]]).value))
      && (forall k :: HasKey(Loaded(entries), KeyOf, k) <==> HasKey(s, KeyOf, k))
    ensures SourceContext(entries) == LastN(Loaded(entries), 12) && DistinctKeys(Loaded(entries), KeyOf)
  {
    at := LatestPositions(SinceReset(entries), KeyOf);
    LatestKeys(SinceReset(entries), KeyOf);
  }

  // ----- tool errors

  datatype ToolError = ToolError(code: string, detail: string)

  const TOOL_ERRORS_PER_CODE_LIMIT: nat := 3

  function Code(e: ToolError): string {
    if e.code != "" then e.code else "__missing_code__"
  }

  /** An error without a code counts as one with this one. */
  lemma {:induction false} CodeMeaning(a: ToolError, b: ToolError)
    ensures Code(a) == Code(b) <==>
      a.code == b.code || (a.code == "" && b.code == "__missing_code__") || (a.code == "__missing_code__" && b.code == "")
  {
  }

  function ToolErrors(entries: seq<ToolError>): seq<ToolError> {
    RecentPerCode(entries, Code, TOOL_ERRORS_PER_CODE_LIMIT)
  }

  /** The reducer: walks backwards, counting per code. */
  method MergeToolErrors(left: Option<seq<ToolError>>, right: Option<seq<ToolError>>) returns (r: seq<ToolError>)
    ensures r == ToolErrors(left.GetOr([]) + right.GetOr([]))
  {
    var entries := left.GetOr([]) + right.GetOr([]);
    var seenByCode: map<string, nat> := map[];
    var retainedReversed: seq<ToolError> := [];
    for i := |entries| downto 0
      invariant Reversed(retainedReversed) == ToolErrors(entries[i..])
      invariant forall k :: (if k in seenByCode then seenByCode[k] else 0) == Count(ToolErrors(entries[i..]), Code, k)
    {
      var entry := entries[i];
      var code := Code(entry);
      var count := if code in seenByCode then seenByCode[code] else 0;
      var rest := entries[i + 1..];
      assert entries[i..] == [entry] + rest && ([entry] + rest)[1..] == rest;
      RecentCount(rest, Code, TOOL_ERRORS_PER_CODE_LIMIT, code);
      if count >= TOOL_ERRORS_PER_CODE_LIMIT {
        continue;
      }
      seenByCode := seenByCode[code := count + 1];
      ReversedSnoc(retainedReversed, entry);
      retainedReversed := retainedReversed + [entry];
      assert ([entry] + ToolErrors(rest))[1..] == ToolErrors(rest);
    }
    r := Reversed(retainedReversed);
  }

  lemma {:induction false} ToolErrorsBatches(a: seq<ToolError>, b: seq<ToolError>, c: seq<ToolError>)
    ensures ToolErrors(ToolErrors(a + b) + c) == ToolErrors(a + (b + c))
  {
    RecentBatches(a + b, c, Code, TOOL_ERRORS_PER_CODE_LIMIT);
    assert a + (b + c) == (a + b) + c;
  }

  /** The result keeps the order and holds exactly the last three entries of each code. */
  lemma {:induction false} ToolErrorsMeaning(entries: seq<ToolError>) returns (at: seq<nat>)
    ensures Selects(entries, ToolErrors(entries), at)
    ensures forall code :: WithCode(ToolErrors(entries), Code, code) == LastN(WithCode(entries, Code, code), 3)
  {
    at := RecentPositions(entries, Code, TOOL_ERRORS_PER_CODE_LIMIT);
    forall code {
      RecentIsLastPerCode(entries, Code, TOOL_ERRORS_PER_CODE_LIMIT, code);
    }
  }
}

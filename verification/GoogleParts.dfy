/** What each block of a conversation is sent as, read off the whole conversation without the shared id set of
    the converter (app/services/llm_clients.py). */
module GoogleParts {
  import opened Wrappers
  import opened Text
  import opened GoogleContents

  /** Block `n` is a result with an id, and an unsigned fallback call before it has that id. */
  predicate AnswersUnsigned(blocks: seq<Block>, n: nat)
    requires n < |blocks|
  {
    blocks[n].ToolResult? && exists j :: 0 <= j < n && Unsigned(blocks[j]) && CallId(blocks[j]) == CallId(blocks[n])
  }

  function NonEmpty(text: string): seq<Part> {
    if text == "" then [] else [TextPart(text)]
  }

  /** The provider's id if there is one, else the portable one, else none. */
  predicate HasId(id: Option<string>, googleId: string, toolId: string) {
    id == if googleId != "" then Some(googleId) else if toolId != "" then Some(toolId) else None
  }

  /** `parts` are what the block is sent as. */
  predicate SentAs(b: Block, answersUnsigned: bool, parts: seq<Part>) {
    match b
    case TextBlock(text) => parts == NonEmpty(text)
    case ToolUse(googleId, toolId, name, args, signature, thought) =>
      if signature == "" && (name == "respond" || name == "ask_user")
      then parts == NonEmpty(if "message" in args then Strip(args["message"]) else "")
      else
        && |parts| == 1 && parts[0].FunctionCall? && parts[0].name == name && parts[0].args == args
        && HasId(parts[0].id, googleId, toolId) && parts[0].thought == thought
        && parts[0].signature == (if signature == "" then None else Some(signature))
    case ToolResult(googleId, toolId, name, content) =>
      if answersUnsigned then parts == NonEmpty(content)
      else
        && |parts| == 1 && parts[0].FunctionResponse? && parts[0].content == content
        && parts[0].name == (if name == "" then "tool" else name) && HasId(parts[0].id, googleId, toolId)
    case Unsupported => parts == []
  }

  function Concat(pieces: seq<seq<Part>>): seq<Part> {
    if pieces == [] then [] else Concat(pieces[..|pieces| - 1]) + pieces[|pieces| - 1]
  }

  lemma {:induction false} UnsignedBefore(blocks: seq<Block>, n: nat)
    requires n < |blocks| && blocks[n].ToolResult?
    ensures AnswersUnsigned(blocks, n) <==> CallId(blocks[n]) != "" && CallId(blocks[n]) in UnsignedIds(blocks[..n])
  {
    assert forall j :: 0 <= j < n ==> blocks[..n][j] == blocks[j];
    if AnswersUnsigned(blocks, n) {
      var j :| 0 <= j < n && Unsigned(blocks[j]) && CallId(blocks[j]) == CallId(blocks[n]);
      assert Unsigned(blocks[..n][j]) && CallId(blocks[..n][j]) in UnsignedIds(blocks[..n]);
    }
    if CallId(blocks[n]) in UnsignedIds(blocks[..n]) {
      var j :| 0 <= j < n && Unsigned(blocks[..n][j]) && CallId(blocks[..n][j]) == CallId(blocks[n]);
      assert Unsigned(blocks[j]);
    }
  }

  lemma {:induction false} BlockIsSentAs(blocks: seq<Block>, n: nat)
    requires n < |blocks|
    ensures var parts := RenderBlock(blocks[n], UnsignedIds(blocks[..n])).0;
      SentAs(blocks[n], AnswersUnsigned(blocks, n), parts)
  {
    StripTrimmed("");
    if blocks[n].ToolResult? {
      UnsignedBefore(blocks, n);
    }
  }

  /** Rendering after some blocks continues their set. */
  lemma {:induction false} RenderAfter(before: seq<Block>, blocks: seq<Block>)
    ensures Render(blocks, UnsignedIds(before)).1 == UnsignedIds(before + blocks)
  {
    SharedSetIsPrefix(before);
    RenderAppend(before, blocks, {});
    SharedSetIsPrefix(before + blocks);
  }

  lemma {:induction false} SamePrefixAnswers(shorter: seq<Block>, longer: seq<Block>, n: nat)
    requires n < |shorter| <= |longer| && longer[..|shorter|] == shorter
    ensures AnswersUnsigned(shorter, n) <==> AnswersUnsigned(longer, n)
  {
    assert forall j :: 0 <= j < |shorter| ==> longer[..|shorter|][j] == longer[j];
  }

  /** The blocks `own` of a conversation, which start at position `start`, are sent as the pieces. */
  predicate Pieces(blocks: seq<Block>, start: nat, own: seq<Block>, pieces: seq<seq<Part>>) {
    && |pieces| == |own| && start + |own| <= |blocks|
    && forall k :: 0 <= k < |own| ==> SentAs(own[k], AnswersUnsigned(blocks, start + k), pieces[k])
  }

  /** Later blocks do not bear on earlier pieces. */
  lemma {:induction false} PiecesStay(shorter: seq<Block>, longer: seq<Block>, start: nat, own: seq<Block>,
                                      pieces: seq<seq<Part>>)
    requires Pieces(shorter, start, own, pieces) && shorter <= longer
    ensures Pieces(longer, start, own, pieces)
  {
    forall n | 0 <= n < |shorter| ensures AnswersUnsigned(shorter, n) <==> AnswersUnsigned(longer, n) {
      SamePrefixAnswers(shorter, longer, n);
    }
  }

  lemma {:induction false} PiecesSnoc(blocks: seq<Block>, start: nat, own: seq<Block>, pieces: seq<seq<Part>>,
                                      last: Block, piece: seq<Part>)
    requires Pieces(blocks, start, own, pieces) && start + |own| < |blocks|
    requires SentAs(last, AnswersUnsigned(blocks, start + |own|), piece)
    ensures Pieces(blocks, start, own + [last], pieces + [piece])
    ensures Concat(pieces + [piece]) == Concat(pieces) + piece
  {
    assert (pieces + [piece])[..|pieces|] == pieces;
  }

  lemma {:induction false} RenderedPieces(before: seq<Block>, own: seq<Block>) returns (pieces: seq<seq<Part>>)
    ensures Pieces(before + own, |before|, own, pieces)
    ensures Render(own, UnsignedIds(before)).0 == Concat(pieces)
  {
    if own == [] {
      pieces := [];
    } else {
      var m := |own| - 1;
      var init, last, all := own[..m], own[m], before + own;
      var piece := RenderBlock(last, UnsignedIds(before + init)).0;
      pieces := RenderedPieces(before, init);
      RenderAfter(before, init);
      assert all[..|before| + m] == before + init;
      BlockIsSentAs(all, |before| + m);
      PiecesStay(before + init, all, |before|, init, pieces);
      PiecesSnoc(all, |before|, init, pieces, last, piece);
      assert own == init + [last];
      pieces := pieces + [piece];
    }
  }

  lemma {:induction false} ContentsAt(before: seq<Block>, messages: seq<Message>, i: nat)
    requires i < |messages|
    ensures |Contents(messages, UnsignedIds(before))| == |messages|
    ensures Contents(messages, UnsignedIds(before))[i] ==
      Content(Role(messages[i].role),
              OrEmptyText(Render(messages[i].blocks, UnsignedIds(before + Flatten(messages[..i]))).0))
    decreases i
  {
    ContentsShape(messages, UnsignedIds(before));
    if i == 0 {
      assert before + Flatten(messages[..0]) == before;
    } else {
      var sofar := before + messages[0].blocks;
      RenderAfter(before, messages[0].blocks);
      ContentsAt(sofar, messages[1..], i - 1);
      assert messages[..i][1..] == messages[1..][..i - 1];
      assert before + Flatten(messages[..i]) == sofar + Flatten(messages[1..][..i - 1]);
    }
  }

  lemma {:induction false} FlattenAt(messages: seq<Message>, i: nat)
    requires i < |messages|
    ensures Flatten(messages[..i]) + messages[i].blocks <= Flatten(messages)
  {
    if i == 0 {
      assert Flatten(messages[..0]) == [];
    } else {
      FlattenAt(messages[1..], i - 1);
      assert messages[..i][1..] == messages[1..][..i - 1];
      assert Flatten(messages[..i]) + messages[i].blocks
          == messages[0].blocks + (Flatten(messages[1..][..i - 1]) + messages[1..][i - 1].blocks);
    }
  }

  /** Main result: each message goes out under its role, an assistant as a model, with what its blocks are sent
      as, in order; only an unsigned fallback call anywhere before a result bears on what that is sent as. */
  lemma {:induction false} MessageIsSentAs(messages: seq<Message>, i: nat) returns (pieces: seq<seq<Part>>)
    requires i < |messages|
    ensures |Contents(messages, {})| == |messages|
    ensures Contents(messages, {})[i].role == if messages[i].role == "assistant" then "model" else messages[i].role
    ensures Contents(messages, {})[i].parts == if Concat(pieces) == [] then [TextPart("")] else Concat(pieces)
    ensures Pieces(Flatten(messages), |Flatten(messages[..i])|, messages[i].blocks, pieces)
  {
    var before, own := Flatten(messages[..i]), messages[i].blocks;
    assert UnsignedIds([]) == {};
    ContentsAt([], messages, i);
    assert [] + before == before;
    pieces := RenderedPieces(before, own);
    FlattenAt(messages, i);
    PiecesStay(before + own, Flatten(messages), |before|, own, pieces);
  }

  // ----- texts

  /** The texts among `parts` that are not empty, in order. */
  function Texts(parts: seq<Part>): seq<string> {
    if parts == [] then []
    else (if parts[0].TextPart? && parts[0].text != "" then [parts[0].text] else []) + Texts(parts[1..])
  }

  /** What block `n` says: its text, the message of a fallback call, or the content of an answer to one. */
  function Said(blocks: seq<Block>, n: nat): string
    requires n < |blocks|
  {
    match blocks[n]
    case TextBlock(text) => text
    case ToolUse(_, _, name, args, signature, _) =>
      if signature == "" && name in {"respond", "ask_user"} && "message" in args then Strip(args["message"]) else ""
    case ToolResult(_, _, _, content) => if AnswersUnsigned(blocks, n) then content else ""
    case Unsupported => ""
  }

  /** What the first `n` blocks say, without the empty. */
  function AllSaid(blocks: seq<Block>, n: nat): seq<string>
    requires n <= |blocks|
  {
    if n == 0 then []
    else AllSaid(blocks, n - 1) + if Said(blocks, n - 1) == "" then [] else [Said(blocks, n - 1)]
  }

  lemma {:induction false} TextsAppend(a: seq<Part>, b: seq<Part>)
    ensures Texts(a + b) == Texts(a) + Texts(b)
  {
    if a == [] {
      assert a + b == b;
    } else {
      assert (a + b)[1..] == a[1..] + b;
      TextsAppend(a[1..], b);
    }
  }

  lemma {:induction false} TextsOfBlock(blocks: seq<Block>, n: nat, parts: seq<Part>)
    requires n < |blocks| && SentAs(blocks[n], AnswersUnsigned(blocks, n), parts)
    ensures Texts(parts) == if Said(blocks, n) == "" then [] else [Said(blocks, n)]
  {
    if parts != [] {
      assert parts[1..] == [];
    }
  }

  lemma {:induction false} RenderedTexts(blocks: seq<Block>, n: nat)
    requires n <= |blocks|
    ensures Texts(Render(blocks[..n], {}).0) == AllSaid(blocks, n)
  {
    if n > 0 {
      var m := n - 1;
      RenderedTexts(blocks, m);
      RenderedNext(blocks, m, n);
      var parts := RenderBlock(blocks[m], UnsignedIds(blocks[..m])).0;
      TextsAppend(Render(blocks[..m], {}).0, parts);
      BlockIsSentAs(blocks, m);
      TextsOfBlock(blocks, m, parts);
    }
  }

  lemma {:induction false} RenderedNext(blocks: seq<Block>, m: nat, n: nat)
    requires n == m + 1 <= |blocks|
    ensures Render(blocks[..n], {}).0 ==
      Render(blocks[..m], {}).0 + RenderBlock(blocks[m], UnsignedIds(blocks[..m])).0
  {
    SharedSetIsPrefix(blocks[..m]);
    RenderSnoc(blocks[..m], blocks[m], {});
    assert blocks[..n] == blocks[..m] + [blocks[m]];
  }

  lemma {:induction false} SentTexts(messages: seq<Message>, unsigned: set<string>)
    ensures Texts(AllParts(Contents(messages, unsigned))) == Texts(Render(Flatten(messages), unsigned).0)
  {
    if messages != [] {
      var r := Render(messages[0].blocks, unsigned);
      var rest := Contents(messages[1..], r.1);
      SentTexts(messages[1..], r.1);
      RenderAppend(messages[0].blocks, Flatten(messages[1..]), unsigned);
      assert Contents(messages, unsigned)[1..] == rest;
      TextsAppend(OrEmptyText(r.0), AllParts(rest));
      TextsAppend(r.0, Render(Flatten(messages[1..]), r.1).0);
      assert Texts(OrEmptyText(r.0)) == Texts(r.0) by {
        assert [TextPart("")][1..] == [];
      }
    }
  }

  /** Main result: no text is lost, added or moved: what is sent as text is what the blocks of the conversation
      say, in order. */
  lemma {:induction false} ConversionKeepsTexts(messages: seq<Message>)
    ensures Texts(AllParts(Contents(messages, {}))) == AllSaid(Flatten(messages), |Flatten(messages)|)
  {
    var blocks := Flatten(messages);
    SentTexts(messages, {});
    RenderedTexts(blocks, |blocks|);
    assert blocks[..|blocks|] == blocks;
  }
}

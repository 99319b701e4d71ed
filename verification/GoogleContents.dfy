/** Converting a conversation to Gemini contents (app/services/llm_clients.py). One set of unsigned call
    ids is shared by all messages of a conversation and grows while they are rendered. */
module GoogleContents {
  import opened Wrappers
  import opened Text

  /** `googleId` is the provider's own call id, `toolId` the portable one; "" stands for absent. */
  datatype Block =
    | TextBlock(text: string)
    | ToolUse(googleId: string, toolId: string, name: string, args: map<string, string>, signature: string,
              thought: Option<bool>)
    | ToolResult(googleId: string, toolId: string, name: string, content: string)
    | Unsupported

  datatype Part =
    | TextPart(text: string)
    | FunctionCall(name: string, args: map<string, string>, id: Option<string>, signature: Option<string>,
                   thought: Option<bool>)
    | FunctionResponse(name: string, content: string, id: Option<string>)

  datatype Message = Message(role: string, blocks: seq<Block>)

  datatype Content = Content(role: string, parts: seq<Part>)

  const FALLBACK_TOOL_NAMES := {"respond", "ask_user"}

  function CallId(b: Block): string
    requires b.ToolUse? || b.ToolResult?
  {
    if b.googleId != "" then b.googleId else b.toolId
  }

  function IdField(id: string): Option<string> {
    if id != "" then Some(id) else None
  }

  /** A call made up locally around a plain-text reply; it never came from the provider. */
  predicate Synthetic(b: Block) {
    b.ToolUse? && b.signature == "" && b.name in FALLBACK_TOOL_NAMES
  }

  function TextParts(text: string): seq<Part> {
    if text != "" then [TextPart(text)] else []
  }

  function Role(role: string): string {
    if role == "assistant" then "model" else role
  }

  function CallPart(b: Block): Part
    requires b.ToolUse?
  {
    FunctionCall(b.name, b.args, IdField(CallId(b)), if b.signature != "" then Some(b.signature) else None, b.thought)
  }

  function ResponsePart(b: Block): Part
    requires b.ToolResult?
  {
    FunctionResponse(if b.name != "" then b.name else "tool", b.content, IdField(CallId(b)))
  }

  /** The parts one block adds and the ids known unsigned after it. */
  function RenderBlock(b: Block, unsigned: set<string>): (seq<Part>, set<string>) {
    match b
    case TextBlock(text) => (TextParts(text), unsigned)
    case ToolUse(_, _, _, args, _, _) =>
      if Synthetic(b) then
        (TextParts(Strip(if "message" in args then args["message"] else "")),
         if CallId(b) != "" then unsigned + {CallId(b)} else unsigned)
      else ([CallPart(b)], unsigned)
    case ToolResult(_, _, _, content) =>
      if CallId(b) != "" && CallId(b) in unsigned then (TextParts(content), unsigned)
      else ([ResponsePart(b)], unsigned)
    case Unsupported => ([], unsigned)
  }

  function Render(blocks: seq<Block>, unsigned: set<string>): (seq<Part>, set<string>) {
    if blocks == [] then ([], unsigned)
    else
      var before := Render(blocks[..|blocks| - 1], unsigned);
      var last := RenderBlock(blocks[|blocks| - 1], before.1);
      (before.0 + last.0, last.1)
  }

  function OrEmptyText(parts: seq<Part>): seq<Part> {
    if parts == [] then [TextPart("")] else parts
  }

  function Contents(messages: seq<Message>, unsigned: set<string>): seq<Content> {
    if messages == [] then []
    else
      var r := Render(messages[0].blocks, unsigned);
      [Content(Role(messages[0].role), OrEmptyText(r.0))] + Contents(messages[1..], r.1)
  }

  class Converter {
    var unsignedCallIds: set<string>

    constructor ()
      ensures unsignedCallIds == {}
    {
      unsignedCallIds := {};
    }

    method Parts(blocks: seq<Block>) returns (parts: seq<Part>)
      modifies this
      ensures parts == OrEmptyText(Render(blocks, old(unsignedCallIds)).0)
      ensures unsignedCallIds == Render(blocks, old(unsignedCallIds)).1
    {
      var result: seq<Part> := [];
      for i := 0 to |blocks|
        invariant result == Render(blocks[..i], old(unsignedCallIds)).0
        invariant unsignedCallIds == Render(blocks[..i], old(unsignedCallIds)).1
      {
        var block := blocks[i];
        RenderSnoc(blocks[..i], block, old(unsignedCallIds));
        assert blocks[..i + 1] == blocks[..i] + [block];
        match block {
          case TextBlock(text) =>
            if text != "" {
              result := result + [TextPart(text)];
            }
          case ToolUse(_, _, name, args, signature, _) =>
            var callId := CallId(block);
            if signature == "" && name in FALLBACK_TOOL_NAMES {
              if callId != "" {
                unsignedCallIds := unsignedCallIds + {callId};
              }
              var text := Strip(if "message" in args then args["message"] else "");
              if text != "" {
                result := result + [TextPart(text)];
              }
              continue;
            }
            result := result + [CallPart(block)];
          case ToolResult(_, _, _, content) =>
            var callId := CallId(block);
            if callId != "" && callId in unsignedCallIds {
              if content != "" {
                result := result + [TextPart(content)];
              }
              continue;
            }
            result := result + [ResponsePart(block)];
          case Unsupported =>
        }
      }
      assert blocks[..|blocks|] == blocks;
      parts := if result == [] then [TextPart("")] else result;
    }
  }

  method GoogleContents(messages: seq<Message>) returns (contents: seq<Content>)
    ensures contents == Contents(messages, {})
  {
    var converter := new Converter();
    contents := [];
    for i := 0 to |messages|
      invariant fresh(converter)
      invariant Contents(messages, {}) == contents + Contents(messages[i..], converter.unsignedCallIds)
    {
      var parts := converter.Parts(messages[i].blocks);
      assert messages[i..][1..] == messages[i + 1..];
      contents := contents + [Content(Role(messages[i].role), parts)];
    }
  }

  // ----- the same conversion without state: which calls are unsigned is read off the whole conversation

  function Flatten(messages: seq<Message>): seq<Block> {
    if messages == [] then [] else messages[0].blocks + Flatten(messages[1..])
  }

  /** The function calls and responses among `parts`, in order. */
  function Exchange(parts: seq<Part>): seq<Part> {
    if parts == [] then []
    else (if parts[0].TextPart? then [] else [parts[0]]) + Exchange(parts[1..])
  }

  function AllParts(contents: seq<Content>): seq<Part> {
    if contents == [] then [] else contents[0].parts + AllParts(contents[1..])
  }

  /** A call the conversion leaves out and remembers the id of. */
  predicate Unsigned(b: Block) {
    Synthetic(b) && CallId(b) != ""
  }

  function UnsignedIds(blocks: seq<Block>): set<string> {
    set i | 0 <= i < |blocks| && Unsigned(blocks[i]) :: CallId(blocks[i])
  }

  function Paired(blocks: seq<Block>, unsigned: set<string>): seq<Part> {
    if blocks == [] then []
    else
      var b := blocks[|blocks| - 1];
      Paired(blocks[..|blocks| - 1], unsigned) +
        if b.ToolUse? && !Synthetic(b) then [CallPart(b)]
        else if b.ToolResult? && CallId(b) !in unsigned then [ResponsePart(b)]
        else []
  }

  /** No two calls share an id, and each result answers an earlier call. Calls may lack an id. */
  ghost predicate WellFormed(blocks: seq<Block>) {
    && (forall i, j :: 0 <= i < j < |blocks| && blocks[i].ToolUse? && blocks[j].ToolUse? ==>
          CallId(blocks[i]) != CallId(blocks[j]) || CallId(blocks[i]) == "")
    && (forall i :: 0 <= i < |blocks| && blocks[i].ToolResult? ==>
          exists j :: 0 <= j < i && blocks[j].ToolUse? && CallId(blocks[j]) == CallId(blocks[i]))
  }

  /** A call that is sent comes before block `n` and has the id of block `n`. */
  predicate CallSentBefore(blocks: seq<Block>, n: nat)
    requires n < |blocks| && blocks[n].ToolResult?
  {
    exists j :: 0 <= j < n && blocks[j].ToolUse? && !Synthetic(blocks[j]) && CallId(blocks[j]) == CallId(blocks[n])
  }

  /** Among the first `n` blocks each result without an id has a sent call without an id before it. */
  ghost predicate IdlessAnswered(blocks: seq<Block>, n: nat)
    requires n <= |blocks|
  {
    forall i :: 0 <= i < n && blocks[i].ToolResult? && CallId(blocks[i]) == "" ==> CallSentBefore(blocks, i)
  }

  lemma {:induction false} ExchangeAppend(a: seq<Part>, b: seq<Part>)
    ensures Exchange(a + b) == Exchange(a) + Exchange(b)
  {
    if a == [] {
      assert a + b == b;
    } else {
      assert (a + b)[1..] == a[1..] + b;
      ExchangeAppend(a[1..], b);
    }
  }

  lemma {:induction false} RenderSnoc(blocks: seq<Block>, b: Block, unsigned: set<string>)
    ensures Render(blocks + [b], unsigned) ==
      (Render(blocks, unsigned).0 + RenderBlock(b, Render(blocks, unsigned).1).0,
       RenderBlock(b, Render(blocks, unsigned).1).1)
  {
    assert (blocks + [b])[..|blocks|] == blocks;
  }

  lemma {:induction false} RenderAppend(a: seq<Block>, b: seq<Block>, unsigned: set<string>)
    ensures Render(a + b, unsigned) ==
      (Render(a, unsigned).0 + Render(b, Render(a, unsigned).1).0, Render(b, Render(a, unsigned).1).1)
    decreases |b|
  {
    if b == [] {
      assert a + b == a;
      assert Render(a, unsigned).0 + [] == Render(a, unsigned).0;
    } else {
      var init, last := b[..|b| - 1], b[|b| - 1];
      assert b == init + [last] && a + b == (a + init) + [last];
      RenderSnoc(a + init, last, unsigned);
      RenderSnoc(init, last, Render(a, unsigned).1);
      RenderAppend(a, init, unsigned);
      var ra := Render(a, unsigned);
      var ri := Render(init, ra.1);
      var rl := RenderBlock(last, ri.1);
      assert (ra.0 + ri.0) + rl.0 == ra.0 + (ri.0 + rl.0);
    }
  }

  lemma {:induction false} ContentsFlatten(messages: seq<Message>, unsigned: set<string>)
    ensures Exchange(AllParts(Contents(messages, unsigned))) == Exchange(Render(Flatten(messages), unsigned).0)
  {
    if messages != [] {
      var r := Render(messages[0].blocks, unsigned);
      ContentsFlatten(messages[1..], r.1);
      RenderAppend(messages[0].blocks, Flatten(messages[1..]), unsigned);
      var rest := Contents(messages[1..], r.1);
      assert Contents(messages, unsigned)[1..] == rest;
      ExchangeAppend(OrEmptyText(r.0), AllParts(rest));
      ExchangeAppend(r.0, Render(Flatten(messages[1..]), r.1).0);
      assert Exchange(OrEmptyText(r.0)) == Exchange(r.0) by {
        assert [TextPart("")][1..] == [];
      }
    }
  }

  lemma {:induction false} UnsignedSnoc(blocks: seq<Block>, b: Block)
    ensures UnsignedIds(blocks + [b]) == UnsignedIds(blocks) + if Unsigned(b) then {CallId(b)} else {}
  {
    var all := blocks + [b];
    forall id | id in UnsignedIds(blocks) ensures id in UnsignedIds(all) {
      var i :| 0 <= i < |blocks| && Unsigned(blocks[i]) && id == CallId(blocks[i]);
      assert all[i] == blocks[i];
    }
    if Unsigned(b) {
      assert all[|blocks|] == b && CallId(b) in UnsignedIds(all);
    }
  }

  /** One content for each message, in its role, never without parts. */
  lemma {:induction false} ContentsShape(messages: seq<Message>, unsigned: set<string>)
    ensures var contents := Contents(messages, unsigned);
      && |contents| == |messages|
      && forall i :: 0 <= i < |messages| ==> contents[i].role == Role(messages[i].role) && contents[i].parts != []
  {
    if messages != [] {
      ContentsShape(messages[1..], Render(messages[0].blocks, unsigned).1);
    }
  }

  /** After any prefix, the shared set holds exactly the prefix's unsigned ids. */
  lemma {:induction false} SharedSetIsPrefix(blocks: seq<Block>)
    ensures Render(blocks, {}).1 == UnsignedIds(blocks)
  {
    if blocks != [] {
      var init, last := blocks[..|blocks| - 1], blocks[|blocks| - 1];
      SharedSetIsPrefix(init);
      UnsignedSnoc(init, last);
      assert init + [last] == blocks;
    }
  }

  /** For a result that answers an earlier call, the ids seen so far decide as all ids would. */
  lemma {:induction false} PrefixDecides(blocks: seq<Block>, n: nat)
    requires WellFormed(blocks) && n < |blocks| && blocks[n].ToolResult?
    ensures CallId(blocks[n]) in UnsignedIds(blocks[..n]) <==> CallId(blocks[n]) in UnsignedIds(blocks)
  {
    var id := CallId(blocks[n]);
    var j :| 0 <= j < n && blocks[j].ToolUse? && CallId(blocks[j]) == id;
    assert blocks[..n][j] == blocks[j];
    if id in UnsignedIds(blocks) {
      var i :| 0 <= i < |blocks| && Synthetic(blocks[i]) && CallId(blocks[i]) == id;
      assert i == j;
    }
    if id in UnsignedIds(blocks[..n]) {
      var i :| 0 <= i < n && Synthetic(blocks[..n][i]) && CallId(blocks[..n][i]) == id;
      assert blocks[i] == blocks[..n][i];
    }
  }

  lemma {:induction false} ExchangeOfBlock(b: Block, unsigned: set<string>)
    requires "" !in unsigned
    ensures Exchange(RenderBlock(b, unsigned).0) ==
      if b.ToolUse? && !Synthetic(b) then [CallPart(b)]
      else if b.ToolResult? && CallId(b) !in unsigned then [ResponsePart(b)]
      else []
  {
    var parts := RenderBlock(b, unsigned).0;
    if parts != [] {
      assert parts[1..] == [];
    }
  }

  /** The state threaded through the messages decides as the whole conversation would. */
  lemma {:induction false} PrefixDecidesAsWhole(blocks: seq<Block>, n: nat)
    requires WellFormed(blocks) && n <= |blocks|
    ensures Exchange(Render(blocks[..n], {}).0) == Paired(blocks[..n], UnsignedIds(blocks))
  {
    if n > 0 {
      var b, init := blocks[n - 1], blocks[..n - 1];
      assert blocks[..n][..n - 1] == init;
      PrefixDecidesAsWhole(blocks, n - 1);
      SharedSetIsPrefix(init);
      ExchangeAppend(Render(init, {}).0, RenderBlock(b, UnsignedIds(init)).0);
      ExchangeOfBlock(b, UnsignedIds(init));
      if b.ToolResult? {
        PrefixDecides(blocks, n - 1);
      }
    }
  }

  /** Main result: the calls and responses sent to the provider are those of the conversation, in order,
      without the unsigned calls and without the responses to them. */
  lemma {:induction false} ConversionKeepsExchange(messages: seq<Message>)
    requires WellFormed(Flatten(messages))
    ensures Exchange(AllParts(Contents(messages, {}))) == Paired(Flatten(messages), UnsignedIds(Flatten(messages)))
  {
    var blocks := Flatten(messages);
    ContentsFlatten(messages, {});
    PrefixDecidesAsWhole(blocks, |blocks|);
    assert blocks[..|blocks|] == blocks;
  }

  ghost predicate CallBefore(parts: seq<Part>, q: nat)
    requires q < |parts| && parts[q].FunctionResponse?
  {
    exists p :: 0 <= p < q && parts[p].FunctionCall? && parts[p].id == parts[q].id
  }

  ghost predicate AllAnswered(parts: seq<Part>) {
    forall q :: 0 <= q < |parts| && parts[q].FunctionResponse? ==> CallBefore(parts, q)
  }

  /** Only calls and responses, none with an unsigned id. */
  predicate NoneUnsigned(parts: seq<Part>, unsigned: set<string>) {
    forall q :: 0 <= q < |parts| ==> !parts[q].TextPart? && (parts[q].id.Some? ==> parts[q].id.value !in unsigned)
  }

  predicate HasCall(parts: seq<Part>, id: Option<string>) {
    exists p :: 0 <= p < |parts| && parts[p].FunctionCall? && parts[p].id == id
  }

  lemma {:induction false} AnsweredSnoc(parts: seq<Part>, last: Part)
    requires !last.TextPart?
    ensures AllAnswered(parts + [last]) <==> AllAnswered(parts) && (last.FunctionResponse? ==> HasCall(parts, last.id))
  {
    var more := parts + [last];
    forall q | 0 <= q < |parts| && parts[q].FunctionResponse? ensures CallBefore(parts, q) <==> CallBefore(more, q) {
      assert forall p :: 0 <= p < q ==> more[p] == parts[p];
    }
    if last.FunctionResponse? {
      assert forall p :: 0 <= p < |parts| ==> more[p] == parts[p];
      assert more[|parts|] == last;
      assert CallBefore(more, |parts|) <==> HasCall(parts, last.id);
    }
    assert forall q :: 0 <= q < |parts| ==> more[q] == parts[q];
    if AllAnswered(more) {
      assert forall q :: 0 <= q < |parts| && parts[q].FunctionResponse? ==> CallBefore(more, q);
    }
  }

  lemma {:induction false} CallIsSent(blocks: seq<Block>, unsigned: set<string>, i: nat)
    requires i < |blocks| && blocks[i].ToolUse? && !Synthetic(blocks[i])
    ensures CallPart(blocks[i]) in Paired(blocks, unsigned)
  {
    var n := |blocks| - 1;
    if i < n {
      assert blocks[..n][i] == blocks[i];
      CallIsSent(blocks[..n], unsigned, i);
    }
  }

  /** A sent call is the call of some block. */
  lemma {:induction false} SentCallHasBlock(blocks: seq<Block>, unsigned: set<string>, p: nat) returns (j: nat)
    requires p < |Paired(blocks, unsigned)| && Paired(blocks, unsigned)[p].FunctionCall?
    ensures j < |blocks| && blocks[j].ToolUse? && !Synthetic(blocks[j]) && Paired(blocks, unsigned)[p] == CallPart(blocks[j])
  {
    j := |blocks| - 1;
    if p < |Paired(blocks[..j], unsigned)| {
      j := SentCallHasBlock(blocks[..j], unsigned, p);
    }
  }

  lemma {:induction false} SignedOrUnsigned(blocks: seq<Block>, i: nat)
    requires WellFormed(blocks) && i < |blocks| && blocks[i].ToolUse? && CallId(blocks[i]) != ""
    ensures CallId(blocks[i]) in UnsignedIds(blocks) <==> Synthetic(blocks[i])
  {
    if CallId(blocks[i]) in UnsignedIds(blocks) {
      var j :| 0 <= j < |blocks| && Unsigned(blocks[j]) && CallId(blocks[j]) == CallId(blocks[i]);
      assert i == j;
    }
  }

  /** A result that is sent finds a sent call with its id exactly when such a call block precedes it. */
  lemma {:induction false} AnswerIsSent(blocks: seq<Block>, n: nat)
    requires n < |blocks| && blocks[n].ToolResult?
    ensures HasCall(Paired(blocks[..n], UnsignedIds(blocks)), ResponsePart(blocks[n]).id) <==> CallSentBefore(blocks, n)
  {
    var sent := Paired(blocks[..n], UnsignedIds(blocks));
    if HasCall(sent, ResponsePart(blocks[n]).id) {
      var p :| 0 <= p < |sent| && sent[p].FunctionCall? && sent[p].id == ResponsePart(blocks[n]).id;
      var j := SentCallHasBlock(blocks[..n], UnsignedIds(blocks), p);
      assert blocks[j] == blocks[..n][j];
    }
    if CallSentBefore(blocks, n) {
      var j :| 0 <= j < n && blocks[j].ToolUse? && !Synthetic(blocks[j]) && CallId(blocks[j]) == CallId(blocks[n]);
      assert blocks[..n][j] == blocks[j];
      CallIsSent(blocks[..n], UnsignedIds(blocks), j);
      var p :| 0 <= p < |sent| && sent[p] == CallPart(blocks[j]);
    }
  }

  /** A sent result with an id has its call before it: only id-less results can fail. */
  lemma {:induction false} SentAnswerFollows(blocks: seq<Block>, n: nat)
    requires WellFormed(blocks) && n < |blocks| && blocks[n].ToolResult?
    requires CallId(blocks[n]) != "" && CallId(blocks[n]) !in UnsignedIds(blocks)
    ensures CallSentBefore(blocks, n)
  {
    var j :| 0 <= j < n && blocks[j].ToolUse? && CallId(blocks[j]) == CallId(blocks[n]);
    SignedOrUnsigned(blocks, j);
  }

  lemma {:induction false} PairedUnsigned(blocks: seq<Block>, n: nat)
    requires WellFormed(blocks) && n <= |blocks|
    ensures NoneUnsigned(Paired(blocks[..n], UnsignedIds(blocks)), UnsignedIds(blocks))
  {
    if n > 0 {
      var m := n - 1;
      PairedUnsigned(blocks, m);
      PairedSnoc(blocks, m, n, UnsignedIds(blocks));
      if blocks[m].ToolUse? && CallId(blocks[m]) != "" {
        SignedOrUnsigned(blocks, m);
      }
    }
  }

  lemma {:induction false} SentResultAnswered(blocks: seq<Block>, n: nat)
    requires WellFormed(blocks) && n < |blocks| && blocks[n].ToolResult? && CallId(blocks[n]) !in UnsignedIds(blocks)
    ensures var sent := Paired(blocks[..n], UnsignedIds(blocks));
      AllAnswered(sent + [ResponsePart(blocks[n])]) <==>
        AllAnswered(sent) && (CallId(blocks[n]) == "" ==> CallSentBefore(blocks, n))
  {
    AnsweredSnoc(Paired(blocks[..n], UnsignedIds(blocks)), ResponsePart(blocks[n]));
    AnswerIsSent(blocks, n);
    if CallId(blocks[n]) != "" {
      SentAnswerFollows(blocks, n);
    }
  }

  /** What one more block adds to the condition. */
  predicate IdlessAnsweredAt(blocks: seq<Block>, m: nat)
    requires m < |blocks|
  {
    blocks[m].ToolResult? && CallId(blocks[m]) == "" ==> CallSentBefore(blocks, m)
  }

  lemma {:induction false} IdlessSnoc(blocks: seq<Block>, m: nat, n: nat)
    requires m < |blocks| && n == m + 1
    ensures IdlessAnswered(blocks, n) <==> IdlessAnswered(blocks, m) && IdlessAnsweredAt(blocks, m)
  {
  }

  lemma {:induction false} PairedSnoc(blocks: seq<Block>, m: nat, n: nat, unsigned: set<string>)
    requires m < |blocks| && n == m + 1
    ensures var b, before := blocks[m], Paired(blocks[..m], unsigned);
      Paired(blocks[..n], unsigned) ==
        if b.ToolUse? && !Synthetic(b) then before + [CallPart(b)]
        else if b.ToolResult? && CallId(b) !in unsigned then before + [ResponsePart(b)]
        else before
  {
    assert blocks[..n][..m] == blocks[..m] && blocks[..n][m] == blocks[m];
    assert Paired(blocks[..m], unsigned) + [] == Paired(blocks[..m], unsigned);
  }

  lemma {:induction false} OneMoreAnswered(blocks: seq<Block>, m: nat, n: nat)
    requires WellFormed(blocks) && m < |blocks| && n == m + 1
    ensures AllAnswered(Paired(blocks[..n], UnsignedIds(blocks))) <==>
      AllAnswered(Paired(blocks[..m], UnsignedIds(blocks))) && IdlessAnsweredAt(blocks, m)
  {
    var b, unsigned := blocks[m], UnsignedIds(blocks);
    PairedSnoc(blocks, m, n, unsigned);
    if b.ToolUse? && !Synthetic(b) {
      AnsweredSnoc(Paired(blocks[..m], unsigned), CallPart(b));
    } else if b.ToolResult? && CallId(b) !in unsigned {
      SentResultAnswered(blocks, m);
    } else {
      assert b.ToolResult? ==> CallId(b) != "";
    }
  }

  lemma {:induction false} PairedAnswered(blocks: seq<Block>, n: nat)
    requires WellFormed(blocks) && n <= |blocks|
    ensures AllAnswered(Paired(blocks[..n], UnsignedIds(blocks))) <==> IdlessAnswered(blocks, n)
    decreases n
  {
    if n > 0 {
      var m := n - 1;
      PairedAnswered(blocks, m);
      OneMoreAnswered(blocks, m, n);
      IdlessSnoc(blocks, m, n);
    }
  }

  /** Whatever is sent, no unsigned call id appears on either side. */
  lemma {:induction false} NoUnsignedIdIsSent(messages: seq<Message>)
    requires WellFormed(Flatten(messages))
    ensures NoneUnsigned(Exchange(AllParts(Contents(messages, {}))), UnsignedIds(Flatten(messages)))
  {
    var blocks := Flatten(messages);
    ConversionKeepsExchange(messages);
    PairedUnsigned(blocks, |blocks|);
    assert blocks[..|blocks|] == blocks;
  }

  /** Every response sent has its call before it, exactly when each result without an id comes after a
      call without one that is not an unsigned fallback. Results with an id never fail. */
  lemma {:induction false} ResponsesFollowTheirCalls(messages: seq<Message>)
    requires WellFormed(Flatten(messages))
    ensures AllAnswered(Exchange(AllParts(Contents(messages, {})))) <==>
      IdlessAnswered(Flatten(messages), |Flatten(messages)|)
  {
    var blocks := Flatten(messages);
    ConversionKeepsExchange(messages);
    PairedAnswered(blocks, |blocks|);
    assert blocks[..|blocks|] == blocks;
  }

  /** With at most one call without an id, that is: no result answers an unsigned fallback without an id. */
  lemma {:induction false} IdlessFallbackDecides(blocks: seq<Block>)
    requires WellFormed(blocks)
    requires forall i, j :: 0 <= i < j < |blocks| && blocks[i].ToolUse? && blocks[j].ToolUse? ==>
      CallId(blocks[i]) != CallId(blocks[j])
    ensures IdlessAnswered(blocks, |blocks|) <==>
      forall i, j :: 0 <= j < i < |blocks| && blocks[i].ToolResult? && Synthetic(blocks[j]) && CallId(blocks[j]) == "" ==>
        CallId(blocks[i]) != ""
  {
    forall i | 0 <= i < |blocks| && blocks[i].ToolResult? && CallId(blocks[i]) == ""
      ensures CallSentBefore(blocks, i) <==>
        forall j :: 0 <= j < i && Synthetic(blocks[j]) ==> CallId(blocks[j]) != ""
    {
      var j :| 0 <= j < i && blocks[j].ToolUse? && CallId(blocks[j]) == "";
    }
  }

  /** Without call ids the set cannot record an unsigned call, and its response is sent on its own. */
  lemma {:induction false} UnsignedCallWithoutIdLeavesItsResponse() returns (messages: seq<Message>)
    ensures WellFormed(Flatten(messages)) && !AllAnswered(Exchange(AllParts(Contents(messages, {}))))
  {
    var blocks := [ToolUse("", "", "respond", map[], "", None), ToolResult("", "", "respond", "shown")];
    messages := [Message("assistant", blocks)];
    assert messages[1..] == [] && Flatten(messages) == blocks;
    assert blocks[0].ToolUse? && CallId(blocks[0]) == CallId(blocks[1]);
    assert blocks[1].ToolResult? && CallId(blocks[1]) == "" && !CallSentBefore(blocks, 1);
    ResponsesFollowTheirCalls(messages);
  }
}

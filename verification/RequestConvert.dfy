/** Conversion of the messages of an Anthropic request into OpenAI chat messages. */
module RequestConvert {
  import opened Wrappers
  import opened Json

  datatype Part = TextPart(text: string) | ImagePart(url: string)

  datatype Content = Plain(text: string) | Parts(parts: seq<Part>)

  datatype ToolCall = ToolCall(id: string, name: string, arguments: string)

  /** `toolCallId` is present exactly on the messages that carry a tool result. */
  datatype ChatMessage = ChatMessage(
    role: string, content: Content, toolCalls: seq<ToolCall>, toolCallId: Option<string>)

  type Serializer = Value -> string

  const ERROR_MARK := "[tool_error] "

  // ---- One block ----

  function BlockType(block: Value): string {
    TextOr(block.Get("type"), "")
  }

  function ImageUrl(source: Value): string {
    "data:" + TextOr(source.Get("media_type"), "image/jpeg") + ";base64," + TextOr(source.Get("data"), "")
  }

  function ConvertBlock(block: Value): Option<Part> {
    if BlockType(block) == "text" then
      var text := block.Get("text");
      if text.Some? && text.value.Str? then Some(TextPart(text.value.s)) else None
    else if BlockType(block) == "image" then
      var source := block.Get("source");
      if source.Some? then Some(ImagePart(ImageUrl(source.value))) else None
    else None
  }

  /** Every convertible block of a list, in order. */
  function ConvertBlocks(blocks: seq<Value>): seq<Part> {
    if blocks == [] then []
    else
      var last := ConvertBlock(blocks[|blocks| - 1]);
      ConvertBlocks(blocks[..|blocks| - 1]) + if last.Some? then [last.value] else []
  }

  function Compact(parts: seq<Part>): Content {
    if |parts| == 1 && parts[0].TextPart? then Plain(parts[0].text) else Parts(parts)
  }

  function ToolResultContent(raw: Option<Value>): Content {
    match raw
    case Some(Str(s)) => Plain(s)
    case Some(List(blocks)) =>
      var parts := ConvertBlocks(blocks);
      if parts == [] then Plain("") else Compact(parts)
    case _ => Plain("")
  }

  function IsError(block: Value): bool {
    var flag := block.Get("is_error");
    flag.Some? && flag.value.AsBool().GetOr(false)
  }

  /** The content of a tool result, marked as an error where it is plain text. */
  function ResultContent(block: Value): Content {
    var content := ToolResultContent(block.Get("content"));
    if IsError(block) && content.Plain? then Plain(ERROR_MARK + content.text) else content
  }

  function ResultId(block: Value): string {
    TextOr(block.Get("tool_use_id"), "")
  }

  function UseOf(serialize: Serializer, block: Value): ToolCall {
    ToolCall(TextOr(block.Get("id"), ""), TextOr(block.Get("name"), ""),
             serialize(block.Get("input").GetOr(Obj(map[]))))
  }

  // ---- What a message says ----

  datatype Item = PartItem(part: Part) | ResultItem(id: string, content: Content)

  function PartItems(parts: seq<Part>): (items: seq<Item>)
    ensures |items| == |parts|
  {
    seq(|parts|, i requires 0 <= i < |parts| => PartItem(parts[i]))
  }

  /** The convertible parts and the tool results of the blocks, in their order. */
  function Items(blocks: seq<Value>): seq<Item> {
    if blocks == [] then []
    else
      var init, last := Items(blocks[..|blocks| - 1]), blocks[|blocks| - 1];
      if BlockType(last) == "tool_result" then init + [ResultItem(ResultId(last), ResultContent(last))]
      else
        var part := ConvertBlock(last);
        if part.Some? then init + [PartItem(part.value)] else init
  }

  /** The tool uses of the blocks, in their order. */
  function Uses(serialize: Serializer, blocks: seq<Value>): seq<ToolCall> {
    if blocks == [] then []
    else
      var last := blocks[|blocks| - 1];
      Uses(serialize, blocks[..|blocks| - 1]) + if BlockType(last) == "tool_use" then [UseOf(serialize, last)] else []
  }

  /** The convertible parts after the last tool result. */
  function Trailing(blocks: seq<Value>): seq<Part> {
    if blocks == [] then []
    else
      var init, last := Trailing(blocks[..|blocks| - 1]), blocks[|blocks| - 1];
      if BlockType(last) == "tool_result" then []
      else
        var part := ConvertBlock(last);
        if part.Some? then init + [part.value] else init
  }

  // ---- What chat messages say ----

  function PartsOf(content: Content): seq<Part> {
    match content
    case Plain(text) => [TextPart(text)]
    case Parts(parts) => parts
  }

  /** Empty content beside tool calls stands for no content. */
  function Denotes(m: ChatMessage): seq<Item> {
    if m.toolCallId.Some? then [ResultItem(m.toolCallId.value, m.content)]
    else if m.content == Plain("") && m.toolCalls != [] then []
    else PartItems(PartsOf(m.content))
  }

  function DenotesAll(ms: seq<ChatMessage>): seq<Item> {
    if ms == [] then [] else DenotesAll(ms[..|ms| - 1]) + Denotes(ms[|ms| - 1])
  }

  function AllCalls(ms: seq<ChatMessage>): seq<ToolCall> {
    if ms == [] then [] else AllCalls(ms[..|ms| - 1]) + ms[|ms| - 1].toolCalls
  }

  /** An empty text next to tool uses is the one thing the OpenAI form cannot tell from nothing. */
  predicate EmptyTextLost(serialize: Serializer, blocks: seq<Value>) {
    Trailing(blocks) == [TextPart("")] && Uses(serialize, blocks) != []
  }

  ghost predicate WellFormedMessage(role: string, m: ChatMessage) {
    if m.toolCallId.Some? then m.role == "tool" && m.toolCalls == []
    else
      && m.role == role
      && (m.content.Parts? ==> m.content.parts != [] && (|m.content.parts| == 1 ==> m.content.parts[0].ImagePart?))
  }

  /** Tool results separate the other messages, and only the last message has tool calls. */
  ghost predicate Shape(role: string, ms: seq<ChatMessage>) {
    && (forall i :: 0 <= i < |ms| ==> WellFormedMessage(role, ms[i]))
    && (forall i :: 0 <= i < |ms| - 1 ==> ms[i].toolCalls == [])
    && (forall i :: 0 <= i < |ms| - 1 ==> ms[i].toolCallId.Some? || ms[i + 1].toolCallId.Some?)
  }

  /** What it means for `ms` to be the conversion of a list of blocks. */
  ghost predicate ConvertedBlocks(serialize: Serializer, role: string, blocks: seq<Value>, ms: seq<ChatMessage>) {
    && Shape(role, ms)
    && Items(blocks) == DenotesAll(ms) + (if EmptyTextLost(serialize, blocks) then [PartItem(TextPart(""))] else [])
    && AllCalls(ms) == Uses(serialize, blocks)
  }

  lemma DenotesAllExtend(ms: seq<ChatMessage>, m: ChatMessage)
    ensures DenotesAll(ms + [m]) == DenotesAll(ms) + Denotes(m)
    ensures AllCalls(ms + [m]) == AllCalls(ms) + m.toolCalls
  {
    assert (ms + [m])[..|ms|] == ms;
  }

  /** Collapsing a single text part does not change the parts that are meant. */
  lemma CompactKeepsParts(parts: seq<Part>)
    ensures PartsOf(Compact(parts)) == parts
  {
    assert |parts| == 1 ==> parts == [parts[0]];
  }

  lemma PartItemsExtend(parts: seq<Part>, p: Part)
    ensures PartItems(parts + [p]) == PartItems(parts) + [PartItem(p)]
  {
  }

  lemma CompactNotEmptyText(parts: seq<Part>)
    requires parts != []
    ensures Compact(parts) == Plain("") <==> parts == [TextPart("")]
  {
    assert |parts| == 1 ==> parts == [parts[0]];
  }

  lemma CompactWellFormed(role: string, parts: seq<Part>, calls: seq<ToolCall>)
    requires parts != []
    ensures WellFormedMessage(role, ChatMessage(role, Compact(parts), calls, None))
  {
  }

  /** What holds after the blocks read so far: their items are in `ms` or still pending in `parts`. */
  ghost predicate Pending(role: string, read: seq<Value>, ms: seq<ChatMessage>, parts: seq<Part>) {
    && Shape(role, ms)
    && AllCalls(ms) == []
    && (forall i :: 0 <= i < |ms| ==> ms[i].toolCalls == [])
    && (|ms| > 0 ==> ms[|ms| - 1].toolCallId.Some?)
    && Items(read) == DenotesAll(ms) + PartItems(parts)
    && parts == Trailing(read)
  }

  lemma ShapeExtend(role: string, ms: seq<ChatMessage>, m: ChatMessage)
    requires Shape(role, ms) && WellFormedMessage(role, m)
    requires forall i :: 0 <= i < |ms| ==> ms[i].toolCalls == []
    requires |ms| > 0 ==> ms[|ms| - 1].toolCallId.Some? || m.toolCallId.Some?
    ensures Shape(role, ms + [m])
  {
    hide WellFormedMessage;
  }

  lemma PartPending(role: string, read: seq<Value>, ms: seq<ChatMessage>, parts: seq<Part>, block: Value)
    requires Pending(role, read, ms, parts)
    requires BlockType(block) != "tool_result"
    ensures var part := ConvertBlock(block);
            Pending(role, read + [block], ms, if part.Some? then parts + [part.value] else parts)
  {
    assert (read + [block])[..|read|] == read;
    var part := ConvertBlock(block);
    hide Shape, AllCalls, DenotesAll, ConvertBlock, BlockType;
    if part.Some? {
      PartItemsExtend(parts, part.value);
    }
  }

  ghost function Flushed(role: string, ms: seq<ChatMessage>, parts: seq<Part>): seq<ChatMessage> {
    if parts == [] then ms else ms + [ChatMessage(role, Compact(parts), [], None)]
  }

  lemma FlushKeeps(role: string, read: seq<Value>, ms: seq<ChatMessage>, parts: seq<Part>)
    requires Pending(role, read, ms, parts)
    ensures var f := Flushed(role, ms, parts);
            && Shape(role, f) && AllCalls(f) == []
            && (forall i :: 0 <= i < |f| ==> f[i].toolCalls == [])
            && Items(read) == DenotesAll(f)
  {
    hide Items;
    if parts != [] {
      var m := ChatMessage(role, Compact(parts), [], None);
      CompactKeepsParts(parts);
      ShapeExtend(role, ms, m);
      DenotesAllExtend(ms, m);
      hide Shape, AllCalls, DenotesAll;
      assert Flushed(role, ms, parts) == ms + [m];
    }
  }

  lemma ResultPending(role: string, read: seq<Value>, ms: seq<ChatMessage>, parts: seq<Part>, block: Value)
    requires Pending(role, read, ms, parts)
    requires BlockType(block) == "tool_result"
    ensures var m := ChatMessage("tool", ResultContent(block), [], Some(ResultId(block)));
            Pending(role, read + [block], Flushed(role, ms, parts) + [m], [])
  {
    hide Shape, AllCalls, DenotesAll, ResultContent, ResultId, Flushed, Pending, Items, Trailing, Denotes, BlockType;
    FlushKeeps(role, read, ms, parts);
    var f := Flushed(role, ms, parts);
    var m := ChatMessage("tool", ResultContent(block), [], Some(ResultId(block)));
    ShapeExtend(role, f, m);
    DenotesAllExtend(f, m);
    ResultItems(read, block);
    PendingAfterResult(role, read + [block], f, m);
  }

  lemma ResultItems(read: seq<Value>, block: Value)
    requires BlockType(block) == "tool_result"
    ensures var m := ChatMessage("tool", ResultContent(block), [], Some(ResultId(block)));
            Items(read + [block]) == Items(read) + Denotes(m) && Trailing(read + [block]) == []
  {
    assert (read + [block])[..|read|] == read;
    hide ResultContent, ResultId, ConvertBlock;
  }

  lemma PendingAfterResult(role: string, read: seq<Value>, f: seq<ChatMessage>, m: ChatMessage)
    requires Shape(role, f + [m]) && AllCalls(f + [m]) == []
    requires (forall i :: 0 <= i < |f| ==> f[i].toolCalls == []) && m.toolCalls == [] && m.toolCallId.Some?
    requires Items(read) == DenotesAll(f + [m]) && Trailing(read) == []
    ensures Pending(role, read, f + [m], [])
  {
    hide Shape, AllCalls, DenotesAll, Items, Trailing;
    assert DenotesAll(f + [m]) + PartItems([]) == DenotesAll(f + [m]);
  }

  lemma NothingPending(serialize: Serializer, role: string)
    ensures Pending(role, [], [], []) && Uses(serialize, []) == []
  {
  }

  /** How each kind of block moves the pending state. */
  lemma BlockPending(serialize: Serializer, role: string,
    blocks: seq<Value>, i: nat, ms: seq<ChatMessage>, parts: seq<Part>)
    requires i < |blocks| && Pending(role, blocks[..i], ms, parts)
    ensures var block, next := blocks[i], blocks[..i + 1];
            && (BlockType(block) == "tool_result" ==>
                  var m := ChatMessage("tool", ResultContent(block), [], Some(ResultId(block)));
                  if parts == [] then Pending(role, next, ms + [m], [])
                  else Pending(role, next, ms + [ChatMessage(role, Compact(parts), [], None)] + [m], []))
            && (BlockType(block) in {"text", "image"} && ConvertBlock(block).Some? ==>
                  Pending(role, next, ms, parts + [ConvertBlock(block).value]))
            && (BlockType(block) in {"text", "image"} && ConvertBlock(block).None? ==> Pending(role, next, ms, parts))
            && (BlockType(block) !in {"text", "image", "tool_result"} ==> Pending(role, next, ms, parts))
            && Uses(serialize, next) ==
               Uses(serialize, blocks[..i]) + if BlockType(block) == "tool_use" then [UseOf(serialize, block)] else []
  {
    OneMoreUse(serialize, blocks, i);
    assert blocks[..i + 1] == blocks[..i] + [blocks[i]];
    hide Pending, Uses, Compact, ConvertBlock, ResultContent, ResultId, UseOf, BlockType;
    if BlockType(blocks[i]) == "tool_result" {
      ResultPending(role, blocks[..i], ms, parts, blocks[i]);
    } else {
      PartPending(role, blocks[..i], ms, parts, blocks[i]);
      OtherBlock(blocks[i]);
    }
  }

  lemma OneMoreUse(serialize: Serializer, blocks: seq<Value>, i: nat)
    requires i < |blocks|
    ensures Uses(serialize, blocks[..i + 1]) ==
            Uses(serialize, blocks[..i])
            + if BlockType(blocks[i]) == "tool_use" then [UseOf(serialize, blocks[i])] else []
  {
    assert blocks[..i + 1][..i] == blocks[..i];
    hide BlockType, UseOf;
  }

  lemma OtherBlock(block: Value)
    ensures BlockType(block) !in {"text", "image"} ==> ConvertBlock(block).None?
  {
    hide BlockType;
  }

  /** The last message, which takes the pending parts and all tool calls. */
  lemma FinishConverts(serialize: Serializer, role: string, blocks: seq<Value>, ms: seq<ChatMessage>, parts: seq<Part>)
    requires Pending(role, blocks, ms, parts)
    ensures var calls := Uses(serialize, blocks);
            var content := if parts == [] then Plain("") else Compact(parts);
            ConvertedBlocks(serialize, role, blocks,
                            if parts == [] && calls == [] then ms else ms + [ChatMessage(role, content, calls, None)])
  {
    hide Items, Uses, Trailing, Compact, Shape, AllCalls, DenotesAll, Denotes, WellFormedMessage, Pending,
         ConvertedBlocks, PartItems;
    var calls := Uses(serialize, blocks);
    PendingMeans(role, blocks, ms, parts);
    FewPartItems();
    var said := DenotesAll(ms);
    if parts == [] && calls == [] {
      assert said + [] == said;
      ConvertedFrom(serialize, role, blocks, ms);
    } else {
      var m := ChatMessage(role, if parts == [] then Plain("") else Compact(parts), calls, None);
      LastMessage(role, parts, calls);
      ShapeExtend(role, ms, m);
      DenotesAllExtend(ms, m);
      assert [] + calls == calls;
      if parts == [TextPart("")] && calls != [] {
        assert said + [] == said;
      } else {
        assert (said + PartItems(parts)) + [] == said + PartItems(parts);
      }
      ConvertedFrom(serialize, role, blocks, ms + [m]);
    }
  }

  lemma FewPartItems()
    ensures PartItems([]) == [] && PartItems([TextPart("")]) == [PartItem(TextPart(""))]
  {
  }

  lemma PendingMeans(role: string, read: seq<Value>, ms: seq<ChatMessage>, parts: seq<Part>)
    requires Pending(role, read, ms, parts)
    ensures Shape(role, ms) && AllCalls(ms) == [] && (forall i :: 0 <= i < |ms| ==> ms[i].toolCalls == [])
    ensures |ms| > 0 ==> ms[|ms| - 1].toolCallId.Some?
    ensures Items(read) == DenotesAll(ms) + PartItems(parts) && parts == Trailing(read)
  {
  }

  lemma ConvertedFrom(serialize: Serializer, role: string, blocks: seq<Value>, ms: seq<ChatMessage>)
    requires Shape(role, ms) && AllCalls(ms) == Uses(serialize, blocks)
    requires Items(blocks) ==
             DenotesAll(ms) + if Trailing(blocks) == [TextPart("")] && Uses(serialize, blocks) != []
                              then [PartItem(TextPart(""))] else []
    ensures ConvertedBlocks(serialize, role, blocks, ms)
  {
  }

  /** The last message says the pending parts, unless they are one empty text that its calls hide. */
  lemma LastMessage(role: string, parts: seq<Part>, calls: seq<ToolCall>)
    requires parts != [] || calls != []
    ensures var m := ChatMessage(role, if parts == [] then Plain("") else Compact(parts), calls, None);
            && WellFormedMessage(role, m)
            && Denotes(m) == if parts == [TextPart("")] && calls != [] then [] else PartItems(parts)
  {
    CompactKeepsParts(parts);
    if parts != [] {
      CompactNotEmptyText(parts);
      CompactWellFormed(role, parts, calls);
    }
    hide Compact;
  }

  /** One message of the request whose content is a list of blocks. */
  method ConvertBlockList(serialize: Serializer, role: string, blocks: seq<Value>) returns (messages: seq<ChatMessage>)
    ensures ConvertedBlocks(serialize, role, blocks, messages)
  {
    messages := [];
    var parts: seq<Part> := [];
    var toolCalls: seq<ToolCall> := [];
    NothingPending(serialize, role);
    hide Flushed, Uses, Pending, ConvertedBlocks, ConvertBlock, ResultContent, ResultId, BlockType, Compact, UseOf;
    for i := 0 to |blocks|
      invariant Pending(role, blocks[..i], messages, parts)
      invariant toolCalls == Uses(serialize, blocks[..i])
    {
      var block := blocks[i];
      BlockPending(serialize, role, blocks, i, messages, parts);
      if BlockType(block) == "text" || BlockType(block) == "image" {
        var part := ConvertBlock(block);
        if part.Some? {
          parts := parts + [part.value];
        }
      } else if BlockType(block) == "tool_result" {
        if |parts| > 0 {
          messages := messages + [ChatMessage(role, Compact(parts), [], None)];
          parts := [];
        }
        messages := messages + [ChatMessage("tool", ResultContent(block), [], Some(ResultId(block)))];
      } else if BlockType(block) == "tool_use" {
        toolCalls := toolCalls + [UseOf(serialize, block)];
      }
    }
    assert blocks[..|blocks|] == blocks;
    FinishConverts(serialize, role, blocks, messages, parts);
    if |parts| > 0 {
      messages := messages + [ChatMessage(role, Compact(parts), toolCalls, None)];
    } else if |toolCalls| > 0 {
      messages := messages + [ChatMessage(role, Plain(""), toolCalls, None)];
    }
  }

  // ---- A whole conversation ----

  function RoleOf(msg: Value): string {
    TextOr(msg.Get("role"), "user")
  }

  ghost predicate Converted(serialize: Serializer, msg: Value, ms: seq<ChatMessage>) {
    match msg.Get("content")
    case Some(Str(s)) => ms == [ChatMessage(RoleOf(msg), Plain(s), [], None)]
    case Some(List(blocks)) => ConvertedBlocks(serialize, RoleOf(msg), blocks, ms)
    case _ => ms == [ChatMessage(RoleOf(msg), Plain(""), [], None)]
  }

  function Flatten(segments: seq<seq<ChatMessage>>): seq<ChatMessage> {
    if segments == [] then [] else Flatten(segments[..|segments| - 1]) + segments[|segments| - 1]
  }

  /** The messages of a request: one converted segment after the other. */
  ghost predicate ConvertedAll(serialize: Serializer, msgs: seq<Value>, messages: seq<ChatMessage>) {
    exists segments :: Segments(serialize, msgs, segments) && messages == Flatten(segments)
  }

  ghost predicate Segments(serialize: Serializer, msgs: seq<Value>, segments: seq<seq<ChatMessage>>) {
    |segments| == |msgs| && forall i :: 0 <= i < |msgs| ==> Converted(serialize, msgs[i], segments[i])
  }

  lemma FlattenNothing()
    ensures Flatten([]) == []
  {
  }

  lemma FlattenOneMore(segments: seq<seq<ChatMessage>>, segment: seq<ChatMessage>)
    ensures Flatten(segments + [segment]) == Flatten(segments) + segment
  {
    assert (segments + [segment])[..|segments|] == segments;
  }

  method ConvertMessages(serialize: Serializer, msgs: seq<Value>) returns (messages: seq<ChatMessage>)
    ensures ConvertedAll(serialize, msgs, messages)
  {
    messages := [];
    ghost var segments: seq<seq<ChatMessage>> := [];
    hide ConvertedBlocks, Flatten;
    FlattenNothing();
    for i := 0 to |msgs|
      invariant |segments| == i && messages == Flatten(segments)
      invariant forall k :: 0 <= k < i ==> Converted(serialize, msgs[k], segments[k])
    {
      var segment;
      match msgs[i].Get("content") {
        case Some(Str(s)) => segment := [ChatMessage(RoleOf(msgs[i]), Plain(s), [], None)];
        case Some(List(blocks)) => segment := ConvertBlockList(serialize, RoleOf(msgs[i]), blocks);
        case _ => segment := [ChatMessage(RoleOf(msgs[i]), Plain(""), [], None)];
      }
      assert Converted(serialize, msgs[i], segment);
      hide Converted;
      FlattenOneMore(segments, segment);
      messages, segments := messages + segment, segments + [segment];
    }
    assert Segments(serialize, msgs, segments);
  }

  // ---- Consequences of the contract ----

  lemma {:induction false} CallsOnLast(role: string, ms: seq<ChatMessage>)
    requires Shape(role, ms)
    ensures AllCalls(ms) == if ms == [] then [] else ms[|ms| - 1].toolCalls
  {
    if ms != [] {
      NoCalls(ms[..|ms| - 1]);
    }
  }

  lemma {:induction false} NoCalls(ms: seq<ChatMessage>)
    requires forall i :: 0 <= i < |ms| ==> ms[i].toolCalls == []
    ensures AllCalls(ms) == []
    decreases |ms|
  {
    if ms != [] {
      NoCalls(ms[..|ms| - 1]);
    }
  }

  /** The conversion keeps the conversation exactly, unless an empty text stands beside tool uses. */
  lemma ConversationKeptIff(serialize: Serializer, role: string, blocks: seq<Value>, ms: seq<ChatMessage>)
    requires ConvertedBlocks(serialize, role, blocks, ms)
    ensures DenotesAll(ms) == Items(blocks) <==> !EmptyTextLost(serialize, blocks)
    ensures Uses(serialize, blocks) != [] ==> ms != [] && ms[|ms| - 1].toolCalls == Uses(serialize, blocks)
  {
    CallsOnLast(role, ms);
  }

  // ---- Where tool uses stand ----

  /** One thing said by a message, tool uses included. */
  datatype Said = SaidItem(item: Item) | SaidUse(call: ToolCall)

  function SaidItems(items: seq<Item>): (r: seq<Said>)
    ensures |r| == |items|
  {
    seq(|items|, i requires 0 <= i < |items| => SaidItem(items[i]))
  }

  function SaidUses(calls: seq<ToolCall>): (r: seq<Said>)
    ensures |r| == |calls| && (r != [] ==> r[|r| - 1].SaidUse?)
  {
    seq(|calls|, i requires 0 <= i < |calls| => SaidUse(calls[i]))
  }

  /** What one block says: nothing when it cannot be represented. */
  function BlockSays(serialize: Serializer, block: Value): (r: seq<Said>)
    ensures |r| <= 1
  {
    if BlockType(block) == "tool_use" then [SaidUse(UseOf(serialize, block))]
    else if BlockType(block) == "tool_result" then [SaidItem(ResultItem(ResultId(block), ResultContent(block)))]
    else
      var part := ConvertBlock(block);
      if part.Some? then [SaidItem(PartItem(part.value))] else []
  }

  /** Everything the blocks say, in their order. */
  function BlocksSay(serialize: Serializer, blocks: seq<Value>): seq<Said> {
    if blocks == [] then []
    else BlocksSay(serialize, blocks[..|blocks| - 1]) + BlockSays(serialize, blocks[|blocks| - 1])
  }

  /** Everything the messages say: the content of each, then its tool calls. */
  function MessagesSay(ms: seq<ChatMessage>): seq<Said> {
    if ms == [] then []
    else
      var last := ms[|ms| - 1];
      MessagesSay(ms[..|ms| - 1]) + SaidItems(Denotes(last)) + SaidUses(last.toolCalls)
  }

  /** No part and no tool result follows a tool use. */
  predicate UsesComeLast(blocks: seq<Value>) {
    forall i, j :: 0 <= i < j < |blocks| && BlockType(blocks[i]) == "tool_use" ==>
      BlockType(blocks[j]) != "tool_result" && ConvertBlock(blocks[j]).None?
  }

  predicate AnyUse(blocks: seq<Value>) {
    exists i :: 0 <= i < |blocks| && BlockType(blocks[i]) == "tool_use"
  }

  lemma UsesComeLastPrefix(blocks: seq<Value>)
    requires blocks != []
    ensures var init, last := blocks[..|blocks| - 1], blocks[|blocks| - 1];
            && (UsesComeLast(blocks) <==>
                UsesComeLast(init)
                && (AnyUse(init) ==> BlockType(last) != "tool_result" && ConvertBlock(last).None?))
            && (AnyUse(blocks) <==> AnyUse(init) || BlockType(last) == "tool_use")
  {
    var n := |blocks| - 1;
    hide BlockType, ConvertBlock;
    if AnyUse(blocks[..n]) {
      var i :| 0 <= i < n && BlockType(blocks[..n][i]) == "tool_use";
      assert BlockType(blocks[i]) == "tool_use";
    }
    if AnyUse(blocks) {
      var i :| 0 <= i <= n && BlockType(blocks[i]) == "tool_use";
      assert i < n ==> BlockType(blocks[..n][i]) == "tool_use";
    }
    if UsesComeLast(blocks) {
      forall i, j | 0 <= i < j < n && BlockType(blocks[..n][i]) == "tool_use"
        ensures BlockType(blocks[..n][j]) != "tool_result" && ConvertBlock(blocks[..n][j]).None?
      {
        assert BlockType(blocks[i]) == "tool_use";
      }
    }
    if UsesComeLast(blocks[..n]) {
      forall i, j | 0 <= i < j < n && BlockType(blocks[i]) == "tool_use"
        ensures BlockType(blocks[j]) != "tool_result" && ConvertBlock(blocks[j]).None?
      {
        assert blocks[..n][i] == blocks[i] && blocks[..n][j] == blocks[j];
      }
    }
  }

  /** How one more block extends the items, the uses and everything said. */
  lemma OneMoreBlock(serialize: Serializer, blocks: seq<Value>)
    requires blocks != []
    ensures var init, last := blocks[..|blocks| - 1], blocks[|blocks| - 1];
            var says := BlockSays(serialize, last);
            && BlocksSay(serialize, blocks) == BlocksSay(serialize, init) + says
            && SaidItems(Items(blocks)) ==
               SaidItems(Items(init)) + (if says != [] && says[0].SaidItem? then says else [])
            && SaidUses(Uses(serialize, blocks)) ==
               SaidUses(Uses(serialize, init)) + (if says != [] && says[0].SaidUse? then says else [])
            && (says != [] && says[0].SaidUse? <==> BlockType(last) == "tool_use")
            && (says != [] && says[0].SaidItem? <==> BlockType(last) == "tool_result" || ConvertBlock(last).Some?)
  {
    hide UseOf, ResultId, ResultContent;
  }

  lemma {:induction false} AnyUseMeans(serialize: Serializer, blocks: seq<Value>)
    ensures AnyUse(blocks) <==> SaidUses(Uses(serialize, blocks)) != []
    decreases |blocks|
  {
    if blocks != [] {
      AnyUseMeans(serialize, blocks[..|blocks| - 1]);
      UsesComeLastPrefix(blocks);
      OneMoreBlock(serialize, blocks);
      hide AnyUse, BlockType, BlockSays, Uses, SaidUses;
    }
  }

  /** Items and then uses is the order of the blocks exactly when tool uses come last. */
  lemma {:induction false} OrderOfBlocksIff(serialize: Serializer, blocks: seq<Value>)
    ensures |BlocksSay(serialize, blocks)| == |SaidItems(Items(blocks))| + |SaidUses(Uses(serialize, blocks))|
    ensures BlocksSay(serialize, blocks) == SaidItems(Items(blocks)) + SaidUses(Uses(serialize, blocks))
       <==> UsesComeLast(blocks)
    decreases |blocks|
  {
    if blocks != [] {
      var init, last := blocks[..|blocks| - 1], blocks[|blocks| - 1];
      hide UsesComeLast, AnyUse, BlockType, ConvertBlock, BlockSays, BlocksSay, Uses, Items, SaidItems, SaidUses;
      OrderOfBlocksIff(serialize, init);
      UsesComeLastPrefix(blocks);
      OneMoreBlock(serialize, blocks);
      AnyUseMeans(serialize, init);
      var says := BlockSays(serialize, last);
      var all, items, uses := BlocksSay(serialize, init), SaidItems(Items(init)), SaidUses(Uses(serialize, init));
      AppendSaid(all, items, uses, says);
      assert all + [] == all && items + [] == items && uses + [] == uses;
    } else {
      NothingSaid(serialize);
    }
  }

  lemma NothingSaid(serialize: Serializer)
    ensures BlocksSay(serialize, []) == [] && SaidItems(Items([])) == [] && SaidUses(Uses(serialize, [])) == []
  {
  }

  /** Appending what one block says, to everything said and to its own kind. */
  lemma AppendSaid(all: seq<Said>, items: seq<Said>, uses: seq<Said>, says: seq<Said>)
    requires |says| <= 1 && |all| == |items| + |uses|
    requires uses != [] ==> uses[|uses| - 1].SaidUse?
    ensures says != [] && says[0].SaidUse? ==> (all + says == items + (uses + says) <==> all == items + uses)
    ensures says != [] && says[0].SaidItem? ==>
              (all + says == (items + says) + uses <==> all == items + uses && uses == [])
  {
    if says != [] && says[0].SaidUse? {
      assert items + (uses + says) == (items + uses) + says;
      assert (all + says)[..|all|] == all && ((items + uses) + says)[..|all|] == items + uses;
    } else if says != [] {
      var whole := (items + says) + uses;
      assert uses != [] ==> whole[|all|] == uses[|uses| - 1];
      assert (all + says)[|all|] == says[0];
      assert uses == [] ==> whole[..|all|] == items && (all + says)[..|all|] == all;
    }
  }

  lemma SaidItemsConcat(a: seq<Item>, b: seq<Item>)
    ensures SaidItems(a + b) == SaidItems(a) + SaidItems(b)
  {
  }

  lemma {:induction false} SaidWithoutCalls(ms: seq<ChatMessage>)
    requires forall i :: 0 <= i < |ms| ==> ms[i].toolCalls == []
    ensures MessagesSay(ms) == SaidItems(DenotesAll(ms))
    decreases |ms|
  {
    hide Denotes;
    if ms != [] {
      SaidWithoutCalls(ms[..|ms| - 1]);
      SaidItemsConcat(DenotesAll(ms[..|ms| - 1]), Denotes(ms[|ms| - 1]));
    }
  }

  lemma SaidByMessages(role: string, ms: seq<ChatMessage>)
    requires Shape(role, ms)
    ensures MessagesSay(ms) == SaidItems(DenotesAll(ms)) + SaidUses(AllCalls(ms))
  {
    hide Denotes, WellFormedMessage;
    if ms != [] {
      SaidWithoutCalls(ms[..|ms| - 1]);
      SaidItemsConcat(DenotesAll(ms[..|ms| - 1]), Denotes(ms[|ms| - 1]));
      CallsOnLast(role, ms);
    }
  }

  lemma ConvertedMeans(serialize: Serializer, role: string, blocks: seq<Value>, ms: seq<ChatMessage>)
    requires ConvertedBlocks(serialize, role, blocks, ms)
    ensures Shape(role, ms) && AllCalls(ms) == Uses(serialize, blocks)
    ensures if EmptyTextLost(serialize, blocks) then |Items(blocks)| == |DenotesAll(ms)| + 1
            else Items(blocks) == DenotesAll(ms)
  {
  }

  /**
   * The messages say exactly what the blocks say, tool uses in their places, if and only if no part and
   * no tool result follows a tool use, and no lone empty text stands beside tool uses.
   */
  lemma WholeOrderKeptIff(serialize: Serializer, role: string, blocks: seq<Value>, ms: seq<ChatMessage>)
    requires ConvertedBlocks(serialize, role, blocks, ms)
    ensures MessagesSay(ms) == BlocksSay(serialize, blocks)
       <==> UsesComeLast(blocks) && !EmptyTextLost(serialize, blocks)
  {
    ConvertedMeans(serialize, role, blocks, ms);
    hide MessagesSay, BlocksSay, UsesComeLast, Shape, DenotesAll, Items, Uses, AllCalls, EmptyTextLost, ConvertedBlocks,
         SaidItems, SaidUses;
    SaidByMessages(role, ms);
    OrderOfBlocksIff(serialize, blocks);
  }

  /** The content of a tool result stands for its convertible blocks, in order. */
  lemma ToolResultParts(blocks: seq<Value>)
    ensures PartsOf(ToolResultContent(Some(List(blocks)))) ==
            if ConvertBlocks(blocks) == [] then [TextPart("")] else ConvertBlocks(blocks)
  {
    CompactKeepsParts(ConvertBlocks(blocks));
  }

  /** The tool results that convert to plain text, told from the request alone. */
  predicate PlainResult(block: Value) {
    var raw := block.Get("content");
    if raw.Some? && raw.value.List? then
      var parts := ConvertBlocks(raw.value.items);
      |parts| == 0 || (|parts| == 1 && parts[0].TextPart?)
    else true
  }

  /** An erroneous tool result is marked as one exactly when its content becomes plain text. */
  lemma ErrorMarkedIff(block: Value)
    requires IsError(block)
    ensures ResultContent(block) != ToolResultContent(block.Get("content")) <==> PlainResult(block)
    ensures PlainResult(block) ==>
            ResultContent(block).Plain? && ERROR_MARK <= ResultContent(block).text
  {
    var content := ToolResultContent(block.Get("content"));
    if content.Plain? {
      assert |ERROR_MARK + content.text| == |ERROR_MARK| + |content.text|;
    }
  }

  // ---- The contract leaves no choice ----

  /** What stands before pending parts: nothing, or items that end in a tool result. */
  ghost predicate EndsInResult(items: seq<Item>) {
    items != [] ==> items[|items| - 1].ResultItem?
  }

  lemma SplitUnique(x: seq<Item>, y: seq<Item>, p: seq<Item>, q: seq<Item>)
    requires x + p == y + q && EndsInResult(x) && EndsInResult(y)
    requires forall i :: 0 <= i < |p| ==> p[i].PartItem?
    requires forall i :: 0 <= i < |q| ==> q[i].PartItem?
    ensures x == y && p == q
  {
    assert forall i :: |x| <= i < |x + p| ==> (x + p)[i].PartItem?;
    assert forall i :: |y| <= i < |y + q| ==> (y + q)[i].PartItem?;
    assert x != [] ==> (x + p)[|x| - 1].ResultItem?;
    assert y != [] ==> (y + q)[|y| - 1].ResultItem?;
    assert |x| == |y|;
    assert (x + p)[..|x|] == x && (y + q)[..|y|] == y;
    assert (x + p)[|x|..] == p && (y + q)[|y|..] == q;
  }

  lemma ShapePrefix(role: string, ms: seq<ChatMessage>)
    requires ms != [] && Shape(role, ms)
    ensures Shape(role, ms[..|ms| - 1])
    ensures WellFormedMessage(role, ms[|ms| - 1])
    ensures AllCalls(ms[..|ms| - 1]) == [] && AllCalls(ms) == ms[|ms| - 1].toolCalls
  {
    hide WellFormedMessage;
    NoCalls(ms[..|ms| - 1]);
  }

  /** A message that carries no result stands for parts; with none, it exists for its tool calls. */
  lemma PlainDenotes(role: string, m: ChatMessage)
    requires WellFormedMessage(role, m) && m.toolCallId.None?
    ensures forall i :: 0 <= i < |Denotes(m)| ==> Denotes(m)[i].PartItem?
    ensures Denotes(m) == [] ==> m.toolCalls != []
  {
  }

  lemma BeforePlain(role: string, ms: seq<ChatMessage>)
    requires ms != [] && Shape(role, ms) && ms[|ms| - 1].toolCallId.None?
    ensures EndsInResult(DenotesAll(ms[..|ms| - 1]))
  {
    if |ms| > 1 {
      var init := ms[..|ms| - 1];
      assert init[|init| - 1].toolCallId.Some?;
      assert DenotesAll(init)[|DenotesAll(init)| - 1].ResultItem?;
    }
  }

  lemma SamePlain(role: string, m: ChatMessage, n: ChatMessage)
    requires WellFormedMessage(role, m) && WellFormedMessage(role, n) && m.toolCallId.None? && n.toolCallId.None?
    requires m.toolCalls == n.toolCalls && Denotes(m) == Denotes(n)
    ensures m == n
  {
    assert forall i :: 0 <= i < |PartsOf(m.content)| ==> PartItems(PartsOf(m.content))[i].part == PartsOf(m.content)[i];
    assert forall i :: 0 <= i < |PartsOf(n.content)| ==> PartItems(PartsOf(n.content))[i].part == PartsOf(n.content)[i];
    if Denotes(m) != [] {
      assert PartsOf(m.content) == PartsOf(n.content);
    }
  }

  lemma {:induction false} NothingDenoted(role: string, ms: seq<ChatMessage>)
    requires Shape(role, ms) && DenotesAll(ms) == [] && AllCalls(ms) == []
    ensures ms == []
    decreases |ms|
  {
    if ms != [] {
      ShapePrefix(role, ms);
      if ms[|ms| - 1].toolCallId.None? {
        PlainDenotes(role, ms[|ms| - 1]);
      }
    }
  }

  /** Messages of the right shape are determined by what they say and by their tool calls. */
  lemma {:induction false} ShapeDetermines(role: string, a: seq<ChatMessage>, b: seq<ChatMessage>)
    requires Shape(role, a) && Shape(role, b)
    requires DenotesAll(a) == DenotesAll(b) && AllCalls(a) == AllCalls(b)
    ensures a == b
    decreases |a|
  {
    hide Shape, AllCalls, WellFormedMessage, Denotes, DenotesAll;
    NothingDenotes();
    if a == [] {
      NothingDenoted(role, b);
    } else if b == [] {
      NothingDenoted(role, a);
    } else {
      ShapePrefix(role, a);
      ShapePrefix(role, b);
      LastMessages(role, a, b);
      ShapeDetermines(role, a[..|a| - 1], b[..|b| - 1]);
      assert a == a[..|a| - 1] + [a[|a| - 1]] && b == b[..|b| - 1] + [b[|b| - 1]];
    }
  }

  lemma NothingDenotes()
    ensures DenotesAll([]) == [] && AllCalls([]) == []
  {
  }

  lemma LastPlain(role: string, m: ChatMessage, n: ChatMessage, x: seq<Item>, y: seq<Item>)
    requires WellFormedMessage(role, m) && WellFormedMessage(role, n) && m.toolCallId.None? && n.toolCallId.None?
    requires m.toolCalls == n.toolCalls && EndsInResult(x) && EndsInResult(y)
    requires x + Denotes(m) == y + Denotes(n)
    ensures m == n && x == y
  {
    PlainDenotes(role, m);
    PlainDenotes(role, n);
    hide Denotes, EndsInResult, WellFormedMessage;
    SplitUnique(x, y, Denotes(m), Denotes(n));
    SamePlain(role, m, n);
  }

  lemma LastResult(m: ChatMessage, n: ChatMessage, x: seq<Item>, y: seq<Item>)
    requires m.toolCallId.Some? && n.toolCallId.Some?
    requires x + Denotes(m) == y + Denotes(n)
    ensures m.toolCallId == n.toolCallId && m.content == n.content && x == y
  {
    var p, q := Denotes(m), Denotes(n);
    assert (x + p)[|x|] == p[0] && (y + q)[|y|] == q[0];
    assert (x + p)[..|x|] == x && (y + q)[..|y|] == y;
  }

  lemma LastMessages(role: string, a: seq<ChatMessage>, b: seq<ChatMessage>)
    requires a != [] && b != [] && Shape(role, a) && Shape(role, b)
    requires DenotesAll(a) == DenotesAll(b) && AllCalls(a) == AllCalls(b)
    ensures a[|a| - 1] == b[|b| - 1]
    ensures DenotesAll(a[..|a| - 1]) == DenotesAll(b[..|b| - 1])
  {
    var m, n := a[|a| - 1], b[|b| - 1];
    var x, y := DenotesAll(a[..|a| - 1]), DenotesAll(b[..|b| - 1]);
    assert x + Denotes(m) == y + Denotes(n);
    ShapePrefix(role, a);
    ShapePrefix(role, b);
    hide Shape, DenotesAll, AllCalls, Denotes, EndsInResult;
    if m.toolCallId.None? && n.toolCallId.None? {
      BeforePlain(role, a);
      BeforePlain(role, b);
      LastPlain(role, m, n, x, y);
    } else if m.toolCallId.Some? && n.toolCallId.Some? {
      LastResult(m, n, x, y);
    } else if m.toolCallId.Some? {
      ResultIsNotPart(role, m, n, x, y);
    } else {
      ResultIsNotPart(role, n, m, y, x);
    }
  }

  /** No items end both in a tool result and in parts. */
  lemma ResultIsNotPart(role: string, m: ChatMessage, n: ChatMessage, x: seq<Item>, y: seq<Item>)
    requires WellFormedMessage(role, m) && WellFormedMessage(role, n)
    requires m.toolCallId.Some? && n.toolCallId.None? && m.toolCalls == n.toolCalls
    ensures x + Denotes(m) != y + Denotes(n)
  {
    PlainDenotes(role, n);
    var p, q := Denotes(m), Denotes(n);
    assert (x + p)[|x + p| - 1] == p[0] && (y + q)[|y + q| - 1] == q[|q| - 1];
  }

  /** The contract of the block conversion admits exactly one list of messages. */
  lemma ConversionIsDetermined(serialize: Serializer, role: string,
    blocks: seq<Value>, a: seq<ChatMessage>, b: seq<ChatMessage>)
    requires ConvertedBlocks(serialize, role, blocks, a) && ConvertedBlocks(serialize, role, blocks, b)
    ensures a == b
  {
    var lost := if EmptyTextLost(serialize, blocks) then [PartItem(TextPart(""))] else [];
    assert (DenotesAll(a) + lost)[..|DenotesAll(a)|] == DenotesAll(a);
    assert (DenotesAll(b) + lost)[..|DenotesAll(b)|] == DenotesAll(b);
    ShapeDetermines(role, a, b);
  }

  /** So does that of the whole request. */
  lemma RequestIsDetermined(serialize: Serializer, msgs: seq<Value>, a: seq<ChatMessage>, b: seq<ChatMessage>)
    requires ConvertedAll(serialize, msgs, a) && ConvertedAll(serialize, msgs, b)
    ensures a == b
  {
    var sa :| Segments(serialize, msgs, sa) && a == Flatten(sa);
    var sb :| Segments(serialize, msgs, sb) && b == Flatten(sb);
    forall i | 0 <= i < |msgs|
      ensures sa[i] == sb[i]
    {
      match msgs[i].Get("content") {
        case Some(List(blocks)) => ConversionIsDetermined(serialize, RoleOf(msgs[i]), blocks, sa[i], sb[i]);
        case _ =>
      }
    }
    assert sa == sb;
  }
}

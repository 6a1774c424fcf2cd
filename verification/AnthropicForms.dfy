/**
 * The JSON forms of the messages of an Anthropic request, with their field names spelled out, and what
 * the converted chat messages say of them.
 */
module AnthropicForms {
  import opened Wrappers
  import opened Json
  import opened RequestConvert

  // ---- Forms ----

  /** A text or an image; the type and the data of an image may be missing. */
  datatype PartForm = TextForm(text: string) | ImageForm(mediaType: Option<string>, data: Option<string>)

  datatype BodyForm = NoBody | TextBody(text: string) | PartsBody(parts: seq<PartForm>)

  /** A block of a message, `OtherForm` being one with nothing but its type. */
  datatype BlockForm =
    | PartBlock(part: PartForm)
    | UseForm(id: Option<string>, name: Option<string>, input: Option<Value>)
    | ResultForm(id: Option<string>, body: BodyForm, error: Option<bool>)
    | OtherForm(kind: string)

  datatype MessageForm =
    | TextMessage(role: Option<string>, text: string)
    | BlockMessage(role: Option<string>, blocks: seq<BlockForm>)
    | BareMessage(role: Option<string>)

  function PartFormValue(part: PartForm): Value {
    match part
    case TextForm(text) => Obj(map["type" := Str("text"), "text" := Str(text)])
    case ImageForm(mediaType, data) =>
      Obj(map["type" := Str("image"),
              "source" := Obj(OptionalText("media_type", mediaType) + OptionalText("data", data))])
  }

  function PartFormValues(parts: seq<PartForm>): (vals: seq<Value>)
    ensures |vals| == |parts|
  {
    seq(|parts|, i requires 0 <= i < |parts| => PartFormValue(parts[i]))
  }

  function BodyFields(body: BodyForm): Fields {
    match body
    case NoBody => map[]
    case TextBody(text) => map["content" := Str(text)]
    case PartsBody(parts) => map["content" := List(PartFormValues(parts))]
  }

  function BlockFormValue(block: BlockForm): Value {
    match block
    case PartBlock(part) => PartFormValue(part)
    case UseForm(id, name, input) =>
      Obj(map["type" := Str("tool_use")] + OptionalText("id", id) + OptionalText("name", name)
          + (if input.Some? then map["input" := input.value] else map[]))
    case ResultForm(id, body, error) =>
      Obj(map["type" := Str("tool_result")] + OptionalText("tool_use_id", id) + BodyFields(body)
          + (if error.Some? then map["is_error" := Bool(error.value)] else map[]))
    case OtherForm(kind) => Obj(map["type" := Str(kind)])
  }

  function BlockFormValues(blocks: seq<BlockForm>): (vals: seq<Value>)
    ensures |vals| == |blocks|
  {
    seq(|blocks|, i requires 0 <= i < |blocks| => BlockFormValue(blocks[i]))
  }

  function MessageFormValue(m: MessageForm): Value {
    match m
    case TextMessage(role, text) => Obj(OptionalText("role", role) + map["content" := Str(text)])
    case BlockMessage(role, blocks) => Obj(OptionalText("role", role) + map["content" := List(BlockFormValues(blocks))])
    case BareMessage(role) => Obj(OptionalText("role", role))
  }

  /** What has no OpenAI form: other types, and a text without text or an image without source. */
  predicate Foreign(block: BlockForm) {
    block.OtherForm? ==> block.kind !in {"tool_use", "tool_result"}
  }

  // ---- What the forms say ----

  function PartSaid(part: PartForm): Part {
    match part
    case TextForm(text) => TextPart(text)
    case ImageForm(mediaType, data) =>
      ImagePart("data:" + mediaType.GetOr("image/jpeg") + ";base64," + data.GetOr(""))
  }

  function PartsSaid(parts: seq<PartForm>): (r: seq<Part>)
    ensures |r| == |parts|
  {
    seq(|parts|, i requires 0 <= i < |parts| => PartSaid(parts[i]))
  }

  /** One text is plain, nothing is the empty text, anything else a list of parts. */
  function BodySaid(body: BodyForm): Content {
    match body
    case NoBody => Plain("")
    case TextBody(text) => Plain(text)
    case PartsBody(parts) =>
      if |parts| == 0 then Plain("")
      else if |parts| == 1 && parts[0].TextForm? then Plain(parts[0].text)
      else Parts(PartsSaid(parts))
  }

  function ResultSaid(body: BodyForm, error: Option<bool>): Content {
    match BodySaid(body)
    case Plain(text) => if error == Some(true) then Plain("[tool_error] " + text) else Plain(text)
    case Parts(parts) => Parts(parts)
  }

  /** The parts and tool results of the blocks, in their order. */
  function ItemsSaid(blocks: seq<BlockForm>): seq<Item> {
    if blocks == [] then []
    else
      ItemsSaid(blocks[..|blocks| - 1]) +
      match blocks[|blocks| - 1]
      case PartBlock(part) => [PartItem(PartSaid(part))]
      case ResultForm(id, body, error) => [ResultItem(id.GetOr(""), ResultSaid(body, error))]
      case _ => []
  }

  /** The tool uses of the blocks, in their order. */
  function CallsSaid(serialize: Serializer, blocks: seq<BlockForm>): seq<ToolCall> {
    if blocks == [] then []
    else
      CallsSaid(serialize, blocks[..|blocks| - 1]) +
      match blocks[|blocks| - 1]
      case UseForm(id, name, input) => [ToolCall(id.GetOr(""), name.GetOr(""), serialize(input.GetOr(Obj(map[]))))]
      case _ => []
  }

  // ---- Reading the forms ----

  lemma PartReads(part: PartForm)
    ensures BlockType(PartFormValue(part)) == if part.TextForm? then "text" else "image"
    ensures ConvertBlock(PartFormValue(part)) == Some(PartSaid(part))
  {
    assert "type" != "text" && "type" != "source" && "media_type" != "data" && "text" != "image";
    if part.ImageForm? {
      var source := Obj(OptionalText("media_type", part.mediaType) + OptionalText("data", part.data));
      assert PartFormValue(part).Get("source") == Some(source);
      assert TextOr(source.Get("media_type"), "image/jpeg") == part.mediaType.GetOr("image/jpeg");
      assert TextOr(source.Get("data"), "") == part.data.GetOr("");
    }
  }

  lemma {:induction false} PartsRead(parts: seq<PartForm>)
    ensures ConvertBlocks(PartFormValues(parts)) == PartsSaid(parts)
    decreases |parts|
  {
    if parts != [] {
      var n := |parts| - 1;
      PartsRead(parts[..n]);
      PartReads(parts[n]);
      OneMorePart(parts);
      hide PartFormValue, PartFormValues, PartsSaid, PartSaid, ConvertBlock;
    }
  }

  lemma OneMorePart(parts: seq<PartForm>)
    requires parts != []
    ensures var n := |parts| - 1;
            && PartFormValues(parts)[..n] == PartFormValues(parts[..n])
            && PartFormValues(parts)[n] == PartFormValue(parts[n])
            && PartsSaid(parts) == PartsSaid(parts[..n]) + [PartSaid(parts[n])]
  {
    hide PartFormValue, PartSaid;
  }

  lemma UseReads(serialize: Serializer, id: Option<string>, name: Option<string>, input: Option<Value>)
    ensures var block := BlockFormValue(UseForm(id, name, input));
            && BlockType(block) == "tool_use" && ConvertBlock(block) == None
            && UseOf(serialize, block) == ToolCall(id.GetOr(""), name.GetOr(""), serialize(input.GetOr(Obj(map[]))))
  {
    DistinctKeys();
    var block := BlockFormValue(UseForm(id, name, input));
    assert block.Get("type") == Some(Str("tool_use"));
    assert TextOr(block.Get("id"), "") == id.GetOr("");
    assert TextOr(block.Get("name"), "") == name.GetOr("");
    assert block.Get("input").GetOr(Obj(map[])) == input.GetOr(Obj(map[]));
  }

  lemma DistinctKeys()
    ensures "type" != "id" && "type" != "name" && "type" != "input" && "id" != "name" && "id" != "input"
    ensures "name" != "input" && "type" != "tool_use_id" && "type" != "content" && "type" != "is_error"
    ensures "tool_use_id" != "content" && "tool_use_id" != "is_error" && "content" != "is_error"
    ensures "tool_use" != "text" && "tool_use" != "image" && "tool_result" != "text" && "tool_result" != "image"
    ensures "tool_use" != "tool_result" && "role" != "content"
  {
    assert "type"[0] == 't' && "tool_use_id"[1] == 'o' && "type"[1] == 'y';
    assert |"tool_use"| != |"tool_result"|;
    assert "is_error"[0] == 'i' && "content"[0] == 'c' && "role"[0] == 'r';
  }

  lemma ResultFields(id: Option<string>, body: BodyForm, error: Option<bool>)
    ensures var block := BlockFormValue(ResultForm(id, body, error));
            && BlockType(block) == "tool_result" && ConvertBlock(block) == None
            && ResultId(block) == id.GetOr("")
            && IsError(block) == (error == Some(true))
            && block.Get("content") == (match body
                                        case NoBody => None
                                        case TextBody(text) => Some(Str(text))
                                        case PartsBody(parts) => Some(List(PartFormValues(parts))))
  {
    hide PartFormValues;
    DistinctKeys();
    var block := BlockFormValue(ResultForm(id, body, error));
    assert block.Get("type") == Some(Str("tool_result"));
    assert TextOr(block.Get("tool_use_id"), "") == id.GetOr("");
    assert block.Get("is_error") == if error.Some? then Some(Bool(error.value)) else None;
  }

  lemma BodyReads(body: BodyForm)
    ensures ToolResultContent(match body
                              case NoBody => None
                              case TextBody(text) => Some(Str(text))
                              case PartsBody(parts) => Some(List(PartFormValues(parts)))) == BodySaid(body)
  {
    if body.PartsBody? {
      PartsRead(body.parts);
      hide PartFormValues, ConvertBlocks;
    }
  }

  lemma ResultReads(id: Option<string>, body: BodyForm, error: Option<bool>)
    ensures var block := BlockFormValue(ResultForm(id, body, error));
            && BlockType(block) == "tool_result" && ConvertBlock(block) == None
            && ResultId(block) == id.GetOr("") && ResultContent(block) == ResultSaid(body, error)
  {
    ResultFields(id, body, error);
    BodyReads(body);
    hide BlockFormValue, ToolResultContent, PartFormValues, BlockType, ConvertBlock, ResultId, IsError, BodySaid;
  }

  lemma OtherReads(kind: string)
    requires kind !in {"tool_use", "tool_result"}
    ensures var block := BlockFormValue(OtherForm(kind));
            BlockType(block) == kind && ConvertBlock(block) == None
  {
  }

  /** The blocks are read as exactly what they say. */
  lemma {:induction false} BlocksRead(serialize: Serializer, blocks: seq<BlockForm>)
    requires forall i :: 0 <= i < |blocks| ==> Foreign(blocks[i])
    ensures Items(BlockFormValues(blocks)) == ItemsSaid(blocks)
    ensures Uses(serialize, BlockFormValues(blocks)) == CallsSaid(serialize, blocks)
    decreases |blocks|
  {
    if blocks != [] {
      var n := |blocks| - 1;
      BlocksRead(serialize, blocks[..n]);
      OneMoreBlockForm(blocks);
      DistinctKeys();
      hide BlockFormValue, BlockFormValues, BlockType, ConvertBlock, UseOf, ResultId, ResultContent, PartSaid,
           ResultSaid;
      match blocks[n] {
        case PartBlock(part) =>
          PartReads(part);
          PartBlockIs(part);
        case UseForm(id, name, input) => UseReads(serialize, id, name, input);
        case ResultForm(id, body, error) => ResultReads(id, body, error);
        case OtherForm(kind) => OtherReads(kind);
      }
    }
  }

  lemma OneMoreBlockForm(blocks: seq<BlockForm>)
    requires blocks != []
    ensures var n := |blocks| - 1;
            && BlockFormValues(blocks)[..n] == BlockFormValues(blocks[..n])
            && BlockFormValues(blocks)[n] == BlockFormValue(blocks[n])
  {
    hide BlockFormValue;
  }

  lemma PartBlockIs(part: PartForm)
    ensures BlockFormValue(PartBlock(part)) == PartFormValue(part)
  {
  }

  // ---- What the converted messages say ----

  /** A lone empty text after the last tool result, beside tool uses. */
  predicate EndsInEmptyText(serialize: Serializer, blocks: seq<BlockForm>) {
    CallsSaid(serialize, blocks) != [] && EmptyTail(ItemsSaid(blocks))
  }

  predicate EmptyTail(items: seq<Item>) {
    && items != [] && items[|items| - 1] == PartItem(TextPart(""))
    && (|items| > 1 ==> items[|items| - 2].ResultItem?)
  }

  /**
   * From the request to the chat messages: whatever messages meet the contract of the conversion carry
   * exactly the calls, texts, image URLs and tool results that the blocks say, in their order; only a
   * lone empty text beside tool uses is left out.
   */
  lemma BlocksReadBack(serialize: Serializer, role: string, blocks: seq<BlockForm>, ms: seq<ChatMessage>)
    requires forall i :: 0 <= i < |blocks| ==> Foreign(blocks[i])
    requires ConvertedBlocks(serialize, role, BlockFormValues(blocks), ms)
    ensures AllCalls(ms) == CallsSaid(serialize, blocks)
    ensures ItemsSaid(blocks) ==
            DenotesAll(ms) + if EndsInEmptyText(serialize, blocks) then [PartItem(TextPart(""))] else []
    ensures forall i :: 0 <= i < |ms| ==> ms[i].role == if ms[i].toolCallId.Some? then "tool" else role
    ensures forall i, text :: 0 <= i < |ms| && ms[i].toolCallId.None? ==> ms[i].content != Parts([TextPart(text)])
  {
    hide ConvertedBlocks, BlockFormValues, Items, Uses, CallsSaid, ItemsSaid, DenotesAll, AllCalls, EmptyTail, Trailing,
         Shape;
    ConvertedSays(serialize, role, BlockFormValues(blocks), ms);
    BlocksRead(serialize, blocks);
    TailIff(BlockFormValues(blocks));
    ShapeSays(role, ms);
  }

  lemma ConvertedSays(serialize: Serializer, role: string, blocks: seq<Value>, ms: seq<ChatMessage>)
    requires ConvertedBlocks(serialize, role, blocks, ms)
    ensures Shape(role, ms) && AllCalls(ms) == Uses(serialize, blocks)
    ensures Items(blocks) ==
            DenotesAll(ms) + if Trailing(blocks) == [TextPart("")] && Uses(serialize, blocks) != []
                             then [PartItem(TextPart(""))] else []
  {
    hide Shape, AllCalls, DenotesAll, Items, Uses, Trailing;
  }

  lemma ShapeSays(role: string, ms: seq<ChatMessage>)
    requires Shape(role, ms)
    ensures forall i :: 0 <= i < |ms| ==> ms[i].role == if ms[i].toolCallId.Some? then "tool" else role
    ensures forall i, text :: 0 <= i < |ms| && ms[i].toolCallId.None? ==> ms[i].content != Parts([TextPart(text)])
  {
  }

  /** `items` ends in these parts, and what stands before them in a tool result. */
  ghost predicate EndsWith(items: seq<Item>, tail: seq<Part>) {
    && |tail| <= |items|
    && (forall i :: |items| - |tail| <= i < |items| ==> items[i] == PartItem(tail[i - (|items| - |tail|)]))
    && (|tail| < |items| ==> items[|items| - |tail| - 1].ResultItem?)
  }

  lemma OnePartMore(items: seq<Item>, tail: seq<Part>, p: Part)
    requires EndsWith(items, tail)
    ensures EndsWith(items + [PartItem(p)], tail + [p])
  {
  }

  lemma OneResultMore(items: seq<Item>, r: Item)
    requires r.ResultItem?
    ensures EndsWith(items + [r], [])
  {
  }

  lemma {:induction false} TrailingItems(blocks: seq<Value>)
    ensures EndsWith(Items(blocks), Trailing(blocks))
    decreases |blocks|
  {
    hide BlockType, ConvertBlock, ResultId, ResultContent;
    if blocks != [] {
      var init, last := blocks[..|blocks| - 1], blocks[|blocks| - 1];
      TrailingItems(init);
      OneResultMore(Items(init), ResultItem(ResultId(last), ResultContent(last)));
      var part := ConvertBlock(last);
      if part.Some? {
        OnePartMore(Items(init), Trailing(init), part.value);
      }
      hide EndsWith;
    }
  }

  lemma EmptyTailIff(items: seq<Item>, tail: seq<Part>)
    requires EndsWith(items, tail)
    ensures tail == [TextPart("")] <==> EmptyTail(items)
  {
    var n := |items|;
    assert |tail| >= 1 ==> items[n - 1] == PartItem(tail[|tail| - 1]);
    assert |tail| >= 2 ==> items[n - 2] == PartItem(tail[|tail| - 2]);
  }

  lemma TailIff(blocks: seq<Value>)
    ensures Trailing(blocks) == [TextPart("")] <==> EmptyTail(Items(blocks))
  {
    hide Items, Trailing, EndsWith, EmptyTail;
    TrailingItems(blocks);
    EmptyTailIff(Items(blocks), Trailing(blocks));
  }

  /** Messages whose content is text, or missing, are carried over as they are, the role defaulting to `user`. */
  lemma MessageReadsBack(serialize: Serializer, m: MessageForm, ms: seq<ChatMessage>)
    ensures var role := m.role.GetOr("user");
            Converted(serialize, MessageFormValue(m), ms) <==>
            match m
            case TextMessage(_, text) => ms == [ChatMessage(role, Plain(text), [], None)]
            case BareMessage(_) => ms == [ChatMessage(role, Plain(""), [], None)]
            case BlockMessage(_, blocks) => ConvertedBlocks(serialize, role, BlockFormValues(blocks), ms)
  {
    DistinctKeys();
    hide ConvertedBlocks, BlockFormValues;
    var v := MessageFormValue(m);
    assert RoleOf(v) == m.role.GetOr("user");
  }
}

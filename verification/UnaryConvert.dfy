/** The non-streaming response converter. */
module UnaryConvert {
  import opened Wrappers
  import opened BoundedInts
  import opened Json
  import opened SseFraming
  import opened AnthropicStream

  datatype ContentBlock = TextBlock(text: string) | ToolUseBlock(name: string, input: Value)

  /** An Anthropic reply; generated message and tool ids are erased. */
  datatype Message = Message(
    model: string, content: seq<ContentBlock>, stopReason: string, usage: ReplyUsage)

  /** Tool input is the parsed argument text, or the empty object when it does not parse. */
  function ParseInput(parse: Parser, args: string): Value {
    parse(args).GetOr(Obj(map[]))
  }

  function MessageOf(resp: Value): Option<Value> {
    Field(FirstChoice(resp), "message")
  }

  function ReplyText(resp: Value): string {
    TextOr(Field(MessageOf(resp), "content"), "")
  }

  function ReplyToolCalls(resp: Value): seq<Value> {
    var calls := Field(MessageOf(resp), "tool_calls");
    if calls.Some? then calls.value.AsArray().GetOr([]) else []
  }

  function ToolUses(parse: Parser, calls: seq<Value>): (r: seq<ContentBlock>)
    ensures |r| == |calls|
  {
    if calls == [] then []
    else
      var last := calls[|calls| - 1];
      ToolUses(parse, calls[..|calls| - 1]) + [ToolUseBlock(ToolName(last), ParseInput(parse, ToolArgs(last)))]
  }

  function ReplyContent(parse: Parser, resp: Value): seq<ContentBlock> {
    var text := ReplyText(resp);
    var blocks := (if text != "" then [TextBlock(text)] else []) + ToolUses(parse, ReplyToolCalls(resp));
    if blocks == [] then [TextBlock("")] else blocks
  }

  function UnaryStop(finish: Option<Value>): string {
    var reason := TextOr(finish, "");
    if reason == "stop" then "end_turn"
    else if reason == "length" then "max_tokens"
    else if reason == "tool_calls" then "tool_use"
    else "end_turn"
  }

  function UnaryUsage(usage: Option<Value>): ReplyUsage {
    var u := ReadUsage(usage.GetOr(Null));
    ReplyUsage(SaturatingSub(u.prompt, u.cached), u.completion, Positive(u.cached), Positive(u.cacheWrite))
  }

  function UnaryMessage(parse: Parser, resp: Value, model: string): Message {
    Message(model, ReplyContent(parse, resp), UnaryStop(Field(FirstChoice(resp), "finish_reason")),
            UnaryUsage(resp.Get("usage")))
  }

  lemma NoToolUses(parse: Parser)
    ensures ToolUses(parse, []) == []
  {
  }

  lemma OneMoreToolUse(parse: Parser, calls: seq<Value>, i: nat)
    requires i < |calls|
    ensures ToolUses(parse, calls[..i + 1]) ==
            ToolUses(parse, calls[..i]) + [ToolUseBlock(ToolName(calls[i]), ParseInput(parse, ToolArgs(calls[i])))]
  {
    assert calls[..i + 1][..i] == calls[..i];
    hide ToolName, ToolArgs, ParseInput;
  }

  method OpenAiToAnthropicResponse(parse: Parser, resp: Value, model: string) returns (m: Message)
    ensures m == UnaryMessage(parse, resp, model)
  {
    hide ReplyText, ReplyToolCalls, ToolUses, ToolName, ToolArgs, ParseInput, UnaryStop, UnaryUsage, FirstChoice, Field;
    NoToolUses(parse);
    var content := ReplyText(resp);
    var blocks: seq<ContentBlock> := [];
    if content != "" {
      blocks := blocks + [TextBlock(content)];
    }
    ghost var prefix := blocks;
    var calls := ReplyToolCalls(resp);
    for i := 0 to |calls|
      invariant blocks == prefix + ToolUses(parse, calls[..i])
    {
      OneMoreToolUse(parse, calls, i);
      var input := ParseInput(parse, ToolArgs(calls[i]));
      assert prefix + (ToolUses(parse, calls[..i]) + [ToolUseBlock(ToolName(calls[i]), input)]) ==
             blocks + [ToolUseBlock(ToolName(calls[i]), input)];
      blocks := blocks + [ToolUseBlock(ToolName(calls[i]), input)];
    }
    assert calls[..|calls|] == calls;
    if |blocks| == 0 {
      blocks := [TextBlock("")];
    }
    m := Message(model, blocks, UnaryStop(Field(FirstChoice(resp), "finish_reason")),
                 UnaryUsage(resp.Get("usage")));
  }
}

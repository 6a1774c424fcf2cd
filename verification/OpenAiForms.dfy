/**
 * The JSON forms in which an OpenAI endpoint sends chunks and replies, with their field names spelled
 * out, and what the converters read back from them.
 */
module OpenAiForms {
  import opened Wrappers
  import opened BoundedInts
  import opened Json
  import opened SseFraming
  import opened AnthropicStream
  import opened UnaryConvert

  // ---- Forms ----

  /**
   * Usage under the standard field names, or under the other ones that some endpoints use, or under both,
   * or without details and with any integers for counts.
   */
  datatype UsageForm =
    | Standard(u: Usage)
    | Alternative(u: Usage)
    | Both(u: Usage, other: Usage)
    | Bare(prompt: int, completion: int)

  function Count(n: int): u64 {
    if 0 <= n < 18_446_744_073_709_551_616 then n else 0
  }

  /** What a usage form reports: the standard names come first, and what is no 64-bit count is zero. */
  function Reported(form: UsageForm): Usage {
    match form
    case Bare(prompt, completion) => Usage(Count(prompt), Count(completion), 0, 0)
    case _ => form.u
  }

  datatype CallForm = CallForm(index: Option<u64>, name: Option<string>, args: Option<string>)

  /** What a chunk or a complete reply carries; every part may be missing. */
  datatype Form = Form(
    usage: Option<UsageForm>, text: Option<string>, calls: seq<CallForm>, finish: Option<string>)

  function OptionalCount(key: string, n: Option<u64>): Fields {
    if n.Some? then map[key := Integer(n.value)] else map[]
  }

  function Details(u: Usage): Value {
    Obj(map["cached_tokens" := Integer(u.cached), "cache_write_tokens" := Integer(u.cacheWrite)])
  }

  function UsageFormValue(form: UsageForm): Value {
    match form
    case Standard(u) =>
      Obj(map["prompt_tokens" := Integer(u.prompt), "completion_tokens" := Integer(u.completion),
              "prompt_tokens_details" := Details(u)])
    case Alternative(u) =>
      Obj(map["input_tokens" := Integer(u.prompt), "output_tokens" := Integer(u.completion),
              "prompt_tokens_details" := Details(u)])
    case Both(u, other) =>
      Obj(map["prompt_tokens" := Integer(u.prompt), "completion_tokens" := Integer(u.completion),
              "input_tokens" := Integer(other.prompt), "output_tokens" := Integer(other.completion),
              "prompt_tokens_details" := Details(u)])
    case Bare(prompt, completion) =>
      Obj(map["prompt_tokens" := Integer(prompt), "completion_tokens" := Integer(completion)])
  }

  function OptionalUsage(form: Option<UsageForm>): Fields {
    if form.Some? then map["usage" := UsageFormValue(form.value)] else map[]
  }

  function CallFormValue(call: CallForm): Value {
    Obj(OptionalCount("index", call.index)
        + map["function" := Obj(OptionalText("name", call.name) + OptionalText("arguments", call.args))])
  }

  function CallFormValues(calls: seq<CallForm>): (vals: seq<Value>)
    ensures |vals| == |calls|
  {
    seq(|calls|, i requires 0 <= i < |calls| => CallFormValue(calls[i]))
  }

  /** Text and tool calls sit in the first choice, under `delta` in a chunk and `message` in a reply. */
  function Choice(under: string, text: Option<string>, calls: seq<CallForm>, finish: Option<string>): Value {
    Obj(map[under := Obj(OptionalText("content", text) + map["tool_calls" := List(CallFormValues(calls))])]
        + OptionalText("finish_reason", finish))
  }

  function ChunkValue(c: Form): Value {
    Obj(map["choices" := List([Choice("delta", c.text, c.calls, c.finish)])] + OptionalUsage(c.usage))
  }

  function ReplyValue(r: Form): Value {
    Obj(map["choices" := List([Choice("message", r.text, r.calls, r.finish)])] + OptionalUsage(r.usage))
  }

  // ---- What a chunk says ----

  /** Each entry with an index, in order; a missing name or missing arguments are empty. */
  function CallFragments(calls: seq<CallForm>): seq<Op> {
    if calls == [] then []
    else
      var last := calls[|calls| - 1];
      CallFragments(calls[..|calls| - 1]) +
      if last.index.Some? then [ToolFragment(last.index.value, last.name.GetOr(""), last.args.GetOr(""))] else []
  }

  /** The usage, the text unless empty, the tool calls, and the finish reason unless empty. */
  function ChunkFragments(c: Form): seq<Op> {
    (if c.usage.Some? then [UsageReport(Reported(c.usage.value))] else [])
    + (if c.text.GetOr("") != "" then [TextFragment(c.text.value)] else [])
    + CallFragments(c.calls)
    + (if c.finish.GetOr("") != "" then [FinishReason(c.finish.value)] else [])
  }

  lemma UsageReads(form: UsageForm)
    ensures ReadUsage(UsageFormValue(form)) == Reported(form)
  {
    if !form.Bare? {
      DetailsRead(form.u);
    }
    assert "prompt_tokens" != "completion_tokens" && "prompt_tokens" != "prompt_tokens_details";
    assert "completion_tokens" != "prompt_tokens_details";
    assert "input_tokens" != "output_tokens" && "input_tokens" != "prompt_tokens_details";
    assert "output_tokens" != "prompt_tokens_details" && "output_tokens" != "completion_tokens";
    assert "input_tokens" != "prompt_tokens" && "input_tokens" != "completion_tokens";
    assert "output_tokens" != "prompt_tokens";
    hide Details;
  }

  lemma DetailsRead(u: Usage)
    ensures CountOr(Field(Some(Details(u)), "cached_tokens"), 0) == u.cached
    ensures CountOr(Field(Some(Details(u)), "cache_write_tokens"), 0) == u.cacheWrite
  {
    assert "cached_tokens" != "cache_write_tokens";
  }

  lemma CallReads(call: CallForm)
    ensures ToolIndex(CallFormValue(call)) == call.index
    ensures ToolName(CallFormValue(call)) == call.name.GetOr("")
    ensures ToolArgs(CallFormValue(call)) == call.args.GetOr("")
  {
    assert "name" != "arguments" && "index" != "function";
    var function_ := Obj(OptionalText("name", call.name) + OptionalText("arguments", call.args));
    assert CallFormValue(call).Get("function") == Some(function_);
    assert TextOr(function_.Get("name"), "") == call.name.GetOr("");
    assert TextOr(function_.Get("arguments"), "") == call.args.GetOr("");
  }

  lemma ChoiceReads(under: string, text: Option<string>, calls: seq<CallForm>, finish: Option<string>)
    requires under != "finish_reason"
    ensures var choice := Choice(under, text, calls, finish);
            && choice.Get(under).Some?
            && TextOr(choice.Get(under).value.Get("content"), "") == text.GetOr("")
            && choice.Get(under).value.Get("tool_calls") == Some(List(CallFormValues(calls)))
            && TextOr(choice.Get("finish_reason"), "") == finish.GetOr("")
  {
    hide CallFormValues;
    assert "content" != "tool_calls";
    var inner := Obj(OptionalText("content", text) + map["tool_calls" := List(CallFormValues(calls))]);
    assert Choice(under, text, calls, finish).Get(under) == Some(inner);
  }

  lemma {:induction false} CallOpsRead(calls: seq<CallForm>)
    ensures ToolOps(CallFormValues(calls)) == CallFragments(calls)
    decreases |calls|
  {
    if calls != [] {
      var n := |calls| - 1;
      CallOpsRead(calls[..n]);
      CallReads(calls[n]);
      assert CallFormValues(calls)[..n] == CallFormValues(calls[..n]);
      hide CallFormValue, ToolIndex, ToolName, ToolArgs;
    }
  }

  lemma ChunkFields(c: Form)
    ensures FirstChoice(ChunkValue(c)) == Some(Choice("delta", c.text, c.calls, c.finish))
    ensures ChunkValue(c).Get("usage") == if c.usage.Some? then Some(UsageFormValue(c.usage.value)) else None
  {
    hide Choice, UsageFormValue;
    assert "choices" != "usage";
  }

  /** A chunk is read back as exactly what it says: for every chunk, whatever is missing from it. */
  lemma ChunkReadsBack(c: Form)
    ensures Decode(ChunkValue(c)) == ChunkFragments(c)
  {
    ChunkParts(c);
    CallOpsRead(c.calls);
    if c.usage.Some? {
      UsageReads(c.usage.value);
    }
    hide ChunkValue, UsageFormValue, ReadUsage, CallFormValues, ToolOps, CallFragments,
         ContentOf, ToolCallsOf, FinishOf;
  }

  /** The members of a chunk, as the converter looks them up. */
  lemma ChunkParts(c: Form)
    ensures ContentOf(ChunkValue(c)) == if c.text.GetOr("") != "" then c.text else None
    ensures ToolCallsOf(ChunkValue(c)) == CallFormValues(c.calls)
    ensures FinishOf(ChunkValue(c)) == if c.finish.GetOr("") != "" then c.finish else None
    ensures ChunkValue(c).Get("usage") == if c.usage.Some? then Some(UsageFormValue(c.usage.value)) else None
  {
    ChunkFields(c);
    assert "delta" != "finish_reason";
    ChoiceReads("delta", c.text, c.calls, c.finish);
    hide ChunkValue, Choice, UsageFormValue, CallFormValues, FirstChoice;
  }

  // ---- What a reply says ----

  /** A tool use for one call: its name, and its arguments parsed, or the empty object when they do not parse. */
  predicate UseSays(parse: Parser, call: CallForm, block: ContentBlock) {
    && block.ToolUseBlock?
    && block.name == call.name.GetOr("")
    && match parse(call.args.GetOr(""))
       case Some(v) => block.input == v
       case None => block.input == Obj(map[])
  }

  /** The text, if any, and then one tool use per call in order; an empty text if there is nothing else. */
  ghost predicate ContentSays(parse: Parser, r: Form, content: seq<ContentBlock>) {
    var text := r.text.GetOr("");
    if text == "" && r.calls == [] then content == [TextBlock("")]
    else
      var off := if text != "" then 1 else 0;
      && |content| == off + |r.calls|
      && (text != "" ==> content[0] == TextBlock(text))
      && forall k :: 0 <= k < |r.calls| ==> UseSays(parse, r.calls[k], content[off + k])
  }

  /** The content of a complete reply, for every parser, told without the functions that read it. */
  lemma ReplyReadsBack(parse: Parser, r: Form, model: string)
    ensures ContentSays(parse, r, UnaryMessage(parse, ReplyValue(r), model).content)
  {
    hide UnaryMessage, ToolUses, UseSays, CallFormValues, ReplyValue, ContentSays;
    ReplyContentIs(parse, r, model);
    CallsAreParsed(parse, r.calls);
    TextThenUses(parse, r, ToolUses(parse, CallFormValues(r.calls)));
  }

  lemma TextThenUses(parse: Parser, r: Form, uses: seq<ContentBlock>)
    requires |uses| == |r.calls| && forall k :: 0 <= k < |uses| ==> UseSays(parse, r.calls[k], uses[k])
    ensures var text := r.text.GetOr("");
            var blocks := (if text != "" then [TextBlock(text)] else []) + uses;
            ContentSays(parse, r, if blocks == [] then [TextBlock("")] else blocks)
  {
    hide UseSays;
    var text := r.text.GetOr("");
    if text != "" {
      assert forall k :: 0 <= k < |uses| ==> ([TextBlock(text)] + uses)[1 + k] == uses[k];
    } else {
      assert [] + uses == uses;
    }
  }

  lemma ReplyContentIs(parse: Parser, r: Form, model: string)
    ensures var text := r.text.GetOr("");
            var blocks := (if text != "" then [TextBlock(text)] else []) + ToolUses(parse, CallFormValues(r.calls));
            UnaryMessage(parse, ReplyValue(r), model).content == if blocks == [] then [TextBlock("")] else blocks
  {
    ReplyReads(r);
    hide ReplyValue, CallFormValues, ToolUses, UnaryUsage, UnaryStop, ReplyText, ReplyToolCalls;
  }

  lemma CallsAreParsed(parse: Parser, calls: seq<CallForm>)
    ensures forall k :: 0 <= k < |calls| ==> UseSays(parse, calls[k], ToolUses(parse, CallFormValues(calls))[k])
  {
    forall k | 0 <= k < |calls|
      ensures UseSays(parse, calls[k], ToolUses(parse, CallFormValues(calls))[k])
    {
      ToolUseAt(parse, CallFormValues(calls), k);
      CallReads(calls[k]);
      hide ToolUses, CallFormValue, ToolName, ToolArgs;
    }
  }

  lemma ReplyReads(r: Form)
    ensures ReplyText(ReplyValue(r)) == r.text.GetOr("")
    ensures ReplyToolCalls(ReplyValue(r)) == CallFormValues(r.calls)
    ensures TextOr(Field(FirstChoice(ReplyValue(r)), "finish_reason"), "") == r.finish.GetOr("")
  {
    ReplyFields(r);
    assert "message" != "finish_reason";
    ChoiceReads("message", r.text, r.calls, r.finish);
    hide ReplyValue, Choice, CallFormValues, FirstChoice;
  }

  /** The stop reason and the model of a complete reply. */
  lemma ReplyStopReadsBack(parse: Parser, r: Form, model: string)
    ensures var m := UnaryMessage(parse, ReplyValue(r), model);
            && m.model == model
            && m.stopReason == (if r.finish == Some("length") then "max_tokens"
                                else if r.finish == Some("tool_calls") then "tool_use" else "end_turn")
  {
    ReplyReads(r);
    hide ReplyValue, UnaryUsage, ReplyContent, FirstChoice, Field;
  }

  lemma ReplyFields(r: Form)
    ensures FirstChoice(ReplyValue(r)) == Some(Choice("message", r.text, r.calls, r.finish))
    ensures ReplyValue(r).Get("usage") == if r.usage.Some? then Some(UsageFormValue(r.usage.value)) else None
  {
    hide Choice, UsageFormValue;
    assert "choices" != "usage";
  }

  lemma {:induction false} ToolUseAt(parse: Parser, calls: seq<Value>, k: nat)
    requires k < |calls|
    ensures ToolUses(parse, calls)[k] == ToolUseBlock(ToolName(calls[k]), ParseInput(parse, ToolArgs(calls[k])))
    decreases |calls|
  {
    if k < |calls| - 1 {
      ToolUseAt(parse, calls[..|calls| - 1], k);
    }
  }

  /** The usage of a reply: cached tokens are taken out of the input, and cache counts are given when positive. */
  predicate UsageSays(u: Usage, usage: ReplyUsage) {
    && usage.inputTokens == (if u.prompt >= u.cached then u.prompt - u.cached else 0)
    && usage.outputTokens == u.completion
    && usage.cacheRead == (if u.cached > 0 then Some(u.cached) else None)
    && usage.cacheCreation == (if u.cacheWrite > 0 then Some(u.cacheWrite) else None)
  }

  lemma ReplyUsageReadsBack(parse: Parser, r: Form, model: string)
    ensures UsageSays(if r.usage.Some? then Reported(r.usage.value) else Usage(0, 0, 0, 0),
                      UnaryMessage(parse, ReplyValue(r), model).usage)
  {
    ReplyFields(r);
    hide ReplyValue, UsageFormValue, ReplyContent, UnaryStop, FirstChoice, Field, UnaryUsage, Reported, UsageSays;
    if r.usage.Some? {
      ConvertedUsage(r.usage.value);
    } else {
      NoUsage();
    }
  }

  lemma ConvertedUsage(form: UsageForm)
    ensures UsageSays(Reported(form), UnaryUsage(Some(UsageFormValue(form))))
  {
    UsageReads(form);
    hide UsageFormValue, ReadUsage, Reported;
  }

  lemma NoUsage()
    ensures UsageSays(Usage(0, 0, 0, 0), UnaryUsage(None))
  {
  }

  // ---- A framed stream ----

  /** A chunk's text as an endpoint writes it on one line. */
  predicate Payload(text: string) {
    && text != ""
    && !IsWhitespace(text[0]) && !IsWhitespace(text[|text| - 1])
    && forall i :: 0 <= i < |text| ==> text[i] != '\n'
  }

  /** The stream of an endpoint: one event per payload, then the end marker. */
  function Framed(payloads: seq<string>): string {
    FramedEvents(payloads) + "data: [DONE]\n\n"
  }

  function FramedEvents(payloads: seq<string>): string {
    if payloads == [] then ""
    else FramedEvents(payloads[..|payloads| - 1]) + ("data: " + payloads[|payloads| - 1] + "\n\n")
  }

  /** The parsed payloads, in order, the unparsable ones left out. */
  function Parsed(parse: Parser, payloads: seq<string>): seq<Value> {
    if payloads == [] then []
    else
      var last := parse(payloads[|payloads| - 1]);
      Parsed(parse, payloads[..|payloads| - 1]) + if last.Some? then [last.value] else []
  }

  /** Space, tabulators and line ends around a line do not count. */
  lemma PaddedLine(parse: Parser, line: string, c: char)
    requires c in {' ', '\t', '\r', '\n'}
    ensures LineValues(parse, [c] + line) == LineValues(parse, line) == LineValues(parse, line + [c])
  {
    assert IsWhitespace(c);
    assert ([c] + line)[1..] == line;
    TrimDropsTrailing(line, c);
    hide TrimEnd, StripData;
  }

  /** A line without the prefix is parsed as it stands, and an empty one is skipped. */
  lemma BareLine(parse: Parser, line: string)
    requires Payload(line) && !("data: " <= line)
    ensures LineValues(parse, line) == if parse(line).Some? then [parse(line).value] else []
    ensures LineValues(parse, "") == []
  {
    UntrimmedLine(line);
    assert Trim("") == "";
    hide Trim, IsWhitespace;
  }

  lemma DataLine(parse: Parser, payload: string)
    requires Payload(payload)
    ensures LineValues(parse, "data: " + payload) ==
            if parse(payload).Some? then [parse(payload).value] else []
  {
    var line := "data: " + payload;
    assert line[0] == 'd' && line[|line| - 1] == payload[|payload| - 1];
    assert !IsWhitespace('d');
    UntrimmedLine(line);
    assert "data: " <= line && line[6..] == payload;
    hide Trim, IsWhitespace;
  }

  lemma OneLine(parse: Parser, line: string)
    requires line != "" && forall i :: 0 <= i < |line| ==> line[i] != '\n'
    ensures Values(parse, line) == LineValues(parse, line)
  {
    SingleLine(line);
    hide Lines, LineValues;
    FirstLineValues(parse, line, []);
  }

  lemma OneEvent(parse: Parser, text: string, payload: string)
    requires Payload(payload) && (text == "" || text[|text| - 1] == '\n')
    ensures var event := "data: " + payload + "\n\n";
            Values(parse, text + event) ==
            Values(parse, text) + if parse(payload).Some? then [parse(payload).value] else []
  {
    var line := "data: " + payload;
    var event := line + "\n\n";
    DataLine(parse, payload);
    OneLine(parse, line);
    assert event == (line + "\n") + "\n";
    hide Values, LineValues, Payload;
    ValuesTerminated(parse, line);
    ValuesTerminated(parse, line + "\n");
    ValuesCut(parse, text, event);
  }

  lemma {:induction false} FramedValues(parse: Parser, payloads: seq<string>)
    requires forall i :: 0 <= i < |payloads| ==> Payload(payloads[i])
    ensures Values(parse, FramedEvents(payloads)) == Parsed(parse, payloads)
    ensures FramedEvents(payloads) == "" || FramedEvents(payloads)[|FramedEvents(payloads)| - 1] == '\n'
    decreases |payloads|
  {
    hide Values, Payload;
    if payloads == [] {
      NoValues(parse);
    } else {
      var n := |payloads| - 1;
      FramedValues(parse, payloads[..n]);
      OneEvent(parse, FramedEvents(payloads[..n]), payloads[n]);
    }
  }

  lemma NoValues(parse: Parser)
    ensures Values(parse, "") == []
  {
  }

  /** What a whole stream denotes is what its payloads parse to, and nothing for the end marker. */
  lemma FramingReadsBack(parse: Parser, payloads: seq<string>)
    requires parse("[DONE]") == None
    requires forall i :: 0 <= i < |payloads| ==> Payload(payloads[i])
    ensures Values(parse, Framed(payloads)) == Parsed(parse, payloads)
  {
    FramedValues(parse, payloads);
    EndMarker();
    hide Values, Payload, FramedEvents, Parsed;
    OneEvent(parse, FramedEvents(payloads), "[DONE]");
    assert Parsed(parse, payloads) + [] == Parsed(parse, payloads);
  }

  lemma EndMarker()
    ensures Payload("[DONE]") && "data: " + "[DONE]" + "\n\n" == "data: [DONE]\n\n"
  {
    var done := "[DONE]";
    assert done[0] == '[' && done[|done| - 1] == ']';
  }

  function StreamFragments(chunks: seq<Form>): seq<Op> {
    if chunks == [] then [] else StreamFragments(chunks[..|chunks| - 1]) + ChunkFragments(chunks[|chunks| - 1])
  }

  lemma {:induction false} StreamReads(parse: Parser, payloads: seq<string>, chunks: seq<Form>)
    requires |payloads| == |chunks|
    requires forall i :: 0 <= i < |chunks| ==> parse(payloads[i]) == Some(ChunkValue(chunks[i]))
    ensures DecodeAll(Parsed(parse, payloads)) == StreamFragments(chunks)
    decreases |chunks|
  {
    hide Decode, ChunkValue, ChunkFragments;
    if chunks != [] {
      var n := |chunks| - 1;
      StreamReads(parse, payloads[..n], chunks[..n]);
      ChunkReadsBack(chunks[n]);
      DecodeAllConcat(Parsed(parse, payloads[..n]), [ChunkValue(chunks[n])]);
      DecodeOne([ChunkValue(chunks[n])]);
    }
  }

  /**
   * From the wire to the events: the text that frames the payloads of some chunks is converted, however
   * it is cut, into the transcript of what the chunks say.
   */
  lemma FramedStreamReadsBack(parse: Parser, payloads: seq<string>, chunks: seq<Form>, model: string)
    requires parse("[DONE]") == None && |payloads| == |chunks|
    requires forall i :: 0 <= i < |payloads| ==> Payload(payloads[i])
    requires forall i :: 0 <= i < |payloads| ==> parse(payloads[i]) == Some(ChunkValue(chunks[i]))
    ensures Transcript(model, DecodeAll(Values(parse, Framed(payloads)))) == Transcript(model, StreamFragments(chunks))
  {
    hide Payload, ChunkValue, Framed, Values, Transcript, DecodeAll;
    FramingReadsBack(parse, payloads);
    StreamReads(parse, payloads, chunks);
  }
}

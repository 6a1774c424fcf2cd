/**
 * The streaming converter: OpenAI chunks in, Anthropic events out. The pure step function
 * is the specification; `ConvertState` is the mutable machine that implements it.
 */
module AnthropicStream {
  import opened Wrappers
  import opened Ordered
  import opened BoundedInts
  import opened Json
  import opened SseFraming

  // ---- Events and what one upstream value asks for ----

  datatype BlockKind = TextKind | ToolKind(name: string)

  datatype ReplyUsage = ReplyUsage(
    inputTokens: u64, outputTokens: u64, cacheRead: Option<u64>, cacheCreation: Option<u64>)

  /** One server-sent event; generated message and tool ids are erased. */
  datatype Event =
    | MessageStart(model: string, inputTokens: u64)
    | BlockStart(index: nat, kind: BlockKind)
    | TextDelta(index: nat, text: string)
    | JsonDelta(index: nat, partial: string)
    | BlockStop(index: nat)
    | MessageDelta(stopReason: string, usage: ReplyUsage)
    | MessageStop

  datatype Usage = Usage(prompt: u64, completion: u64, cached: u64, cacheWrite: u64)

  /** The four things a chunk can carry, in the order in which they are handled. */
  datatype Op =
    | UsageReport(u: Usage)
    | TextFragment(text: string)
    | ToolFragment(tool: u64, name: string, args: string)
    | FinishReason(reason: string)

  // ---- Reading one chunk ----

  function ReadUsage(u: Value): Usage {
    var details := u.Get("prompt_tokens_details");
    Usage(
      CountOr(FieldOrElse(Some(u), "prompt_tokens", "input_tokens"), 0),
      CountOr(FieldOrElse(Some(u), "completion_tokens", "output_tokens"), 0),
      CountOr(Field(details, "cached_tokens"), 0),
      CountOr(Field(details, "cache_write_tokens"), 0))
  }

  function FirstChoice(val: Value): Option<Value> {
    Head(val.Get("choices"))
  }

  function NonEmpty(v: Option<Value>): Option<string> {
    var text := TextOr(v, "");
    if text != "" then Some(text) else None
  }

  function ContentOf(val: Value): Option<string> {
    NonEmpty(Field(Field(FirstChoice(val), "delta"), "content"))
  }

  function ToolCallsOf(val: Value): seq<Value> {
    var calls := Field(Field(FirstChoice(val), "delta"), "tool_calls");
    if calls.Some? then calls.value.AsArray().GetOr([]) else []
  }

  function FinishOf(val: Value): Option<string> {
    NonEmpty(Field(FirstChoice(val), "finish_reason"))
  }

  function ToolIndex(call: Value): Option<u64> {
    var index := call.Get("index");
    if index.Some? then index.value.AsU64() else None
  }

  function ToolName(call: Value): string {
    TextOr(Field(call.Get("function"), "name"), "")
  }

  function ToolArgs(call: Value): string {
    TextOr(Field(call.Get("function"), "arguments"), "")
  }

  /** A tool-call entry without a numeric index is skipped. */
  function ToolOp(call: Value): seq<Op> {
    match ToolIndex(call)
    case Some(oi) => [ToolFragment(oi, ToolName(call), ToolArgs(call))]
    case None => []
  }

  function ToolOps(calls: seq<Value>): seq<Op> {
    if calls == [] then [] else ToolOps(calls[..|calls| - 1]) + ToolOp(calls[|calls| - 1])
  }

  function UsageOps(val: Value): seq<Op> {
    var usage := val.Get("usage");
    if usage.Some? then [UsageReport(ReadUsage(usage.value))] else []
  }

  function TextOps(val: Value): seq<Op> {
    var content := ContentOf(val);
    if content.Some? then [TextFragment(content.value)] else []
  }

  function FinishOps(val: Value): seq<Op> {
    var finish := FinishOf(val);
    if finish.Some? then [FinishReason(finish.value)] else []
  }

  function Decode(val: Value): seq<Op> {
    UsageOps(val) + TextOps(val) + ToolOps(ToolCallsOf(val)) + FinishOps(val)
  }

  function DecodeAll(vals: seq<Value>): seq<Op> {
    if vals == [] then [] else DecodeAll(vals[..|vals| - 1]) + Decode(vals[|vals| - 1])
  }

  // ---- The step function ----

  datatype Phase = Start | InText | InTool | Done

  datatype Tool = Tool(index: nat, name: string)

  datatype State = State(
    model: string,
    started: bool,
    phase: Phase,
    textBlock: Option<nat>,
    usage: Usage,
    finishReason: Option<string>,
    tools: map<u64, Tool>,
    blockSeq: nat,
    sent: seq<Event>)
  {
    function Send(e: Event): State {
      this.(sent := sent + [e])
    }

    function EnsureStarted(): State {
      if started then this else this.(started := true).Send(MessageStart(model, usage.prompt))
    }

    function CloseText(): State {
      if textBlock.Some? then this.(textBlock := None).Send(BlockStop(textBlock.value)) else this
    }

    function OpenText(): State {
      this.(blockSeq := blockSeq + 1, textBlock := Some(blockSeq)).Send(BlockStart(blockSeq, TextKind))
    }

    function OpenTool(oi: u64, name: string): State {
      var s := EnsureStarted().CloseText();
      s.(blockSeq := s.blockSeq + 1, tools := s.tools[oi := Tool(s.blockSeq, name)], phase := InTool)
        .Send(BlockStart(s.blockSeq, ToolKind(name)))
    }
  }

  /** `usage.prompt` holds the reported prompt tokens less the cached ones. */
  function Account(acc: Usage, u: Usage): Usage {
    Usage(
      if u.prompt > 0 then SaturatingSub(u.prompt, u.cached) else acc.prompt,
      if u.completion > 0 then u.completion else acc.completion,
      if u.cached > 0 then u.cached else acc.cached,
      if u.cacheWrite > 0 then u.cacheWrite else acc.cacheWrite)
  }

  function Step(s: State, op: Op): State {
    if s.phase.Done? then s
    else
      match op
      case UsageReport(u) => s.(usage := Account(s.usage, u))
      case TextFragment(text) =>
        var ready :=
          if s.phase.Start? then s.EnsureStarted().OpenText().(phase := InText)
          else if s.phase.InTool? then s.OpenText()
          else s;
        if ready.textBlock.Some? then ready.Send(TextDelta(ready.textBlock.value, text)) else ready
      case ToolFragment(oi, name, args) =>
        var ready := if oi in s.tools then s else s.OpenTool(oi, name);
        if args == "" then ready else ready.Send(JsonDelta(ready.tools[oi].index, args))
      case FinishReason(reason) => s.(finishReason := Some(reason))
  }

  function RunFrom(s: State, ops: seq<Op>): State {
    if ops == [] then s else Step(RunFrom(s, ops[..|ops| - 1]), ops[|ops| - 1])
  }

  function Fresh(model: string): State {
    State(model, false, Start, None, Usage(0, 0, 0, 0), None, map[], 0, [])
  }

  function Run(model: string, ops: seq<Op>): State {
    RunFrom(Fresh(model), ops)
  }

  // ---- Closing ----

  lemma MinExists(s: set<nat>, m: nat)
    requires m in s
    ensures exists least: nat :: least in s && forall x: nat :: x in s ==> least <= x
  {
    if x: nat :| x in s && x < m {
      MinExists(s, x);
    }
  }

  function Min(s: set<nat>): (m: nat)
    requires s != {}
    ensures m in s && forall x: nat :: x in s ==> m <= x
  {
    assert exists least: nat :: least in s && forall x: nat :: x in s ==> least <= x by {
      var x: nat :| x in s;
      MinExists(s, x);
    }
    var m: nat :| m in s && forall x: nat :: x in s ==> m <= x;
    m
  }

  /** The elements of a set in increasing order. */
  function Ascending(s: set<nat>): seq<nat>
    decreases |s|
  {
    if s == {} then [] else
      var m := Min(s);
      var rest := s - {m};
      assert |rest| < |s|;
      [m] + Ascending(rest)
  }

  lemma PrependSmaller(m: nat, rest: seq<nat>)
    requires StrictlyIncreasing(rest) && forall x: nat :: x in rest ==> m < x
    ensures StrictlyIncreasing([m] + rest)
  {
    forall i, j | 0 <= i < j < |[m] + rest| ensures ([m] + rest)[i] < ([m] + rest)[j] {
      assert ([m] + rest)[j] == rest[j - 1] && rest[j - 1] in rest;
    }
  }

  lemma {:induction false} AscendingEnumerates(s: set<nat>)
    ensures |Ascending(s)| == |s|
    ensures forall x: nat :: x in Ascending(s) <==> x in s
    ensures StrictlyIncreasing(Ascending(s))
    decreases |s|
  {
    if s != {} {
      var m := Min(s);
      var rest := s - {m};
      AscendingEnumerates(rest);
      assert Ascending(s) == [m] + Ascending(rest);
      hide Ascending, StrictlyIncreasing, Min;
      var tail := Ascending(rest);
      assert forall x: nat :: x in [m] + tail <==> x == m || x in tail;
      assert |rest| == |s| - 1;
      PrependSmaller(m, tail);
    }
  }

  function StopAll(s: State, indices: seq<nat>): State {
    if indices == [] then s
    else StopAll(s, indices[..|indices| - 1]).Send(BlockStop(indices[|indices| - 1]))
  }

  function ToolBlocks(s: State): set<nat> {
    set oi | oi in s.tools :: s.tools[oi].index
  }

  function StopReason(finish: Option<string>): string {
    match finish
    case None => "end_turn"
    case Some(reason) =>
      if reason == "stop" then "end_turn"
      else if reason == "length" then "max_tokens"
      else if reason == "tool_calls" then "tool_use"
      else reason
  }

  function Positive(n: u64): Option<u64> {
    if n > 0 then Some(n) else None
  }

  function FinalUsage(u: Usage): ReplyUsage {
    ReplyUsage(u.prompt, u.completion, Positive(u.cached), Positive(u.cacheWrite))
  }

  function Close(s: State): State {
    if s.phase.Done? then s
    else
      var closed := s.EnsureStarted().(phase := Done).CloseText();
      StopAll(closed, Ascending(ToolBlocks(s)))
        .Send(MessageDelta(StopReason(s.finishReason), FinalUsage(s.usage)))
        .Send(MessageStop)
  }

  /** Everything a client receives for a stream that carries `ops`. */
  function Transcript(model: string, ops: seq<Op>): seq<Event> {
    Close(Run(model, ops)).sent
  }

  lemma {:induction false} RunFromConcat(s: State, xs: seq<Op>, ys: seq<Op>)
    ensures RunFrom(s, xs + ys) == RunFrom(RunFrom(s, xs), ys)
    decreases |ys|
  {
    if ys == [] {
      assert xs + ys == xs;
    } else {
      assert (xs + ys)[..|xs + ys| - 1] == xs + ys[..|ys| - 1];
      RunFromConcat(s, xs, ys[..|ys| - 1]);
    }
  }

  lemma {:induction false} RunFromOne(s: State, op: Op)
    ensures RunFrom(s, [op]) == Step(s, op)
  {
    assert [op][..0] == [];
  }

  lemma RunFromNothing(s: State)
    ensures RunFrom(s, []) == s
  {
  }

  lemma RunFromAtMostOne(s: State, ops: seq<Op>)
    requires |ops| <= 1
    ensures RunFrom(s, ops) == if ops == [] then s else Step(s, ops[0])
  {
    if ops != [] {
      assert ops == [ops[0]];
      RunFromOne(s, ops[0]);
    }
  }

  lemma {:induction false} DecodeAllConcat(xs: seq<Value>, ys: seq<Value>)
    ensures DecodeAll(xs + ys) == DecodeAll(xs) + DecodeAll(ys)
    decreases |ys|
  {
    hide Decode;
    if ys == [] {
      assert xs + ys == xs;
    } else {
      assert (xs + ys)[..|xs + ys| - 1] == xs + ys[..|ys| - 1];
      DecodeAllConcat(xs, ys[..|ys| - 1]);
    }
  }

  lemma {:induction false} RunFromDone(s: State, ops: seq<Op>)
    requires s.phase.Done?
    ensures RunFrom(s, ops) == s
    decreases |ops|
  {
    if ops != [] {
      RunFromDone(s, ops[..|ops| - 1]);
    }
  }

  // ---- The mutable machine ----

  class ConvertState {
    const model: string
    var started: bool
    var phase: Phase
    var textBlockIndex: Option<nat>
    var inputTokens: u64
    var outputTokens: u64
    var cacheReadTokens: u64
    var cacheCreationTokens: u64
    var finishReason: Option<string>
    var tools: map<u64, Tool>
    var blockSeq: nat
    /** What has gone through the outgoing channel. */
    var sent: seq<Event>

    ghost function View(): State
      reads this
    {
      State(model, started, phase, textBlockIndex,
            Usage(inputTokens, outputTokens, cacheReadTokens, cacheCreationTokens),
            finishReason, tools, blockSeq, sent)
    }

    constructor (model: string)
      ensures View() == Fresh(model)
    {
      this.model := model;
      started := false;
      phase := Start;
      textBlockIndex := None;
      inputTokens, outputTokens, cacheReadTokens, cacheCreationTokens := 0, 0, 0, 0;
      finishReason := None;
      tools := map[];
      blockSeq := 0;
      sent := [];
    }

    method EnsureStarted()
      modifies this
      ensures View() == old(View()).EnsureStarted()
    {
      if started {
        return;
      }
      started := true;
      sent := sent + [MessageStart(model, inputTokens)];
    }

    method CloseTextBlock()
      modifies this
      ensures View() == old(View()).CloseText()
    {
      if textBlockIndex.Some? {
        var index := textBlockIndex.value;
        textBlockIndex := None;
        sent := sent + [BlockStop(index)];
      }
    }

    method IngestText(text: string)
      requires !phase.Done?
      modifies this
      ensures View() == Step(old(View()), TextFragment(text))
      ensures !phase.Done?
    {
      if phase.Start? {
        EnsureStarted();
        var index := blockSeq;
        blockSeq := blockSeq + 1;
        sent := sent + [BlockStart(index, TextKind)];
        textBlockIndex := Some(index);
        phase := InText;
      } else if phase.InTool? {
        var index := blockSeq;
        blockSeq := blockSeq + 1;
        sent := sent + [BlockStart(index, TextKind)];
        textBlockIndex := Some(index);
      }
      if textBlockIndex.Some? {
        sent := sent + [TextDelta(textBlockIndex.value, text)];
      }
    }

    method IngestToolCall(oi: u64, name: string, args: string)
      requires !phase.Done?
      modifies this
      ensures View() == Step(old(View()), ToolFragment(oi, name, args))
      ensures !phase.Done?
    {
      if oi !in tools {
        EnsureStarted();
        CloseTextBlock();
        var index := blockSeq;
        blockSeq := blockSeq + 1;
        sent := sent + [BlockStart(index, ToolKind(name))];
        tools := tools[oi := Tool(index, name)];
        phase := InTool;
      }
      if args != "" {
        sent := sent + [JsonDelta(tools[oi].index, args)];
      }
    }

    method IngestUsage(u: Usage)
      requires !phase.Done?
      modifies this
      ensures View() == Step(old(View()), UsageReport(u))
      ensures !phase.Done?
    {
      if u.prompt > 0 {
        inputTokens := SaturatingSub(u.prompt, u.cached);
      }
      if u.cached > 0 {
        cacheReadTokens := u.cached;
      }
      if u.cacheWrite > 0 {
        cacheCreationTokens := u.cacheWrite;
      }
      if u.completion > 0 {
        outputTokens := u.completion;
      }
    }

    method IngestFinish(reason: string)
      requires !phase.Done?
      modifies this
      ensures View() == Step(old(View()), FinishReason(reason))
      ensures !phase.Done?
    {
      finishReason := Some(reason);
    }

    method IngestToolCalls(calls: seq<Value>)
      requires !phase.Done?
      modifies this
      ensures View() == RunFrom(old(View()), ToolOps(calls))
      ensures !phase.Done?
    {
      hide Step, RunFrom, View, ToolIndex, ToolName, ToolArgs;
      ghost var s := View();
      RunFromNothing(s);
      for i := 0 to |calls|
        invariant View() == RunFrom(s, ToolOps(calls[..i]))
        invariant !phase.Done?
      {
        ghost var before := View();
        assert calls[..i + 1][..i] == calls[..i];
        RunFromConcat(s, ToolOps(calls[..i]), ToolOp(calls[i]));
        var index := ToolIndex(calls[i]);
        if index.None? {
          RunFromNothing(before);
          continue;
        }
        IngestToolCall(index.value, ToolName(calls[i]), ToolArgs(calls[i]));
        RunFromOne(before, ToolFragment(index.value, ToolName(calls[i]), ToolArgs(calls[i])));
      }
      assert calls[..|calls|] == calls;
    }

    /** One upstream value: usage, then text, then tool calls, then the finish reason. */
    method Ingest(val: Value)
      modifies this
      ensures View() == RunFrom(old(View()), Decode(val))
    {
      hide Step, RunFrom, ReadUsage, ContentOf, FinishOf, ToolCallsOf, ToolOps;
      ghost var s0 := View();
      if phase.Done? {
        RunFromDone(s0, Decode(val));
        return;
      }
      var usage := val.Get("usage");
      if usage.Some? {
        IngestUsage(ReadUsage(usage.value));
      }
      RunFromAtMostOne(s0, UsageOps(val));
      ghost var s1 := View();
      var content := ContentOf(val);
      if content.Some? {
        IngestText(content.value);
      }
      RunFromAtMostOne(s1, TextOps(val));
      IngestToolCalls(ToolCallsOf(val));
      ghost var s3 := View();
      var finish := FinishOf(val);
      if finish.Some? {
        IngestFinish(finish.value);
      }
      RunFromAtMostOne(s3, FinishOps(val));
      RunFromConcat(s0, UsageOps(val), TextOps(val));
      RunFromConcat(s0, UsageOps(val) + TextOps(val), ToolOps(ToolCallsOf(val)));
      RunFromConcat(s0, UsageOps(val) + TextOps(val) + ToolOps(ToolCallsOf(val)), FinishOps(val));
    }

    method StopBlocks(indices: seq<nat>)
      modifies this
      ensures View() == StopAll(old(View()), indices)
    {
      for i := 0 to |indices|
        invariant View() == StopAll(old(View()), indices[..i])
      {
        assert indices[..i + 1][..i] == indices[..i];
        sent := sent + [BlockStop(indices[i])];
      }
      assert indices[..|indices|] == indices;
    }

    /** Close what is open, then the terminal pair of events. */
    method Finish()
      modifies this
      ensures View() == Close(old(View()))
    {
      hide Ascending, StopAll;
      if phase.Done? {
        return;
      }
      if !started {
        EnsureStarted();
      }
      phase := Done;
      CloseTextBlock();
      ghost var closed := View();
      var toolBlocks := Ascending(set oi | oi in tools :: tools[oi].index);
      assert toolBlocks == Ascending(ToolBlocks(closed));
      assert ToolBlocks(closed) == ToolBlocks(old(View()));
      StopBlocks(toolBlocks);
      StopAllFrame(closed, Ascending(ToolBlocks(closed)));
      var usage := ReplyUsage(inputTokens, outputTokens, Positive(cacheReadTokens), Positive(cacheCreationTokens));
      sent := sent + [MessageDelta(StopReason(finishReason), usage)];
      sent := sent + [MessageStop];
    }
  }

  lemma {:induction false} StopAllFrame(s: State, indices: seq<nat>)
    ensures StopAll(s, indices) == s.(sent := StopAll(s, indices).sent)
    decreases |indices|
  {
    if indices != [] {
      StopAllFrame(s, indices[..|indices| - 1]);
    }
  }

  // ---- The wrapper loop ----

  /** Feeding more text after some text is feeding both. */
  lemma Extend(parse: Parser, model: string, a: string, b: string)
    requires a == "" || a[|a| - 1] == '\n'
    ensures Run(model, DecodeAll(Values(parse, a + b)))
         == RunFrom(Run(model, DecodeAll(Values(parse, a))), DecodeAll(Values(parse, b)))
  {
    hide Step, Decode, Values, RunFrom;
    ValuesCut(parse, a, b);
    DecodeAllConcat(Values(parse, a), Values(parse, b));
    RunFromConcat(Fresh(model), DecodeAll(Values(parse, a)), DecodeAll(Values(parse, b)));
  }

  lemma ExtendToBoundary(parse: Parser, model: string, done: string, buf: string, pos: nat)
    requires done == "" || done[|done| - 1] == '\n'
    requires pos + 1 < |buf| && buf[pos] == buf[pos + 1] == '\n'
    ensures var piece := done + buf[..pos + 2];
            && piece[|piece| - 1] == '\n'
            && piece + buf[pos + 2..] == done + buf
            && Run(model, DecodeAll(Values(parse, piece)))
            == RunFrom(Run(model, DecodeAll(Values(parse, done))), DecodeAll(Values(parse, buf[..pos])))
  {
    hide Step, Decode, Values, RunFrom, DecodeAll;
    var raw := buf[..pos];
    assert buf[..pos + 2] == raw + "\n" + "\n";
    Extend(parse, model, done, buf[..pos + 2]);
    ValuesTerminated(parse, raw);
    ValuesTerminated(parse, raw + "\n");
  }

  lemma ExtendLines(parse: Parser, s: State, lines: seq<string>, i: nat)
    requires i < |lines|
    ensures RunFrom(s, DecodeAll(LinesValues(parse, lines[..i + 1])))
         == RunFrom(RunFrom(s, DecodeAll(LinesValues(parse, lines[..i]))), DecodeAll(LineValues(parse, lines[i])))
  {
    hide Step, Decode, LineValues;
    assert lines[..i + 1][..i] == lines[..i];
    DecodeAllConcat(LinesValues(parse, lines[..i]), LineValues(parse, lines[i]));
    RunFromConcat(s, DecodeAll(LinesValues(parse, lines[..i])), DecodeAll(LineValues(parse, lines[i])));
  }

  lemma DecodeOne(vals: seq<Value>)
    requires |vals| <= 1
    ensures DecodeAll(vals) == if vals == [] then [] else Decode(vals[0])
  {
    hide Decode;
    if vals != [] {
      assert vals[..0] == [];
    }
  }

  /** Feeds the lines of one piece of text to the machine. */
  method IngestLines(parse: Parser, raw: string, skipDone: bool, state: ConvertState)
    requires parse("[DONE]") == None
    modifies state
    ensures state.View() == RunFrom(old(state.View()), DecodeAll(Values(parse, raw)))
  {
    hide Step, RunFrom, Decode, DecodeAll, state.View, Trim, Lines;
    ghost var s0 := state.View();
    var lines := Lines(raw);
    RunFromNothing(s0);
    DecodeOne([]);
    for i := 0 to |lines|
      invariant state.View() == RunFrom(s0, DecodeAll(LinesValues(parse, lines[..i])))
    {
      ExtendLines(parse, s0, lines, i);
      RunFromNothing(state.View());
      DecodeOne(LineValues(parse, lines[i]));
      var line := Trim(lines[i]);
      if line == "" || (skipDone && line == DONE_LINE) {
        assert StripData(DONE_LINE) == "[DONE]";
        continue;
      }
      match parse(StripData(line)) {
        case Some(val) => state.Ingest(val);
        case None =>
      }
    }
    assert lines[..|lines|] == lines;
  }

  /**
   * The stream wrapper. However the text is cut into chunks, the events are those of the
   * values of the whole text.
   */
  method WrapOpenAiSse(parse: Parser, chunks: seq<string>, model: string) returns (sent: seq<Event>)
    requires parse("[DONE]") == None
    ensures sent == Transcript(model, DecodeAll(Values(parse, Concat(chunks))))
  {
    hide Step, RunFrom, Decode, DecodeAll, Values, Close, FindBoundary, Concat;
    ConcatNothing();
    var buf := "";
    var state := new ConvertState(model);
    ghost var consumed := "";
    NothingRead(parse, model);
    for i := 0 to |chunks|
      invariant consumed + buf == Concat(chunks[..i])
      invariant consumed == "" || consumed[|consumed| - 1] == '\n'
      invariant state.View() == Run(model, DecodeAll(Values(parse, consumed)))
      invariant fresh(state)
    {
      ConcatOneMore(chunks, i);
      assert consumed + (buf + chunks[i]) == consumed + buf + chunks[i];
      buf := buf + chunks[i];
      var pos := FindBoundary(buf);
      while pos.Some?
        invariant consumed + buf == Concat(chunks[..i + 1])
        invariant consumed == "" || consumed[|consumed| - 1] == '\n'
        invariant state.View() == Run(model, DecodeAll(Values(parse, consumed)))
        invariant pos == FindBoundary(buf)
        invariant fresh(state)
        decreases |buf|
      {
        IngestLines(parse, buf[..pos.value], true, state);
        ExtendToBoundary(parse, model, consumed, buf, pos.value);
        consumed := consumed + buf[..pos.value + 2];
        buf := buf[pos.value + 2..];
        pos := FindBoundary(buf);
      }
    }
    assert chunks[..|chunks|] == chunks;
    Extend(parse, model, consumed, buf);
    if buf != "" && buf != DONE_LINE {
      IngestLines(parse, buf, false, state);
    } else {
      TailWithoutValues(parse, buf);
      RunFromNothing(state.View());
    }
    state.Finish();
    sent := state.sent;
  }

  lemma ConcatNothing()
    ensures Concat([]) == ""
  {
  }

  lemma ConcatOneMore(chunks: seq<string>, i: nat)
    requires i < |chunks|
    ensures Concat(chunks[..i + 1]) == Concat(chunks[..i]) + chunks[i]
  {
    assert chunks[..i + 1][..i] == chunks[..i];
  }

  lemma NothingRead(parse: Parser, model: string)
    ensures Run(model, DecodeAll(Values(parse, ""))) == Fresh(model)
  {
  }

  lemma TailWithoutValues(parse: Parser, buf: string)
    requires parse("[DONE]") == None
    requires buf == "" || buf == DONE_LINE
    ensures DecodeAll(Values(parse, buf)) == []
  {
    if buf == DONE_LINE {
      DoneLineValues(parse);
      SingleLine(DONE_LINE);
      hide Lines, LineValues, Trim;
      FirstLineValues(parse, DONE_LINE, []);
    }
  }

  lemma SingleLine(line: string)
    requires line != "" && '\n' !in line
    ensures Lines(line) == [line] + []
  {
  }

  lemma DoneLineValues(parse: Parser)
    requires parse("[DONE]") == None
    ensures LineValues(parse, DONE_LINE) == []
  {
    assert DONE_LINE[0] == 'd' && DONE_LINE[|DONE_LINE| - 1] == ']';
    UntrimmedLine(DONE_LINE);
    assert StripData(DONE_LINE) == "[DONE]";
    hide Trim;
  }

  lemma UntrimmedLine(line: string)
    requires line != "" && !IsWhitespace(line[0]) && !IsWhitespace(line[|line| - 1])
    ensures Trim(line) == line
  {
  }
}

/**
 * Streaming against non-streaming conversion: the reply a client reassembles from the events
 * and the reply converted from the OpenAI message that the same chunks add up to.
 */
module StreamAgreement {
  import opened Wrappers
  import opened Ordered
  import opened BoundedInts
  import opened Json
  import opened SseFraming
  import opened AnthropicStream
  import opened UnaryConvert
  import opened StreamProtocol
  import opened LosslessStream

  // ---- The client ----

  datatype Block = TextContent(text: string) | ToolContent(name: string, args: string)

  function Absorb(blocks: seq<Block>, e: Event): seq<Block> {
    match e
    case BlockStart(_, TextKind) => blocks + [TextContent("")]
    case BlockStart(_, ToolKind(name)) => blocks + [ToolContent(name, "")]
    case TextDelta(i, text) =>
      if i < |blocks| && blocks[i].TextContent? then blocks[i := TextContent(blocks[i].text + text)] else blocks
    case JsonDelta(i, partial) =>
      if i < |blocks| && blocks[i].ToolContent?
      then blocks[i := ToolContent(blocks[i].name, blocks[i].args + partial)] else blocks
    case _ => blocks
  }

  /** The content blocks a client has after `es`. */
  function Reassemble(es: seq<Event>): seq<Block> {
    if es == [] then [] else Absorb(Reassemble(es[..|es| - 1]), es[|es| - 1])
  }

  function ModelOf(es: seq<Event>): string {
    if es != [] && es[0].MessageStart? then es[0].model else ""
  }

  /** The stop reason and usage of the last `message_delta`. */
  function Terminal(es: seq<Event>): Option<(string, ReplyUsage)> {
    if es == [] then None
    else if es[|es| - 1].MessageDelta? then Some((es[|es| - 1].stopReason, es[|es| - 1].usage))
    else Terminal(es[..|es| - 1])
  }

  function Finalize(parse: Parser, b: Block): ContentBlock {
    match b
    case TextContent(text) => TextBlock(text)
    case ToolContent(name, args) => ToolUseBlock(name, ParseInput(parse, args))
  }

  function StreamedMessage(parse: Parser, es: seq<Event>): Message {
    var blocks := Reassemble(es);
    var terminal := Terminal(es).GetOr(("", ReplyUsage(0, 0, None, None)));
    Message(ModelOf(es), seq(|blocks|, i requires 0 <= i < |blocks| => Finalize(parse, blocks[i])),
            terminal.0, terminal.1)
  }

  // ---- The OpenAI message that the chunks add up to ----

  /** The tool indices in the order in which they first appear. */
  function ToolOrder(ops: seq<Op>): seq<nat> {
    if ops == [] then []
    else
      var order, last := ToolOrder(ops[..|ops| - 1]), ops[|ops| - 1];
      if last.ToolFragment? && last.tool !in order then order + [last.tool] else order
  }

  /** The name in the fragment that introduces a tool. */
  function FirstName(ops: seq<Op>, tool: int): string {
    if ops == [] then ""
    else
      var init, last := ops[..|ops| - 1], ops[|ops| - 1];
      if tool in ToolOrder(init) then FirstName(init, tool)
      else if last.ToolFragment? && last.tool == tool then last.name
      else ""
  }

  /** All name pieces of a tool, in order. */
  function FragmentNames(ops: seq<Op>, tool: int): string {
    if ops == [] then ""
    else
      var last := ops[|ops| - 1];
      FragmentNames(ops[..|ops| - 1], tool) + if last.ToolFragment? && last.tool == tool then last.name else ""
  }

  function LastFinish(ops: seq<Op>): Option<string> {
    if ops == [] then None
    else
      var last := ops[|ops| - 1];
      if last.FinishReason? then Some(last.reason) else LastFinish(ops[..|ops| - 1])
  }

  const NO_USAGE := Usage(0, 0, 0, 0)

  /** The last usage report that counts anything. */
  function ReportedUsage(ops: seq<Op>): Usage {
    if ops == [] then NO_USAGE
    else
      var last := ops[|ops| - 1];
      if last.UsageReport? && last.u != NO_USAGE then last.u else ReportedUsage(ops[..|ops| - 1])
  }

  function CallOf(ops: seq<Op>, tool: int): Value {
    Obj(map["function" := Obj(map["name" := Str(FragmentNames(ops, tool)),
                                  "arguments" := Str(FragmentArgs(ops, tool))])])
  }

  /** Tool calls in index order, as in a complete OpenAI message. */
  function CallsOf(ops: seq<Op>): seq<Value> {
    var tools := Ascending(set tool | tool in ToolOrder(ops));
    seq(|tools|, k requires 0 <= k < |tools| => CallOf(ops, tools[k]))
  }

  function UsageValue(u: Usage): Value {
    Obj(map["prompt_tokens" := Integer(u.prompt), "completion_tokens" := Integer(u.completion),
            "prompt_tokens_details" := Obj(map["cached_tokens" := Integer(u.cached),
                                               "cache_write_tokens" := Integer(u.cacheWrite)])])
  }

  function FinishValue(finish: Option<string>): Value {
    if finish.Some? then Str(finish.value) else Null
  }

  function AssembledResponse(ops: seq<Op>): Value {
    var message := Obj(map["content" := Str(FragmentText(ops)), "tool_calls" := List(CallsOf(ops))]);
    var choice := Obj(map["message" := message, "finish_reason" := FinishValue(LastFinish(ops))]);
    Obj(map["choices" := List([choice]), "usage" := UsageValue(ReportedUsage(ops))])
  }

  // ---- Conditions on a chunk sequence ----

  /** New tool indices come in increasing order. */
  predicate ToolsInOrder(ops: seq<Op>) {
    StrictlyIncreasing(ToolOrder(ops))
  }

  /** Only the fragment that introduces a tool names it. */
  ghost predicate NamesOnce(ops: seq<Op>) {
    forall i, j :: 0 <= i < j < |ops| && ops[i].ToolFragment? && ops[j].ToolFragment? && ops[i].tool == ops[j].tool
      ==> ops[j].name == ""
  }

  /** At most one usage report counts anything. */
  ghost predicate SingleUsage(ops: seq<Op>) {
    forall i, j :: 0 <= i < j < |ops| && ops[i].UsageReport? && ops[j].UsageReport?
      ==> ops[i].u == NO_USAGE || ops[j].u == NO_USAGE
  }

  ghost predicate NonEmptyText(ops: seq<Op>) {
    forall i :: 0 <= i < |ops| && ops[i].TextFragment? ==> ops[i].text != ""
  }

  predicate HasText(ops: seq<Op>) {
    exists i :: 0 <= i < |ops| && ops[i].TextFragment?
  }

  ghost predicate HasContent(ops: seq<Op>) {
    HasText(ops) || AnyTool(ops)
  }

  /** No text follows a tool fragment. */
  ghost predicate TextFirst(ops: seq<Op>) {
    forall i, j :: 0 <= i < j < |ops| && ops[i].ToolFragment? ==> !ops[j].TextFragment?
  }

  /** Both converters map these reasons, and only these, to the same stop reason. */
  predicate KnownFinish(ops: seq<Op>) {
    LastFinish(ops).Some? ==> LastFinish(ops).value in {"stop", "length", "tool_calls", "end_turn"}
  }

  // ---- Facts about one more fragment ----

  lemma ReassembleExtend(es: seq<Event>, e: Event)
    ensures Reassemble(es + [e]) == Absorb(Reassemble(es), e)
  {
    assert (es + [e])[..|es|] == es;
  }

  lemma HasTextPrefix(ops: seq<Op>)
    requires ops != []
    ensures HasText(ops) <==> HasText(ops[..|ops| - 1]) || ops[|ops| - 1].TextFragment?
  {
    var n := |ops| - 1;
    if i :| 0 <= i < |ops| && ops[i].TextFragment? {
      assert i < n ==> ops[..n][i] == ops[i];
    }
    if i :| 0 <= i < n && ops[..n][i].TextFragment? {
      assert ops[i].TextFragment?;
    }
  }

  lemma TextFirstPrefix(ops: seq<Op>)
    requires ops != []
    ensures TextFirst(ops) <==>
            TextFirst(ops[..|ops| - 1]) && !(AnyTool(ops[..|ops| - 1]) && ops[|ops| - 1].TextFragment?)
  {
    var n := |ops| - 1;
    if TextFirst(ops) && AnyTool(ops[..n]) {
      var i :| 0 <= i < n && ops[..n][i].ToolFragment?;
      assert ops[i].ToolFragment?;
    }
    if TextFirst(ops[..n]) && !(AnyTool(ops[..n]) && ops[n].TextFragment?) {
      forall i, j | 0 <= i < j < |ops| && ops[i].ToolFragment?
        ensures !ops[j].TextFragment?
      {
        assert ops[..n][i] == ops[i];
        assert j < n ==> ops[..n][j] == ops[j];
      }
    }
    if TextFirst(ops) {
      forall i, j | 0 <= i < j < n && ops[..n][i].ToolFragment?
        ensures !ops[..n][j].TextFragment?
      {
        assert ops[i].ToolFragment?;
      }
    }
  }

  lemma {:induction false} OrderHasTools(ops: seq<Op>)
    ensures forall oi: u64 :: oi in ToolOrder(ops) <==> HasTool(ops, oi)
    ensures forall x :: x in ToolOrder(ops) ==> x < U64_LIMIT
    ensures forall i, j :: 0 <= i < j < |ToolOrder(ops)| ==> ToolOrder(ops)[i] != ToolOrder(ops)[j]
    decreases |ops|
  {
    if ops != [] {
      OrderHasTools(ops[..|ops| - 1]);
      forall oi: u64 {
        HasToolPrefix(ops, oi);
      }
      hide HasTool;
    }
  }

  lemma {:induction false} UnseenTool(ops: seq<Op>, tool: int)
    requires tool !in ToolOrder(ops)
    ensures FragmentArgs(ops, tool) == "" && FragmentNames(ops, tool) == "" && FirstName(ops, tool) == ""
    decreases |ops|
  {
    if ops != [] {
      UnseenTool(ops[..|ops| - 1], tool);
    }
  }

  // ---- What the client holds after each run ----

  ghost function Offset(ops: seq<Op>): nat {
    if HasText(ops) then 1 else 0
  }

  ghost function Entry(ops: seq<Op>, tool: int): Block {
    ToolContent(FirstName(ops, tool), FragmentArgs(ops, tool))
  }

  /** The blocks are the whole text, if any, and then one entry per tool in order of appearance. */
  ghost predicate Mirrors(blocks: seq<Block>, ops: seq<Op>) {
    var off, order := Offset(ops), ToolOrder(ops);
    && |blocks| == off + |order|
    && (off == 1 ==> blocks[0] == TextContent(FragmentText(ops)))
    && (forall k :: 0 <= k < |order| ==> blocks[off + k] == Entry(ops, order[k]))
  }

  ghost predicate Located(s: State, ops: seq<Op>) {
    var off, order := Offset(ops), ToolOrder(ops);
    && s.blockSeq == off + |order|
    && (forall oi: u64 :: oi in s.tools <==> oi in order)
    && (s.tools == map[] <==> order == [])
    && (forall k :: 0 <= k < |order| ==> order[k] in s.tools && s.tools[order[k]].index == off + k)
    && (s.phase.Start? <==> !HasText(ops) && order == [])
    && (s.phase.InText? ==> s.textBlock == Some(0))
  }

  lemma ReopenBlocks(s: State)
    requires PhaseConsistent(s) && !s.phase.Done?
    ensures Reassemble(Reopen(s).sent) ==
            Reassemble(s.sent) + (if s.phase.InText? then [] else [TextContent("")])
    ensures Reopen(s).textBlock == if s.phase.InText? then s.textBlock else Some(s.blockSeq)
  {
    ReassembleExtend(s.sent, MessageStart(s.model, s.usage.prompt));
    ReassembleExtend(s.EnsureStarted().sent, BlockStart(s.blockSeq, TextKind));
    ReassembleExtend(s.sent, BlockStart(s.blockSeq, TextKind));
    hide Reassemble;
  }

  lemma SendQuiet(es: seq<Event>, e: Event)
    requires !e.BlockStart? && !e.TextDelta? && !e.JsonDelta?
    ensures Reassemble(es + [e]) == Reassemble(es)
  {
    ReassembleExtend(es, e);
  }

  lemma QuietBlocks(s: State)
    ensures Reassemble(s.EnsureStarted().sent) == Reassemble(s.sent)
    ensures Reassemble(s.CloseText().sent) == Reassemble(s.sent)
  {
    hide Reassemble;
    SendQuiet(s.sent, MessageStart(s.model, s.usage.prompt));
    if s.textBlock.Some? {
      SendQuiet(s.sent, BlockStop(s.textBlock.value));
    }
  }

  lemma NewToolBlocks(s: State, oi: u64, name: string)
    ensures Reassemble(s.OpenTool(oi, name).sent) == Reassemble(s.sent) + [ToolContent(name, "")]
    ensures s.OpenTool(oi, name).tools == s.tools[oi := Tool(s.blockSeq, name)]
    ensures s.OpenTool(oi, name).blockSeq == s.blockSeq + 1
    ensures s.OpenTool(oi, name).phase == InTool
  {
    QuietBlocks(s);
    QuietBlocks(s.EnsureStarted());
    ReassembleExtend(s.EnsureStarted().CloseText().sent, BlockStart(s.blockSeq, ToolKind(name)));
    hide Reassemble;
  }

  lemma TextMirrors(s: State, ops: seq<Op>)
    requires ops != [] && ops[|ops| - 1].TextFragment?
    requires PhaseConsistent(s) && !s.phase.Done? && TextFirst(ops)
    requires s.phase.InTool? <==> AnyTool(ops[..|ops| - 1])
    requires var init := ops[..|ops| - 1]; Mirrors(Reassemble(s.sent), init) && Located(s, init)
    ensures var t := Step(s, ops[|ops| - 1]); Mirrors(Reassemble(t.sent), ops) && Located(t, ops)
  {
    var init, text := ops[..|ops| - 1], ops[|ops| - 1].text;
    TextFirstPrefix(ops);
    HasTextPrefix(ops);
    assert !s.phase.InTool?;
    ReopenBlocks(s);
    TextStepIs(s, text);
    var r := Reopen(s);
    ReassembleExtend(r.sent, TextDelta(r.textBlock.value, text));
    assert ToolOrder(ops) == ToolOrder(init);
    assert ToolOrder(init) == [];
    hide Reassemble, HasText, AnyTool, TextFirst;
    assert r.textBlock == Some(0);
    assert !HasText(init) ==> FragmentText(init) == "" by {
      if !HasText(init) {
        NoText(init);
      }
    }
  }

  lemma {:induction false} NoText(ops: seq<Op>)
    requires !HasText(ops)
    ensures FragmentText(ops) == ""
    decreases |ops|
  {
    if ops != [] {
      HasTextPrefix(ops);
      NoText(ops[..|ops| - 1]);
    }
  }

  /** `blocks` before the arguments of the last fragment are appended. */
  ghost predicate MirrorsBut(blocks: seq<Block>, ops: seq<Op>)
    requires ops != []
  {
    var off, order, init := Offset(ops), ToolOrder(ops), ops[..|ops| - 1];
    && |blocks| == off + |order|
    && (off == 1 ==> blocks[0] == TextContent(FragmentText(ops)))
    && (forall k :: 0 <= k < |order| ==>
          blocks[off + k] == ToolContent(FirstName(ops, order[k]), FragmentArgs(init, order[k])))
  }

  lemma KnownToolMirrors(blocks: seq<Block>, ops: seq<Op>)
    requires ops != [] && ops[|ops| - 1].ToolFragment? && ops[|ops| - 1].tool in ToolOrder(ops[..|ops| - 1])
    requires Mirrors(blocks, ops[..|ops| - 1])
    ensures MirrorsBut(blocks, ops)
  {
    HasTextPrefix(ops);
    hide HasText;
  }

  lemma NewToolMirrors(blocks: seq<Block>, ops: seq<Op>)
    requires ops != [] && ops[|ops| - 1].ToolFragment? && ops[|ops| - 1].tool !in ToolOrder(ops[..|ops| - 1])
    requires Mirrors(blocks, ops[..|ops| - 1])
    ensures MirrorsBut(blocks + [ToolContent(ops[|ops| - 1].name, "")], ops)
  {
    var init, last := ops[..|ops| - 1], ops[|ops| - 1];
    HasTextPrefix(ops);
    UnseenTool(init, last.tool);
    hide HasText;
    assert ToolOrder(ops) == ToolOrder(init) + [last.tool];
  }

  lemma KnownToolLocated(s: State, ops: seq<Op>)
    requires ops != [] && ops[|ops| - 1].ToolFragment? && ops[|ops| - 1].tool in ToolOrder(ops[..|ops| - 1])
    requires Located(s, ops[..|ops| - 1])
    ensures Located(s, ops)
  {
    HasTextPrefix(ops);
    assert ToolOrder(ops) == ToolOrder(ops[..|ops| - 1]);
    hide HasText, ToolOrder;
  }

  lemma NewToolLocated(s: State, r: State, ops: seq<Op>)
    requires ops != [] && ops[|ops| - 1].ToolFragment? && ops[|ops| - 1].tool !in ToolOrder(ops[..|ops| - 1])
    requires Located(s, ops[..|ops| - 1])
    requires r.tools == s.tools[ops[|ops| - 1].tool := Tool(s.blockSeq, ops[|ops| - 1].name)]
    requires r.blockSeq == s.blockSeq + 1 && r.phase == InTool
    ensures Located(r, ops)
  {
    HasTextPrefix(ops);
    assert ToolOrder(ops) == ToolOrder(ops[..|ops| - 1]) + [ops[|ops| - 1].tool];
    hide HasText, ToolOrder;
  }

  lemma ToolLocated(s: State, ops: seq<Op>)
    requires ops != [] && ops[|ops| - 1].ToolFragment?
    requires Located(s, ops[..|ops| - 1])
    ensures var last := ops[|ops| - 1]; Located(WithTool(s, last.tool, last.name), ops)
  {
    var last := ops[|ops| - 1];
    NewToolBlocks(s, last.tool, last.name);
    assert last.tool in s.tools <==> last.tool in ToolOrder(ops[..|ops| - 1]);
    hide Located, Reassemble, s.OpenTool, ToolOrder;
    if last.tool in s.tools {
      KnownToolLocated(s, ops);
    } else {
      NewToolLocated(s, s.OpenTool(last.tool, last.name), ops);
    }
  }

  /** Appending the arguments of the last fragment to the entry of its tool. */
  lemma ArgsMirror(blocks: seq<Block>, ops: seq<Op>, k: nat)
    requires ops != [] && ops[|ops| - 1].ToolFragment?
    requires MirrorsBut(blocks, ops)
    requires k < |ToolOrder(ops)| && ToolOrder(ops)[k] == ops[|ops| - 1].tool
    ensures Mirrors(Absorb(blocks, JsonDelta(Offset(ops) + k, ops[|ops| - 1].args)), ops)
    ensures ops[|ops| - 1].args == "" ==> Mirrors(blocks, ops)
  {
    OrderHasTools(ops);
    OneMoreFragment(ops);
    hide HasTool, HasText, ToolOrder, FragmentArgs, FragmentText, FirstName, Offset;
    var order, last, init := ToolOrder(ops), ops[|ops| - 1], ops[..|ops| - 1];
    forall j | 0 <= j < |order| && j != k
      ensures FragmentArgs(ops, order[j]) == FragmentArgs(init, order[j])
    {
      assert j < k ==> order[j] != order[k];
      assert k < j ==> order[k] != order[j];
    }
    assert FragmentArgs(init, last.tool) + "" == FragmentArgs(init, last.tool);
  }

  lemma WithToolMirrors(s: State, ops: seq<Op>)
    requires ops != [] && ops[|ops| - 1].ToolFragment?
    requires var init := ops[..|ops| - 1]; Mirrors(Reassemble(s.sent), init) && Located(s, init)
    ensures var last := ops[|ops| - 1];
            var r := WithTool(s, last.tool, last.name);
            MirrorsBut(Reassemble(r.sent), ops) && Located(r, ops)
  {
    var last := ops[|ops| - 1];
    ToolLocated(s, ops);
    assert last.tool in s.tools <==> last.tool in ToolOrder(ops[..|ops| - 1]);
    NewToolBlocks(s, last.tool, last.name);
    hide Mirrors, MirrorsBut, Located, Reassemble, s.OpenTool, ToolOrder;
    if last.tool in s.tools {
      KnownToolMirrors(Reassemble(s.sent), ops);
    } else {
      NewToolMirrors(Reassemble(s.sent), ops);
    }
  }

  lemma SendKeepsLocation(r: State, ops: seq<Op>, e: Event)
    requires Located(r, ops)
    ensures Located(r.Send(e), ops)
  {
    hide HasText, ToolOrder;
  }

  lemma ToolSlot(r: State, ops: seq<Op>, tool: u64) returns (k: nat)
    requires Located(r, ops) && tool in r.tools
    ensures k < |ToolOrder(ops)| && ToolOrder(ops)[k] == tool
    ensures r.tools[tool].index == Offset(ops) + k
  {
    hide HasText, ToolOrder, Offset;
    k :| 0 <= k < |ToolOrder(ops)| && ToolOrder(ops)[k] == tool;
  }

  /** The arguments of the last fragment, once its tool has a block. */
  lemma ArgsDelivered(r: State, ops: seq<Op>)
    requires ops != [] && ops[|ops| - 1].ToolFragment? && ops[|ops| - 1].tool in r.tools
    requires MirrorsBut(Reassemble(r.sent), ops) && Located(r, ops)
    ensures var last := ops[|ops| - 1];
            var t := r.Send(JsonDelta(r.tools[last.tool].index, last.args));
            && Mirrors(Reassemble(t.sent), ops) && Located(t, ops)
            && (last.args == "" ==> Mirrors(Reassemble(r.sent), ops))
  {
    hide Reassemble, Mirrors, MirrorsBut, Absorb, ToolOrder, Located, Offset;
    var last := ops[|ops| - 1];
    var k := ToolSlot(r, ops, last.tool);
    ArgsMirror(Reassemble(r.sent), ops, k);
    var e := JsonDelta(r.tools[last.tool].index, last.args);
    ReassembleExtend(r.sent, e);
    SendKeepsLocation(r, ops, e);
  }

  lemma ToolMirrors(s: State, ops: seq<Op>)
    requires ops != [] && ops[|ops| - 1].ToolFragment?
    requires !s.phase.Done?
    requires var init := ops[..|ops| - 1]; Mirrors(Reassemble(s.sent), init) && Located(s, init)
    ensures var t := Step(s, ops[|ops| - 1]); Mirrors(Reassemble(t.sent), ops) && Located(t, ops)
  {
    hide WithTool, Step, Reassemble, Mirrors, MirrorsBut, ToolOrder, Located;
    var last := ops[|ops| - 1];
    WithToolMirrors(s, ops);
    ToolStepIs(s, last.tool, last.name, last.args);
    ArgsDelivered(WithTool(s, last.tool, last.name), ops);
  }

  lemma SameFragments(ops: seq<Op>)
    requires ops != [] && (ops[|ops| - 1].UsageReport? || ops[|ops| - 1].FinishReason?)
    ensures var init := ops[..|ops| - 1];
            && HasText(ops) == HasText(init) && ToolOrder(ops) == ToolOrder(init)
            && FragmentText(ops) == FragmentText(init)
            && (forall tool :: tool in ToolOrder(init) ==> Entry(ops, tool) == Entry(init, tool))
  {
    HasTextPrefix(ops);
    hide HasText;
  }

  lemma QuietStepIs(s: State, op: Op)
    requires op.UsageReport? || op.FinishReason?
    ensures var t := Step(s, op);
            && t.sent == s.sent && t.tools == s.tools && t.blockSeq == s.blockSeq
            && t.phase == s.phase && t.textBlock == s.textBlock
  {
  }

  lemma QuietMirrors(s: State, ops: seq<Op>)
    requires ops != [] && (ops[|ops| - 1].UsageReport? || ops[|ops| - 1].FinishReason?)
    requires var init := ops[..|ops| - 1]; Mirrors(Reassemble(s.sent), init) && Located(s, init)
    ensures var t := Step(s, ops[|ops| - 1]); Mirrors(Reassemble(t.sent), ops) && Located(t, ops)
  {
    hide HasText, Reassemble, ToolOrder, Entry, FragmentText, Step;
    SameFragments(ops);
    QuietStepIs(s, ops[|ops| - 1]);
  }

  lemma {:induction false} RunMirrors(model: string, ops: seq<Op>)
    requires TextFirst(ops)
    ensures Mirrors(Reassemble(Run(model, ops).sent), ops) && Located(Run(model, ops), ops)
    decreases |ops|
  {
    if ops != [] {
      var init := ops[..|ops| - 1];
      TextFirstPrefix(ops);
      RunMirrors(model, init);
      RunKeeps(model, init);
      hide Step, Mirrors, Located, PhaseConsistent, BodyInvariant, TextFirst, AnyTool, Reassemble;
      match ops[|ops| - 1] {
        case TextFragment(_) => TextMirrors(Run(model, init), ops);
        case ToolFragment(_, _, _) => ToolMirrors(Run(model, init), ops);
        case _ => QuietMirrors(Run(model, init), ops);
      }
    }
  }

  // ---- The other parts of the reply ----

  lemma StepKeepsModel(s: State, op: Op)
    requires PhaseConsistent(s) && !s.phase.Done?
    requires s.sent != [] ==> ModelOf(s.sent) == s.model && s.sent[0].MessageStart?
    ensures var t := Step(s, op);
            t.model == s.model && (t.sent != [] ==> ModelOf(t.sent) == s.model && t.sent[0].MessageStart?)
  {
    match op {
      case TextFragment(text) =>
        TextStepIs(s, text);
        hide Step;
      case ToolFragment(oi, name, args) =>
        ToolStepIs(s, oi, name, args);
        hide Step;
      case _ =>
    }
  }

  lemma {:induction false} RunKeepsModel(model: string, ops: seq<Op>)
    ensures var s := Run(model, ops);
            s.model == model && (s.sent != [] ==> ModelOf(s.sent) == model && s.sent[0].MessageStart?)
    decreases |ops|
  {
    if ops != [] {
      RunKeepsModel(model, ops[..|ops| - 1]);
      RunKeeps(model, ops[..|ops| - 1]);
      hide Step, PhaseConsistent, BodyInvariant;
      StepKeepsModel(Run(model, ops[..|ops| - 1]), ops[|ops| - 1]);
    }
  }

  lemma {:induction false} RunFinish(model: string, ops: seq<Op>)
    ensures Run(model, ops).finishReason == LastFinish(ops)
    decreases |ops|
  {
    if ops != [] {
      RunFinish(model, ops[..|ops| - 1]);
      RunKeeps(model, ops[..|ops| - 1]);
      hide PhaseConsistent, BodyInvariant, HasTool, AnyTool;
      StepFinish(Run(model, ops[..|ops| - 1]), ops[|ops| - 1]);
    }
  }

  lemma StepFinish(s: State, op: Op)
    requires !s.phase.Done?
    ensures Step(s, op).finishReason == if op.FinishReason? then Some(op.reason) else s.finishReason
    ensures Step(s, op).usage == if op.UsageReport? then Account(s.usage, op.u) else s.usage
  {
  }

  lemma {:induction false} NoReport(ops: seq<Op>)
    requires forall i :: 0 <= i < |ops| && ops[i].UsageReport? ==> ops[i].u == NO_USAGE
    ensures ReportedUsage(ops) == NO_USAGE
    decreases |ops|
  {
    if ops != [] {
      NoReport(ops[..|ops| - 1]);
    }
  }

  lemma {:induction false} RunUsage(model: string, ops: seq<Op>)
    requires SingleUsage(ops)
    ensures Run(model, ops).usage == Account(NO_USAGE, ReportedUsage(ops))
    decreases |ops|
  {
    if ops != [] {
      var init, last := ops[..|ops| - 1], ops[|ops| - 1];
      RunUsage(model, init);
      RunKeeps(model, init);
      hide PhaseConsistent, BodyInvariant, HasTool, AnyTool;
      StepFinish(Run(model, init), last);
      hide Step;
      if last.UsageReport? && last.u != NO_USAGE {
        NoReport(init);
      }
    }
  }

  // ---- Closing, as the client sees it ----

  lemma {:induction false} StopAllBlocks(s: State, indices: seq<nat>)
    ensures Reassemble(StopAll(s, indices).sent) == Reassemble(s.sent)
    decreases |indices|
  {
    if indices != [] {
      var n := |indices| - 1;
      StopAllBlocks(s, indices[..n]);
      SendQuiet(StopAll(s, indices[..n]).sent, BlockStop(indices[n]));
      hide Reassemble;
    }
  }

  lemma TerminalExtend(es: seq<Event>, e: Event)
    ensures Terminal(es + [e]) == if e.MessageDelta? then Some((e.stopReason, e.usage)) else Terminal(es)
  {
    assert (es + [e])[..|es|] == es;
  }

  /** The terminal pair adds no content, and its first event carries the stop reason and usage. */
  lemma TerminalEvents(body: seq<Event>, stopReason: string, usage: ReplyUsage)
    ensures var es := body + [MessageDelta(stopReason, usage)] + [MessageStop];
            Reassemble(es) == Reassemble(body) && Terminal(es) == Some((stopReason, usage))
  {
    hide Reassemble, Terminal;
    var delta := MessageDelta(stopReason, usage);
    SendQuiet(body, delta);
    SendQuiet(body + [delta], MessageStop);
    TerminalExtend(body, delta);
    TerminalExtend(body + [delta], MessageStop);
  }

  /** The events of a closed message before the terminal pair. */
  function ClosedBody(s: State): seq<Event> {
    StopAll(s.EnsureStarted().(phase := Done).CloseText(), Ascending(ToolBlocks(s))).sent
  }

  lemma CloseIs(s: State)
    requires !s.phase.Done?
    ensures Close(s).sent == ClosedBody(s) +
            [MessageDelta(StopReason(s.finishReason), FinalUsage(s.usage))] + [MessageStop]
  {
    hide Ascending, StopAll;
  }

  lemma StartedModel(s: State)
    requires PhaseConsistent(s)
    requires s.sent != [] ==> ModelOf(s.sent) == s.model && s.sent[0].MessageStart?
    ensures var t := s.EnsureStarted().(phase := Done).CloseText();
            t.sent != [] && ModelOf(t.sent) == s.model
  {
  }

  lemma BodyDelivers(s: State)
    requires PhaseConsistent(s)
    requires s.sent != [] ==> ModelOf(s.sent) == s.model && s.sent[0].MessageStart?
    ensures Reassemble(ClosedBody(s)) == Reassemble(s.sent)
    ensures ClosedBody(s) != [] && ModelOf(ClosedBody(s)) == s.model
  {
    hide Ascending, Reassemble, StopAll, PhaseConsistent;
    StartedModel(s);
    QuietBlocks(s);
    QuietBlocks(s.EnsureStarted().(phase := Done));
    var t := s.EnsureStarted().(phase := Done).CloseText();
    StopAllBlocks(t, Ascending(ToolBlocks(s)));
    StopAllGrows(t, Ascending(ToolBlocks(s)));
    assert ClosedBody(s)[0] == t.sent[0];
  }

  lemma CloseDelivers(s: State)
    requires PhaseConsistent(s) && !s.phase.Done?
    requires s.sent != [] ==> ModelOf(s.sent) == s.model && s.sent[0].MessageStart?
    ensures Reassemble(Close(s).sent) == Reassemble(s.sent)
    ensures Terminal(Close(s).sent) == Some((StopReason(s.finishReason), FinalUsage(s.usage)))
    ensures ModelOf(Close(s).sent) == s.model
  {
    hide Reassemble, Terminal, PhaseConsistent, ClosedBody, Close, StopReason, FinalUsage;
    CloseIs(s);
    BodyDelivers(s);
    TerminalEvents(ClosedBody(s), StopReason(s.finishReason), FinalUsage(s.usage));
  }

  lemma StreamedParts(parse: Parser, model: string, ops: seq<Op>)
    ensures var m := StreamedMessage(parse, Transcript(model, ops));
            var blocks := Reassemble(Run(model, ops).sent);
            && m.model == model
            && m.stopReason == StopReason(LastFinish(ops))
            && m.usage == FinalUsage(Run(model, ops).usage)
            && |m.content| == |blocks|
            && forall i :: 0 <= i < |blocks| ==> m.content[i] == Finalize(parse, blocks[i])
  {
    RunKeeps(model, ops);
    RunKeepsModel(model, ops);
    RunFinish(model, ops);
    CloseDelivers(Run(model, ops));
    hide Reassemble, Terminal, ModelOf, Close, RunFrom, PhaseConsistent, BodyInvariant;
  }

  // ---- The assembled message, converted ----

  lemma AssembledFields(ops: seq<Op>)
    ensures var resp := AssembledResponse(ops);
            && ReplyText(resp) == FragmentText(ops)
            && ReplyToolCalls(resp) == CallsOf(ops)
            && Field(FirstChoice(resp), "finish_reason") == Some(FinishValue(LastFinish(ops)))
            && resp.Get("usage") == Some(UsageValue(ReportedUsage(ops)))
  {
    hide FragmentText, CallsOf, LastFinish, ReportedUsage, UsageValue, FinishValue;
    assert "content" != "tool_calls" && "choices" != "usage" && "message" != "finish_reason";
    var message := Obj(map["content" := Str(FragmentText(ops)), "tool_calls" := List(CallsOf(ops))]);
    assert message.Get("content") == Some(Str(FragmentText(ops)));
    assert message.Get("tool_calls") == Some(List(CallsOf(ops)));
    var choice := Obj(map["message" := message, "finish_reason" := FinishValue(LastFinish(ops))]);
    assert choice.Get("message") == Some(message);
  }

  lemma UsageReadBack(u: Usage)
    ensures ReadUsage(UsageValue(u)) == u
  {
    assert "prompt_tokens" != "completion_tokens" && "prompt_tokens" != "prompt_tokens_details";
    assert "completion_tokens" != "prompt_tokens_details" && "cached_tokens" != "cache_write_tokens";
  }

  lemma CallReadBack(ops: seq<Op>, tool: int)
    ensures ToolName(CallOf(ops, tool)) == FragmentNames(ops, tool)
    ensures ToolArgs(CallOf(ops, tool)) == FragmentArgs(ops, tool)
  {
    hide FragmentNames, FragmentArgs;
    assert "name" != "arguments";
  }

  lemma {:induction false} ToolUsesAt(parse: Parser, calls: seq<Value>, k: nat)
    requires k < |calls|
    ensures ToolUses(parse, calls)[k] == ToolUseBlock(ToolName(calls[k]), ParseInput(parse, ToolArgs(calls[k])))
    decreases |calls|
  {
    if k < |calls| - 1 {
      ToolUsesAt(parse, calls[..|calls| - 1], k);
    }
  }

  lemma TailMembers(p: seq<nat>)
    requires p != [] && StrictlyIncreasing(p)
    ensures StrictlyIncreasing(p[1..])
    ensures forall x: nat :: x in p[1..] <==> x in p && x != p[0]
    ensures forall x: nat :: x in p ==> p[0] <= x
  {
    assert p == [p[0]] + p[1..];
    forall x: nat | x in p[1..]
      ensures p[0] < x
    {
      var i :| 0 <= i < |p[1..]| && p[1..][i] == x;
      assert p[i + 1] == x;
    }
  }

  lemma {:induction false} IncreasingUnique(p: seq<nat>, q: seq<nat>)
    requires StrictlyIncreasing(p) && StrictlyIncreasing(q)
    requires forall x: nat :: x in p <==> x in q
    ensures p == q
    decreases |p|
  {
    assert |p| > 0 ==> p[0] in p;
    assert |q| > 0 ==> q[0] in q;
    if p != [] && q != [] {
      TailMembers(p);
      TailMembers(q);
      hide StrictlyIncreasing;
      IncreasingUnique(p[1..], q[1..]);
      assert p == [p[0]] + p[1..] && q == [q[0]] + q[1..];
    }
  }

  lemma AscendingOfIncreasing(q: seq<nat>)
    requires StrictlyIncreasing(q)
    ensures Ascending(set x | x in q) == q
  {
    var s := set x | x in q;
    AscendingEnumerates(s);
    hide Ascending, StrictlyIncreasing;
    IncreasingUnique(Ascending(s), q);
  }

  lemma {:induction false} NamesAreFirst(ops: seq<Op>, tool: u64)
    requires NamesOnce(ops)
    ensures FragmentNames(ops, tool) == FirstName(ops, tool)
    decreases |ops|
  {
    if ops != [] {
      var n := |ops| - 1;
      var init, last := ops[..n], ops[n];
      NamesAreFirst(init, tool);
      OrderHasTools(init);
      if last.ToolFragment? && last.tool == tool {
        if HasTool(init, tool) {
          var i :| 0 <= i < n && init[i].ToolFragment? && init[i].tool == tool;
          assert ops[i].tool == ops[n].tool;
        } else {
          UnseenTool(init, tool);
        }
      }
    }
  }

  lemma AssembledToolUse(parse: Parser, ops: seq<Op>, k: nat)
    requires ToolsInOrder(ops) && NamesOnce(ops)
    requires k < |ToolOrder(ops)|
    ensures |CallsOf(ops)| == |ToolOrder(ops)|
    ensures ToolUses(parse, CallsOf(ops))[k] == Finalize(parse, Entry(ops, ToolOrder(ops)[k]))
  {
    AscendingOfIncreasing(ToolOrder(ops));
    OrderHasTools(ops);
    var tool := ToolOrder(ops)[k];
    assert tool in ToolOrder(ops);
    ToolUsesAt(parse, CallsOf(ops), k);
    CallReadBack(ops, tool);
    NamesAreFirst(ops, tool);
    hide Ascending, ToolOrder, NamesOnce, HasTool;
  }

  // ---- When the two agree ----

  lemma {:induction false} TextNonEmpty(ops: seq<Op>)
    requires NonEmptyText(ops)
    ensures HasText(ops) <==> FragmentText(ops) != ""
    decreases |ops|
  {
    if ops != [] {
      HasTextPrefix(ops);
      TextNonEmpty(ops[..|ops| - 1]);
    }
  }

  /** The chunk sequences that a conforming OpenAI endpoint sends for one reply. */
  ghost predicate Conforming(ops: seq<Op>) {
    ToolsInOrder(ops) && NamesOnce(ops) && SingleUsage(ops) && NonEmptyText(ops)
  }

  ghost predicate Agree(parse: Parser, model: string, ops: seq<Op>) {
    StreamedMessage(parse, Transcript(model, ops)) == UnaryMessage(parse, AssembledResponse(ops), model)
  }

  /** The whole text, if any, and then one tool use per tool in order of appearance. */
  ghost predicate Renders(parse: Parser, content: seq<ContentBlock>, ops: seq<Op>) {
    var off, order := Offset(ops), ToolOrder(ops);
    && |content| == off + |order|
    && (off == 1 ==> content[0] == TextBlock(FragmentText(ops)))
    && (forall k :: 0 <= k < |order| ==> content[off + k] == Finalize(parse, Entry(ops, order[k])))
  }

  lemma RendersUnique(parse: Parser, a: seq<ContentBlock>, b: seq<ContentBlock>, ops: seq<Op>)
    requires Renders(parse, a, ops) && Renders(parse, b, ops)
    ensures a == b
  {
    hide HasText, ToolOrder, FragmentText, Entry, Finalize;
    var off := Offset(ops);
    forall i | off <= i < |a|
      ensures a[i] == b[i]
    {
      assert a[off + (i - off)] == Finalize(parse, Entry(ops, ToolOrder(ops)[i - off]));
    }
  }

  lemma AssembledContentAt(parse: Parser, ops: seq<Op>)
    requires Conforming(ops)
    ensures var content := ReplyContent(parse, AssembledResponse(ops));
            if Offset(ops) + |ToolOrder(ops)| == 0 then content == [TextBlock("")] else Renders(parse, content, ops)
  {
    AssembledFields(ops);
    TextNonEmpty(ops);
    AscendingOfIncreasing(ToolOrder(ops));
    forall k | 0 <= k < |ToolOrder(ops)|
      ensures ToolUses(parse, CallsOf(ops))[k] == Finalize(parse, Entry(ops, ToolOrder(ops)[k]))
    {
      AssembledToolUse(parse, ops, k);
    }
    hide AssembledResponse, ToolOrder, HasText, FragmentText, Ascending, Entry, Finalize, ToolUses,
         ReplyText, ReplyToolCalls;
  }

  lemma MirrorsRender(parse: Parser, blocks: seq<Block>, content: seq<ContentBlock>, ops: seq<Op>)
    requires Mirrors(blocks, ops) && |content| == |blocks|
    requires forall i :: 0 <= i < |blocks| ==> content[i] == Finalize(parse, blocks[i])
    ensures Renders(parse, content, ops)
  {
    hide HasText, ToolOrder, FragmentText, Entry;
  }

  /** With all text first, the reassembled stream is the text and the tools. */
  lemma StreamedContentAt(parse: Parser, model: string, ops: seq<Op>)
    requires TextFirst(ops)
    ensures Renders(parse, StreamedMessage(parse, Transcript(model, ops)).content, ops)
  {
    StreamedParts(parse, model, ops);
    RunMirrors(model, ops);
    hide StreamedMessage, Finalize, Renders, Mirrors, Located, Reassemble, RunFrom, Transcript, TextFirst;
    MirrorsRender(parse, Reassemble(Run(model, ops).sent), StreamedMessage(parse, Transcript(model, ops)).content, ops);
  }

  lemma ContentCounts(ops: seq<Op>)
    ensures HasContent(ops) <==> Offset(ops) + |ToolOrder(ops)| > 0
  {
    OrderHasTools(ops);
    if AnyTool(ops) {
      var i :| 0 <= i < |ops| && ops[i].ToolFragment?;
      assert HasTool(ops, ops[i].tool);
    }
    if ToolOrder(ops) != [] {
      assert ToolOrder(ops)[0] in ToolOrder(ops);
    }
  }

  lemma StopsAgree(ops: seq<Op>)
    ensures StopReason(LastFinish(ops)) == UnaryStop(Some(FinishValue(LastFinish(ops)))) <==> KnownFinish(ops)
  {
  }

  lemma UsagesAgree(model: string, ops: seq<Op>)
    requires SingleUsage(ops)
    ensures FinalUsage(Run(model, ops).usage) == UnaryUsage(AssembledResponse(ops).Get("usage"))
  {
    RunUsage(model, ops);
    AssembledFields(ops);
    UsageReadBack(ReportedUsage(ops));
    hide ReadUsage, UsageValue, ReportedUsage, AssembledResponse;
  }

  lemma TextFirstContent(parse: Parser, model: string, ops: seq<Op>)
    requires Conforming(ops) && TextFirst(ops)
    ensures StreamedMessage(parse, Transcript(model, ops)).content == ReplyContent(parse, AssembledResponse(ops))
       <==> HasContent(ops)
  {
    StreamedContentAt(parse, model, ops);
    AssembledContentAt(parse, ops);
    ContentCounts(ops);
    hide StreamedMessage, ReplyContent, AssembledResponse, ToolOrder, HasText, HasContent, Conforming, Transcript,
         TextFirst,
         Entry, Finalize, FragmentText;
    if HasContent(ops) {
      RendersUnique(parse, StreamedMessage(parse, Transcript(model, ops)).content,
                    ReplyContent(parse, AssembledResponse(ops)), ops);
    }
  }

  // ---- Text after a tool: never the same blocks ----

  ghost predicate LateText(blocks: seq<Block>) {
    exists i :: 1 <= i < |blocks| && blocks[i].TextContent?
  }

  lemma AbsorbKeepsLateText(blocks: seq<Block>, e: Event)
    requires LateText(blocks)
    ensures LateText(Absorb(blocks, e))
  {
    var i :| 1 <= i < |blocks| && blocks[i].TextContent?;
    assert Absorb(blocks, e)[i].TextContent?;
  }

  lemma AbsorbSize(blocks: seq<Block>, e: Event)
    ensures |Absorb(blocks, e)| == |blocks| + if e.BlockStart? then 1 else 0
  {
  }

  lemma {:induction false} ReassembleSize(es: seq<Event>)
    ensures |Reassemble(es)| == StartCount(es)
    decreases |es|
  {
    if es != [] {
      ReassembleSize(es[..|es| - 1]);
      AbsorbSize(Reassemble(es[..|es| - 1]), es[|es| - 1]);
    }
  }

  lemma {:induction false} GrowingKeepsLateText(a: seq<Event>, b: seq<Event>)
    requires a <= b && LateText(Reassemble(a))
    ensures LateText(Reassemble(b))
    decreases |b|
  {
    if a != b {
      var n := |b| - 1;
      assert a <= b[..n];
      GrowingKeepsLateText(a, b[..n]);
      AbsorbKeepsLateText(Reassemble(b[..n]), b[n]);
    }
  }

  lemma StepGrows(s: State, op: Op)
    requires PhaseConsistent(s) && !s.phase.Done?
    ensures s.sent <= Step(s, op).sent
  {
    match op {
      case TextFragment(text) =>
        TextStepIs(s, text);
        hide Step;
      case ToolFragment(oi, name, args) =>
        ToolStepIs(s, oi, name, args);
        hide Step;
      case _ =>
    }
  }

  lemma TextInTool(s: State, text: string)
    requires BodyInvariant(s) && PhaseConsistent(s) && s.phase.InTool?
    ensures LateText(Reassemble(Step(s, TextFragment(text)).sent))
  {
    TextStepIs(s, text);
    ReopenBlocks(s);
    ReassembleSize(s.sent);
    assert s.blockSeq >= 1 by {
      hide LegalBody, StartCount;
      var oi :| oi in s.tools;
      assert s.tools[oi].index < s.blockSeq;
    }
    var blocks := Reassemble(Reopen(s).sent);
    assert blocks[s.blockSeq].TextContent?;
    ReassembleExtend(Reopen(s).sent, TextDelta(s.blockSeq, text));
    hide Reassemble, Step, Reopen, StartCount, LegalBody;
    AbsorbKeepsLateText(blocks, TextDelta(s.blockSeq, text));
  }

  lemma {:induction false} RunLateText(model: string, ops: seq<Op>)
    requires !TextFirst(ops)
    ensures LateText(Reassemble(Run(model, ops).sent))
    decreases |ops|
  {
    if ops != [] {
      var init, last := ops[..|ops| - 1], ops[|ops| - 1];
      var s := Run(model, init);
      TextFirstPrefix(ops);
      RunKeeps(model, init);
      hide TextFirst, AnyTool, Step, BodyInvariant, PhaseConsistent, Reassemble, LateText;
      if TextFirst(init) {
        TextInTool(s, last.text);
      } else {
        RunLateText(model, init);
        StepGrows(s, last);
        GrowingKeepsLateText(s.sent, Step(s, last).sent);
      }
    }
  }

  lemma AssembledTail(parse: Parser, ops: seq<Op>)
    requires Conforming(ops)
    ensures var content := ReplyContent(parse, AssembledResponse(ops));
            forall i :: 1 <= i < |content| ==> content[i].ToolUseBlock?
  {
    AssembledContentAt(parse, ops);
    hide ReplyContent, AssembledResponse, ToolOrder, HasText, Conforming, FirstName, FragmentArgs, FragmentText;
    var content := ReplyContent(parse, AssembledResponse(ops));
    forall i | 1 <= i < |content|
      ensures content[i].ToolUseBlock?
    {
      assert content[Offset(ops) + (i - Offset(ops))] == Finalize(parse, Entry(ops, ToolOrder(ops)[i - Offset(ops)]));
    }
  }

  lemma LateTextContent(parse: Parser, model: string, ops: seq<Op>)
    requires Conforming(ops) && !TextFirst(ops)
    ensures StreamedMessage(parse, Transcript(model, ops)).content != ReplyContent(parse, AssembledResponse(ops))
  {
    StreamedParts(parse, model, ops);
    RunLateText(model, ops);
    AssembledTail(parse, ops);
    hide StreamedMessage, ReplyContent, AssembledResponse, Reassemble, RunFrom, TextFirst, Conforming, Transcript;
    var blocks := Reassemble(Run(model, ops).sent);
    var i :| 1 <= i < |blocks| && blocks[i].TextContent?;
    assert StreamedMessage(parse, Transcript(model, ops)).content[i].TextBlock?;
  }

  /**
   * For every conforming chunk sequence, the reassembled stream and the converted complete
   * message are the same reply if and only if there is some content, no text follows a tool
   * call, and the finish reason is one that both converters map alike.
   */
  lemma StreamingAgreesWithUnaryIff(parse: Parser, model: string, ops: seq<Op>)
    requires Conforming(ops)
    ensures Agree(parse, model, ops) <==> HasContent(ops) && TextFirst(ops) && KnownFinish(ops)
  {
    StreamedParts(parse, model, ops);
    AssembledFields(ops);
    StopsAgree(ops);
    UsagesAgree(model, ops);
    if TextFirst(ops) {
      TextFirstContent(parse, model, ops);
    } else {
      LateTextContent(parse, model, ops);
    }
    hide StreamedMessage, AssembledResponse, ReplyContent, UnaryStop, UnaryUsage, StopReason, LastFinish,
         TextFirst, HasContent, KnownFinish, Conforming, Transcript, RunFrom, FinalUsage, Reassemble;
  }

  lemma OneDecodedNonEmpty(val: Value)
    ensures NonEmptyText(Decode(val))
  {
    ToolOpsAreTools(ToolCallsOf(val));
    hide ToolOps, ToolCallsOf, ReadUsage, FirstChoice, Field;
  }

  lemma {:induction false} DecodedTextNonEmpty(vals: seq<Value>)
    ensures NonEmptyText(DecodeAll(vals))
    decreases |vals|
  {
    if vals != [] {
      DecodedTextNonEmpty(vals[..|vals| - 1]);
      OneDecodedNonEmpty(vals[|vals| - 1]);
      hide Decode;
    }
  }

  lemma {:induction false} ToolOpsAreTools(calls: seq<Value>)
    ensures forall i :: 0 <= i < |ToolOps(calls)| ==> ToolOps(calls)[i].ToolFragment?
    decreases |calls|
  {
    if calls != [] {
      ToolOpsAreTools(calls[..|calls| - 1]);
    }
  }

  /** The same for the values of the upstream text, where text fragments are never empty. */
  lemma StreamingAgreesWithUnary(parse: Parser, model: string, text: string)
    requires var ops := DecodeAll(Values(parse, text)); ToolsInOrder(ops) && NamesOnce(ops) && SingleUsage(ops)
    ensures var ops := DecodeAll(Values(parse, text));
            Agree(parse, model, ops) <==> HasContent(ops) && TextFirst(ops) && KnownFinish(ops)
  {
    DecodedTextNonEmpty(Values(parse, text));
    StreamingAgreesWithUnaryIff(parse, model, DecodeAll(Values(parse, text)));
  }
}

/** Streaming loses nothing: the text and the tool arguments sent are those received. */
module LosslessStream {
  import opened BoundedInts
  import opened AnthropicStream
  import opened StreamProtocol

  // ---- Reading the events ----

  function TextOf(es: seq<Event>): string {
    if es == [] then ""
    else
      var last := es[|es| - 1];
      TextOf(es[..|es| - 1]) + if last.TextDelta? then last.text else ""
  }

  function ArgsOf(es: seq<Event>, index: nat): string {
    if es == [] then ""
    else
      var last := es[|es| - 1];
      ArgsOf(es[..|es| - 1], index) + if last.JsonDelta? && last.index == index then last.partial else ""
  }

  // ---- Reading the upstream fragments ----

  function FragmentText(ops: seq<Op>): string {
    if ops == [] then ""
    else
      var last := ops[|ops| - 1];
      FragmentText(ops[..|ops| - 1]) + if last.TextFragment? then last.text else ""
  }

  function FragmentArgs(ops: seq<Op>, tool: int): string {
    if ops == [] then ""
    else
      var last := ops[|ops| - 1];
      FragmentArgs(ops[..|ops| - 1], tool) + if last.ToolFragment? && last.tool == tool then last.args else ""
  }

  // ---- Lossless streaming ----

  /** The sent events carry exactly the fragments so far. */
  ghost predicate Carries(s: State, ops: seq<Op>) {
    && TextOf(s.sent) == FragmentText(ops)
    && (forall oi: u64 :: oi in s.tools ==> ArgsOf(s.sent, s.tools[oi].index) == FragmentArgs(ops, oi))
    && (forall oi: u64 :: oi !in s.tools ==> FragmentArgs(ops, oi) == "")
    && (forall i: nat :: i >= s.blockSeq ==> ArgsOf(s.sent, i) == "")
  }

  /** Same deltas: what is appended is neither text nor arguments. */
  ghost predicate SameDeltas(a: seq<Event>, b: seq<Event>) {
    && TextOf(a) == TextOf(b)
    && forall i: nat :: ArgsOf(a, i) == ArgsOf(b, i)
  }

  lemma SendDelta(es: seq<Event>, e: Event)
    ensures TextOf(es + [e]) == TextOf(es) + if e.TextDelta? then e.text else ""
    ensures forall i: nat :: ArgsOf(es + [e], i) ==
                             ArgsOf(es, i) + if e.JsonDelta? && e.index == i then e.partial else ""
  {
    assert (es + [e])[..|es|] == es;
  }

  lemma SendOther(es: seq<Event>, e: Event)
    requires !e.TextDelta? && !e.JsonDelta?
    ensures SameDeltas(es + [e], es)
  {
    SendDelta(es, e);
  }

  lemma BookkeepingDeltas(s: State, oi: u64, name: string)
    ensures SameDeltas(s.EnsureStarted().sent, s.sent)
    ensures SameDeltas(s.CloseText().sent, s.sent)
    ensures SameDeltas(s.OpenText().sent, s.sent)
  {
    SendOther(s.sent, MessageStart(s.model, s.usage.prompt));
    SendOther(s.sent, BlockStart(s.blockSeq, TextKind));
    if s.textBlock.Some? {
      SendOther(s.sent, BlockStop(s.textBlock.value));
    }
  }

  lemma OpenToolDeltas(s: State, oi: u64, name: string)
    ensures SameDeltas(s.OpenTool(oi, name).sent, s.sent)
  {
    BookkeepingDeltas(s, oi, name);
    BookkeepingDeltas(s.EnsureStarted(), oi, name);
    var r := s.EnsureStarted().CloseText();
    SendOther(r.sent, BlockStart(r.blockSeq, ToolKind(name)));
    hide TextOf, ArgsOf;
  }

  lemma ReopenDeltas(s: State)
    ensures SameDeltas(Reopen(s).sent, s.sent)
  {
    BookkeepingDeltas(s, 0, "");
    BookkeepingDeltas(s.EnsureStarted(), 0, "");
    hide TextOf, ArgsOf;
  }

  lemma ReopenCarries(s: State, init: seq<Op>)
    requires PhaseConsistent(s) && !s.phase.Done? && Carries(s, init)
    ensures Carries(Reopen(s), init)
  {
    ReopenDeltas(s);
    ReopenShape(s);
    hide Reopen, TextOf, ArgsOf, FragmentArgs, FragmentText;
  }

  lemma ReopenShape(s: State)
    requires PhaseConsistent(s) && !s.phase.Done?
    ensures Reopen(s).tools == s.tools && Reopen(s).blockSeq >= s.blockSeq && Reopen(s).textBlock.Some?
  {
  }

  lemma TextDeltaCarries(r: State, ops: seq<Op>, index: nat)
    requires ops != [] && ops[|ops| - 1].TextFragment?
    requires Carries(r, ops[..|ops| - 1])
    ensures Carries(r.Send(TextDelta(index, ops[|ops| - 1].text)), ops)
  {
    SendDelta(r.sent, TextDelta(index, ops[|ops| - 1].text));
    hide TextOf, ArgsOf;
  }

  lemma TextStepCarries(s: State, ops: seq<Op>)
    requires ops != [] && ops[|ops| - 1].TextFragment?
    requires PhaseConsistent(s) && !s.phase.Done?
    requires Carries(s, ops[..|ops| - 1])
    ensures Carries(Step(s, ops[|ops| - 1]), ops)
  {
    ReopenCarries(s, ops[..|ops| - 1]);
    TextStepIs(s, ops[|ops| - 1].text);
    hide Reopen, Step, Carries;
    TextDeltaCarries(Reopen(s), ops, Reopen(s).textBlock.value);
  }

  lemma OpenToolShape(s: State, oi: u64, name: string)
    ensures var r := s.OpenTool(oi, name);
            r.tools == s.tools[oi := Tool(s.blockSeq, name)] && r.blockSeq == s.blockSeq + 1
  {
  }

  /** A new tool takes the next block, which has no arguments yet. */
  lemma NewToolCarries(s: State, r: State, init: seq<Op>, oi: u64, name: string)
    requires Carries(s, init) && oi !in s.tools && SameDeltas(r.sent, s.sent)
    requires r.tools == s.tools[oi := Tool(s.blockSeq, name)] && r.blockSeq == s.blockSeq + 1
    ensures Carries(r, init)
  {
    hide TextOf, ArgsOf, FragmentArgs, FragmentText;
    assert ArgsOf(s.sent, s.blockSeq) == "";
    forall other: u64 | other in r.tools
      ensures ArgsOf(r.sent, r.tools[other].index) == FragmentArgs(init, other)
    {
      assert other != oi ==> other in s.tools && r.tools[other] == s.tools[other];
    }
  }

  lemma OpenToolCarries(s: State, init: seq<Op>, oi: u64, name: string)
    requires Carries(s, init) && oi !in s.tools
    ensures Carries(s.OpenTool(oi, name), init)
  {
    hide Carries, SameDeltas, s.OpenTool;
    OpenToolDeltas(s, oi, name);
    OpenToolShape(s, oi, name);
    NewToolCarries(s, s.OpenTool(oi, name), init, oi, name);
  }

  lemma JsonDeltaCarries(r: State, ops: seq<Op>)
    requires ops != [] && ops[|ops| - 1].ToolFragment? && ops[|ops| - 1].tool in r.tools
    requires forall a, b :: a in r.tools && b in r.tools && a != b ==> r.tools[a].index != r.tools[b].index
    requires r.tools[ops[|ops| - 1].tool].index < r.blockSeq
    requires Carries(r, ops[..|ops| - 1])
    ensures var last := ops[|ops| - 1];
            Carries(if last.args == "" then r else r.Send(JsonDelta(r.tools[last.tool].index, last.args)), ops)
  {
    var last := ops[|ops| - 1];
    hide Carries;
    if last.args == "" {
      NoArgsCarries(r, ops);
    } else {
      ArgsCarries(r, ops);
    }
  }

  lemma NoArgsCarries(r: State, ops: seq<Op>)
    requires ops != [] && ops[|ops| - 1].ToolFragment? && ops[|ops| - 1].args == ""
    requires Carries(r, ops[..|ops| - 1])
    ensures Carries(r, ops)
  {
    var last, init := ops[|ops| - 1], ops[..|ops| - 1];
    OneMoreFragment(ops);
    hide TextOf, ArgsOf, FragmentArgs, FragmentText;
    assert FragmentArgs(init, last.tool) + "" == FragmentArgs(init, last.tool);
  }

  lemma ArgsCarries(r: State, ops: seq<Op>)
    requires ops != [] && ops[|ops| - 1].ToolFragment? && ops[|ops| - 1].tool in r.tools
    requires forall a, b :: a in r.tools && b in r.tools && a != b ==> r.tools[a].index != r.tools[b].index
    requires r.tools[ops[|ops| - 1].tool].index < r.blockSeq
    requires Carries(r, ops[..|ops| - 1])
    ensures var last := ops[|ops| - 1]; Carries(r.Send(JsonDelta(r.tools[last.tool].index, last.args)), ops)
  {
    var last := ops[|ops| - 1];
    SendArgs(r.sent, r.tools[last.tool].index, last.args);
    OneMoreFragment(ops);
    hide TextOf, ArgsOf, FragmentArgs, FragmentText;
  }

  lemma SendArgs(es: seq<Event>, index: nat, args: string)
    ensures var sent := es + [JsonDelta(index, args)];
            && TextOf(sent) == TextOf(es)
            && ArgsOf(sent, index) == ArgsOf(es, index) + args
            && (forall i: nat :: i != index ==> ArgsOf(sent, i) == ArgsOf(es, i))
  {
    assert (es + [JsonDelta(index, args)])[..|es|] == es;
  }

  /** What the last fragment, of a tool, adds. */
  lemma OneMoreFragment(ops: seq<Op>)
    requires ops != [] && ops[|ops| - 1].ToolFragment?
    ensures var last, init := ops[|ops| - 1], ops[..|ops| - 1];
            && FragmentText(ops) == FragmentText(init)
            && FragmentArgs(ops, last.tool) == FragmentArgs(init, last.tool) + last.args
            && (forall tool: int :: tool != last.tool ==> FragmentArgs(ops, tool) == FragmentArgs(init, tool))
  {
  }

  lemma ToolStepCarries(s: State, ops: seq<Op>)
    requires ops != [] && ops[|ops| - 1].ToolFragment?
    requires BodyInvariant(s) && PhaseConsistent(s) && !s.phase.Done?
    requires Carries(s, ops[..|ops| - 1])
    ensures Carries(Step(s, ops[|ops| - 1]), ops)
  {
    var last := ops[|ops| - 1];
    ToolStepIs(s, last.tool, last.name, last.args);
    if last.tool !in s.tools {
      OpenToolCarries(s, ops[..|ops| - 1], last.tool, last.name);
      OpenToolKeeps(s, last.tool, last.name);
    }
    ToolsAreOpen(WithTool(s, last.tool, last.name));
    hide Carries, BodyInvariant, Step;
    JsonDeltaCarries(WithTool(s, last.tool, last.name), ops);
  }

  lemma ToolsAreOpen(s: State)
    requires BodyInvariant(s)
    ensures ToolsOpen(s)
  {
  }

  lemma StepCarries(s: State, ops: seq<Op>)
    requires ops != []
    requires BodyInvariant(s) && PhaseConsistent(s) && !s.phase.Done?
    requires Carries(s, ops[..|ops| - 1])
    ensures Carries(Step(s, ops[|ops| - 1]), ops)
  {
    hide BodyInvariant, TextOf, ArgsOf;
    match ops[|ops| - 1] {
      case UsageReport(_) =>
      case TextFragment(_) => TextStepCarries(s, ops);
      case ToolFragment(_, _, _) => ToolStepCarries(s, ops);
      case FinishReason(_) =>
    }
  }

  lemma {:induction false} RunCarries(model: string, ops: seq<Op>)
    ensures Carries(Run(model, ops), ops)
    decreases |ops|
  {
    if ops != [] {
      var init := ops[..|ops| - 1];
      RunCarries(model, init);
      RunKeeps(model, init);
      hide Step, BodyInvariant, PhaseConsistent, Carries;
      StepCarries(Run(model, init), ops);
    }
  }

  lemma {:induction false} StopAllDeltas(s: State, indices: seq<nat>)
    ensures SameDeltas(StopAll(s, indices).sent, s.sent)
    decreases |indices|
  {
    if indices != [] {
      var n := |indices| - 1;
      StopAllDeltas(s, indices[..n]);
      SendOther(StopAll(s, indices[..n]).sent, BlockStop(indices[n]));
      hide TextOf, ArgsOf;
    }
  }

  lemma CloseDeltas(s: State)
    requires !s.phase.Done?
    ensures SameDeltas(Close(s).sent, s.sent)
  {
    hide Ascending;
    var r := s.EnsureStarted();
    BookkeepingDeltas(s, 0, "");
    BookkeepingDeltas(r.(phase := Done), 0, "");
    var t := r.(phase := Done).CloseText();
    StopAllDeltas(t, Ascending(ToolBlocks(s)));
    var u := StopAll(t, Ascending(ToolBlocks(s)));
    var delta := MessageDelta(StopReason(s.finishReason), FinalUsage(s.usage));
    SendOther(u.sent, delta);
    SendOther(u.sent + [delta], MessageStop);
    hide TextOf, ArgsOf;
  }

  /** The text of a reply is the upstream text, for every stream. */
  lemma LosslessText(model: string, ops: seq<Op>)
    ensures TextOf(Transcript(model, ops)) == FragmentText(ops)
  {
    RunKeeps(model, ops);
    RunCarries(model, ops);
    CloseDeltas(Run(model, ops));
  }

  /**
   * Each upstream tool has a block of its own, distinct from that of any other tool, whose
   * argument text is the concatenation of that tool's fragments.
   */
  lemma LosslessToolArguments(model: string, ops: seq<Op>, oi: u64)
    requires HasTool(ops, oi)
    ensures var tools, es := Run(model, ops).tools, Transcript(model, ops);
            && oi in tools
            && BlockStart(tools[oi].index, ToolKind(tools[oi].name)) in es
            && ArgsOf(es, tools[oi].index) == FragmentArgs(ops, oi)
            && forall other :: other in tools && other != oi ==> tools[other].index != tools[oi].index
  {
    var s := Run(model, ops);
    RunKeeps(model, ops);
    assert ToolsOpen(s);
    RunCarries(model, ops);
    CloseDeltas(s);
    CloseGrows(s);
  }

  lemma CloseGrows(s: State)
    ensures s.sent <= Close(s).sent
  {
    if !s.phase.Done? {
      var t := s.EnsureStarted().(phase := Done).CloseText();
      StopAllGrows(t, Ascending(ToolBlocks(s)));
    }
  }
}

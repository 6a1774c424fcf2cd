/**
 * The event protocol of every run of the streaming converter, and the exact condition
 * under which every block it opens is closed.
 */
module StreamProtocol {
  import opened Ordered
  import opened BoundedInts
  import opened AnthropicStream

  // ---- Legal event sequences, independently of the converter ----

  function StartCount(es: seq<Event>): nat {
    if es == [] then 0
    else StartCount(es[..|es| - 1]) + if es[|es| - 1].BlockStart? then 1 else 0
  }

  function StopCount(es: seq<Event>): nat {
    if es == [] then 0
    else StopCount(es[..|es| - 1]) + if es[|es| - 1].BlockStop? then 1 else 0
  }

  ghost predicate IsTool(es: seq<Event>, index: nat) {
    exists name :: BlockStart(index, ToolKind(name)) in es
  }

  /** What may follow `before` in the body of a message. */
  ghost predicate Legal(before: seq<Event>, e: Event) {
    match e
    case MessageStart(_, _) => before == []
    case BlockStart(index, _) => before != [] && index == StartCount(before)
    case TextDelta(index, _) => BlockStart(index, TextKind) in before && BlockStop(index) !in before
    case JsonDelta(index, _) => IsTool(before, index) && BlockStop(index) !in before
    case BlockStop(index) =>
      && (BlockStart(index, TextKind) in before || IsTool(before, index))
      && BlockStop(index) !in before
    case MessageDelta(_, _) => false
    case MessageStop => false
  }

  ghost predicate LegalBody(es: seq<Event>) {
    forall p :: 0 <= p < |es| ==> Legal(es[..p], es[p])
  }

  /**
   * A message: `message_start` first and only there, the k-th block start has index k, deltas
   * and stops target a started block of their kind that is not stopped, and exactly one
   * `message_delta` and `message_stop`, in that order, at the end.
   */
  ghost predicate WellFormed(es: seq<Event>) {
    && |es| >= 3
    && LegalBody(es[..|es| - 2])
    && es[|es| - 2].MessageDelta?
    && es[|es| - 1].MessageStop?
  }

  lemma LegalExtend(es: seq<Event>, e: Event)
    requires LegalBody(es) && Legal(es, e)
    ensures LegalBody(es + [e])
  {
    forall p | 0 <= p < |es + [e]|
      ensures Legal((es + [e])[..p], (es + [e])[p])
    {
      assert p < |es| ==> (es + [e])[..p] == es[..p];
      assert p == |es| ==> (es + [e])[..p] == es;
    }
  }

  lemma CountExtend(es: seq<Event>, e: Event)
    ensures StartCount(es + [e]) == StartCount(es) + if e.BlockStart? then 1 else 0
    ensures StopCount(es + [e]) == StopCount(es) + if e.BlockStop? then 1 else 0
  {
    assert (es + [e])[..|es|] == es;
  }

  // ---- What the input alone says about blocks left open ----

  ghost predicate HasTool(ops: seq<Op>, tool: u64) {
    exists i :: 0 <= i < |ops| && ops[i].ToolFragment? && ops[i].tool == tool
  }

  ghost predicate AnyTool(ops: seq<Op>) {
    exists i :: 0 <= i < |ops| && ops[i].ToolFragment?
  }

  /** Whether, after the first tool call, text came since the last new tool index. */
  ghost predicate TextSinceNewTool(ops: seq<Op>) {
    if ops == [] then false
    else
      var init, last := ops[..|ops| - 1], ops[|ops| - 1];
      if last.TextFragment? then AnyTool(init)
      else if last.ToolFragment? && !HasTool(init, last.tool) then false
      else TextSinceNewTool(init)
  }

  /** The text fragments that open a block while the previous text block is still open. */
  ghost function LeakCount(ops: seq<Op>): nat {
    if ops == [] then 0
    else
      var init, last := ops[..|ops| - 1], ops[|ops| - 1];
      LeakCount(init) + if last.TextFragment? && TextSinceNewTool(init) then 1 else 0
  }

  /** Text at `j` after a tool call, with no new tool index from there up to `k`. */
  ghost predicate OpenSince(ops: seq<Op>, j: int, k: int)
    requires k <= |ops|
  {
    && 0 <= j < k
    && ops[j].TextFragment? && AnyTool(ops[..j])
    && forall i :: j < i < k && ops[i].ToolFragment? ==> HasTool(ops[..i], ops[i].tool)
  }

  /** Two text fragments after the first tool call with no new tool index between them. */
  ghost predicate LeakyPair(ops: seq<Op>, j: int, k: int) {
    0 <= j < k < |ops| && OpenSince(ops, j, k) && ops[k].TextFragment?
  }

  lemma HasToolPrefix(ops: seq<Op>, tool: u64)
    requires ops != []
    ensures HasTool(ops, tool) <==>
            HasTool(ops[..|ops| - 1], tool) || (ops[|ops| - 1].ToolFragment? && ops[|ops| - 1].tool == tool)
    ensures AnyTool(ops) <==> AnyTool(ops[..|ops| - 1]) || ops[|ops| - 1].ToolFragment?
  {
    var n := |ops| - 1;
    if HasTool(ops, tool) {
      var i :| 0 <= i < |ops| && ops[i].ToolFragment? && ops[i].tool == tool;
      assert i < n ==> ops[..n][i] == ops[i];
    }
    if AnyTool(ops) {
      var i :| 0 <= i < |ops| && ops[i].ToolFragment?;
      assert i < n ==> ops[..n][i] == ops[i];
    }
  }

  lemma OpenSincePrefix(ops: seq<Op>, j: int, k: int, n: nat)
    requires k <= n <= |ops|
    ensures OpenSince(ops[..n], j, k) <==> OpenSince(ops, j, k)
  {
    if 0 <= j < k {
      assert ops[..n][..j] == ops[..j];
      forall i | j < i < k
        ensures ops[..n][..i] == ops[..i]
      {
      }
    }
  }

  lemma OpenSinceLast(ops: seq<Op>, j: int)
    requires ops != []
    ensures var n := |ops| - 1;
            && (OpenSince(ops, j, |ops|) <==>
                if j == n then ops[n].TextFragment? && AnyTool(ops[..n])
                else OpenSince(ops[..n], j, n) && (ops[n].ToolFragment? ==> HasTool(ops[..n], ops[n].tool)))
            && (OpenSince(ops[..n], j, n) ==> AnyTool(ops[..n]))
  {
    var n := |ops| - 1;
    OpenSincePrefix(ops, j, n, n);
    if OpenSince(ops[..n], j, n) {
      var i :| 0 <= i < j && ops[..n][..j][i].ToolFragment?;
      assert ops[..n][i].ToolFragment?;
    }
    hide HasTool, AnyTool;
  }

  lemma {:induction false} TextSinceNewToolMeans(ops: seq<Op>)
    ensures TextSinceNewTool(ops) <==> exists j :: OpenSince(ops, j, |ops|)
    decreases |ops|
  {
    if ops != [] {
      var n := |ops| - 1;
      var init, last := ops[..n], ops[n];
      TextSinceNewToolMeans(init);
      hide OpenSince, AnyTool, HasTool;
      if j :| OpenSince(ops, j, |ops|) {
        OpenSinceLast(ops, j);
      }
      if TextSinceNewTool(ops) {
        if last.TextFragment? {
          OpenSinceLast(ops, n);
        } else {
          var j :| OpenSince(init, j, n);
          OpenSinceLast(ops, j);
        }
      }
    }
  }

  lemma LeakyPairPrefix(ops: seq<Op>, j: int, k: int)
    requires ops != []
    ensures var n := |ops| - 1;
            LeakyPair(ops, j, k) <==>
            LeakyPair(ops[..n], j, k) || (k == n && OpenSince(ops[..n], j, n) && ops[n].TextFragment?)
  {
    var n := |ops| - 1;
    if 0 <= j < k <= n {
      OpenSincePrefix(ops, j, k, n);
    }
  }

  /** No block is left open exactly when no leaky pair of text fragments occurs. */
  lemma {:induction false} NoLeakMeans(ops: seq<Op>)
    ensures LeakCount(ops) == 0 <==> !exists j, k :: LeakyPair(ops, j, k)
    decreases |ops|
  {
    if ops != [] {
      var n := |ops| - 1;
      var init := ops[..n];
      NoLeakMeans(init);
      TextSinceNewToolMeans(init);
      hide LeakyPair, OpenSince, TextSinceNewTool;
      if TextSinceNewTool(init) && ops[n].TextFragment? {
        var j :| OpenSince(init, j, n);
        LeakyPairPrefix(ops, j, n);
      }
      if j, k :| LeakyPair(init, j, k) {
        LeakyPairPrefix(ops, j, k);
      }
      if j, k :| LeakyPair(ops, j, k) {
        LeakyPairPrefix(ops, j, k);
      }
    }
  }

  // ---- The invariant of the converter ----

  ghost predicate ToolsOpen(s: State) {
    && (forall oi :: oi in s.tools ==>
          && BlockStart(s.tools[oi].index, ToolKind(s.tools[oi].name)) in s.sent
          && BlockStop(s.tools[oi].index) !in s.sent
          && s.tools[oi].index < s.blockSeq)
    && (forall a, b :: a in s.tools && b in s.tools && a != b ==> s.tools[a].index != s.tools[b].index)
  }

  ghost predicate TextOpen(s: State) {
    s.textBlock.Some? ==>
      && BlockStart(s.textBlock.value, TextKind) in s.sent
      && BlockStop(s.textBlock.value) !in s.sent
      && s.textBlock.value < s.blockSeq
      && s.textBlock.value !in ToolBlocks(s)
  }

  ghost predicate PhaseConsistent(s: State) {
    && (s.started <==> s.sent != [])
    && (s.started <==> !s.phase.Start?)
    && (s.tools != map[] <==> s.phase.InTool?)
    && (s.phase.InText? ==> s.textBlock.Some?)
    && (s.phase.Start? ==> s.textBlock.None?)
  }

  ghost predicate BodyInvariant(s: State) {
    && LegalBody(s.sent)
    && StartCount(s.sent) == s.blockSeq
    && (forall i: nat :: BlockStop(i) in s.sent ==> i < s.blockSeq)
    && ToolsOpen(s)
    && TextOpen(s)
  }

  function OpenBlocks(s: State): nat {
    |s.tools| + if s.textBlock.Some? then 1 else 0
  }

  ghost function Balance(s: State): int {
    StartCount(s.sent) - StopCount(s.sent) - OpenBlocks(s)
  }

  lemma StartedKeeps(s: State)
    requires BodyInvariant(s) && (s.started <==> s.sent != [])
    ensures BodyInvariant(s.EnsureStarted()) && s.EnsureStarted().sent != []
    ensures Balance(s.EnsureStarted()) == Balance(s)
  {
    if !s.started {
      LegalExtend(s.sent, MessageStart(s.model, s.usage.prompt));
      CountExtend(s.sent, MessageStart(s.model, s.usage.prompt));
    }
  }

  lemma CloseTextKeeps(s: State)
    requires BodyInvariant(s) && s.sent != []
    ensures BodyInvariant(s.CloseText()) && s.CloseText().sent != []
    ensures Balance(s.CloseText()) == Balance(s)
  {
    if s.textBlock.Some? {
      var e := BlockStop(s.textBlock.value);
      LegalExtend(s.sent, e);
      CountExtend(s.sent, e);
      var t := s.CloseText();
      forall oi | oi in t.tools
        ensures BlockStop(t.tools[oi].index) !in t.sent
      {
        assert s.tools[oi].index in ToolBlocks(s);
      }
    }
  }

  lemma OpenTextKeeps(s: State)
    requires BodyInvariant(s) && s.sent != []
    ensures BodyInvariant(s.OpenText())
    ensures Balance(s.OpenText()) == Balance(s) + if s.textBlock.Some? then 1 else 0
  {
    LegalExtend(s.sent, BlockStart(s.blockSeq, TextKind));
    CountExtend(s.sent, BlockStart(s.blockSeq, TextKind));
  }

  lemma NewToolKeeps(s: State, oi: u64, name: string)
    requires BodyInvariant(s) && s.sent != [] && s.textBlock.None? && oi !in s.tools
    ensures var t := s.(blockSeq := s.blockSeq + 1, tools := s.tools[oi := Tool(s.blockSeq, name)], phase := InTool)
                     .Send(BlockStart(s.blockSeq, ToolKind(name)));
            BodyInvariant(t) && Balance(t) == Balance(s)
  {
    hide LegalBody, StartCount, StopCount;
    var e := BlockStart(s.blockSeq, ToolKind(name));
    LegalExtend(s.sent, e);
    CountExtend(s.sent, e);
    var t := s.(blockSeq := s.blockSeq + 1, tools := s.tools[oi := Tool(s.blockSeq, name)], phase := InTool).Send(e);
    assert ToolsOpen(t);
  }

  lemma OpenToolKeeps(s: State, oi: u64, name: string)
    requires BodyInvariant(s) && (s.started <==> s.sent != []) && oi !in s.tools
    ensures BodyInvariant(s.OpenTool(oi, name))
    ensures Balance(s.OpenTool(oi, name)) == Balance(s)
  {
    hide BodyInvariant, Balance;
    StartedKeeps(s);
    CloseTextKeeps(s.EnsureStarted());
    NewToolKeeps(s.EnsureStarted().CloseText(), oi, name);
  }

  lemma DeltaKeeps(s: State, e: Event)
    requires BodyInvariant(s)
    requires e.TextDelta? || e.JsonDelta?
    requires Legal(s.sent, e)
    ensures BodyInvariant(s.Send(e)) && Balance(s.Send(e)) == Balance(s)
  {
    LegalExtend(s.sent, e);
    CountExtend(s.sent, e);
  }

  function Reopen(s: State): State {
    if s.phase.Start? then s.EnsureStarted().OpenText().(phase := InText)
    else if s.phase.InTool? then s.OpenText()
    else s
  }

  lemma RephaseKeeps(s: State, phase: Phase)
    requires BodyInvariant(s)
    ensures BodyInvariant(s.(phase := phase)) && Balance(s.(phase := phase)) == Balance(s)
  {
    hide LegalBody, StartCount, StopCount;
  }

  lemma ReopenKeeps(s: State)
    requires BodyInvariant(s) && PhaseConsistent(s) && !s.phase.Done?
    ensures var r := Reopen(s);
            && BodyInvariant(r) && PhaseConsistent(r) && !r.phase.Done? && r.textBlock.Some?
            && Balance(r) == Balance(s) + if s.phase.InTool? && s.textBlock.Some? then 1 else 0
  {
    hide BodyInvariant, Balance;
    if s.phase.Start? {
      StartedKeeps(s);
      OpenTextKeeps(s.EnsureStarted());
      RephaseKeeps(s.EnsureStarted().OpenText(), InText);
    } else if s.phase.InTool? {
      OpenTextKeeps(s);
    }
  }

  lemma TextStepIs(s: State, text: string)
    requires PhaseConsistent(s) && !s.phase.Done?
    ensures Reopen(s).textBlock.Some?
    ensures Step(s, TextFragment(text)) == Reopen(s).Send(TextDelta(Reopen(s).textBlock.value, text))
  {
  }

  function WithTool(s: State, oi: u64, name: string): State {
    if oi in s.tools then s else s.OpenTool(oi, name)
  }

  lemma ToolStepIs(s: State, oi: u64, name: string, args: string)
    requires !s.phase.Done?
    ensures var r := WithTool(s, oi, name);
            && oi in r.tools
            && Step(s, ToolFragment(oi, name, args)) ==
               if args == "" then r else r.Send(JsonDelta(r.tools[oi].index, args))
  {
  }

  lemma TextStepKeeps(s: State, text: string)
    requires BodyInvariant(s) && PhaseConsistent(s) && !s.phase.Done?
    ensures var t := Step(s, TextFragment(text));
            && BodyInvariant(t) && PhaseConsistent(t) && !t.phase.Done?
            && Balance(t) == Balance(s) + if s.phase.InTool? && s.textBlock.Some? then 1 else 0
  {
    ReopenKeeps(s);
    TextStepIs(s, text);
    hide Reopen, Step, LegalBody, StartCount, StopCount;
    DeltaKeeps(Reopen(s), TextDelta(Reopen(s).textBlock.value, text));
    hide BodyInvariant, Balance;
  }

  lemma WithToolKeeps(s: State, oi: u64, name: string)
    requires BodyInvariant(s) && PhaseConsistent(s) && !s.phase.Done?
    ensures var r := WithTool(s, oi, name);
            && BodyInvariant(r) && PhaseConsistent(r) && !r.phase.Done?
            && Balance(r) == Balance(s)
            && oi in r.tools && IsTool(r.sent, r.tools[oi].index) && BlockStop(r.tools[oi].index) !in r.sent
  {
    hide LegalBody, StartCount, StopCount;
    if oi !in s.tools {
      OpenToolKeeps(s, oi, name);
    }
    var r := WithTool(s, oi, name);
    assert BlockStart(r.tools[oi].index, ToolKind(r.tools[oi].name)) in r.sent;
  }

  lemma ToolStepKeeps(s: State, oi: u64, name: string, args: string)
    requires BodyInvariant(s) && PhaseConsistent(s) && !s.phase.Done?
    ensures var t := Step(s, ToolFragment(oi, name, args));
            && BodyInvariant(t) && PhaseConsistent(t) && !t.phase.Done?
            && Balance(t) == Balance(s)
  {
    WithToolKeeps(s, oi, name);
    ToolStepIs(s, oi, name, args);
    hide Step, WithTool, BodyInvariant, Balance;
    var r := WithTool(s, oi, name);
    if args != "" {
      DeltaKeeps(r, JsonDelta(r.tools[oi].index, args));
    }
  }

  lemma StepKeeps(s: State, op: Op)
    requires BodyInvariant(s) && PhaseConsistent(s) && !s.phase.Done?
    ensures BodyInvariant(Step(s, op)) && PhaseConsistent(Step(s, op)) && !Step(s, op).phase.Done?
    ensures Balance(Step(s, op)) ==
            Balance(s) + if op.TextFragment? && s.phase.InTool? && s.textBlock.Some? then 1 else 0
  {
    match op {
      case UsageReport(u) =>
      case TextFragment(text) => TextStepKeeps(s, text);
      case ToolFragment(oi, name, args) => ToolStepKeeps(s, oi, name, args);
      case FinishReason(_) =>
    }
  }

  /** How one step moves the parts of the state that decide which blocks exist. */
  lemma StepShape(s: State, op: Op)
    requires !s.phase.Done? && PhaseConsistent(s)
    ensures var t := Step(s, op);
            && t.tools.Keys == s.tools.Keys + (if op.ToolFragment? then {op.tool} else {})
            && (t.phase.InTool? <==> s.phase.InTool? || op.ToolFragment?)
            && (t.textBlock.Some? <==>
                op.TextFragment? || (s.textBlock.Some? && !(op.ToolFragment? && op.tool !in s.tools)))
  {
  }

  lemma StepTracksInput(s: State, ops: seq<Op>)
    requires ops != []
    requires !s.phase.Done? && PhaseConsistent(s)
    requires forall oi: u64 :: oi in s.tools <==> HasTool(ops[..|ops| - 1], oi)
    requires s.phase.InTool? <==> AnyTool(ops[..|ops| - 1])
    requires s.phase.InTool? && s.textBlock.Some? <==> TextSinceNewTool(ops[..|ops| - 1])
    ensures var t := Step(s, ops[|ops| - 1]);
            && (forall oi: u64 :: oi in t.tools <==> HasTool(ops, oi))
            && (t.phase.InTool? <==> AnyTool(ops))
            && (t.phase.InTool? && t.textBlock.Some? <==> TextSinceNewTool(ops))
  {
    forall oi: u64 {
      HasToolPrefix(ops, oi);
    }
    HasToolPrefix(ops, 0);
    StepShape(s, ops[|ops| - 1]);
    hide HasTool, AnyTool, Step;
    var t := Step(s, ops[|ops| - 1]);
    assert forall oi: u64 :: oi in t.tools <==> oi in t.tools.Keys;
    if ops[|ops| - 1].ToolFragment? && !s.phase.InTool? {
      assert ops[|ops| - 1].tool !in s.tools;
    }
  }

  /** What every run keeps, and what its state says about its input. */
  lemma {:induction false} RunKeeps(model: string, ops: seq<Op>)
    ensures BodyInvariant(Run(model, ops)) && PhaseConsistent(Run(model, ops))
    ensures !Run(model, ops).phase.Done?
    ensures Balance(Run(model, ops)) == LeakCount(ops)
    ensures forall oi: u64 :: oi in Run(model, ops).tools <==> HasTool(ops, oi)
    ensures Run(model, ops).phase.InTool? <==> AnyTool(ops)
    ensures Run(model, ops).phase.InTool? && Run(model, ops).textBlock.Some? <==> TextSinceNewTool(ops)
    decreases |ops|
  {
    hide Step, BodyInvariant, PhaseConsistent, HasTool, AnyTool;
    if ops == [] {
      FreshKeeps(model);
    } else {
      var init, last := ops[..|ops| - 1], ops[|ops| - 1];
      RunKeeps(model, init);
      StepKeeps(Run(model, init), last);
      StepTracksInput(Run(model, init), ops);
    }
  }

  lemma FreshKeeps(model: string)
    ensures BodyInvariant(Fresh(model)) && PhaseConsistent(Fresh(model)) && Balance(Fresh(model)) == 0
    ensures forall oi: u64 :: !HasTool([], oi)
    ensures !AnyTool([])
  {
  }

  // ---- Closing ----

  function IndicesOf(tools: map<u64, Tool>, keys: set<u64>): set<nat>
    requires keys <= tools.Keys
  {
    set oi | oi in keys :: tools[oi].index
  }

  lemma {:induction false} DistinctIndices(tools: map<u64, Tool>, keys: set<u64>)
    requires keys <= tools.Keys
    requires forall a, b :: a in tools && b in tools && a != b ==> tools[a].index != tools[b].index
    ensures |IndicesOf(tools, keys)| == |keys|
    decreases |keys|
  {
    if keys == {} {
      assert IndicesOf(tools, keys) == {};
    } else {
      var oi :| oi in keys;
      DistinctIndices(tools, keys - {oi});
      assert IndicesOf(tools, keys) == IndicesOf(tools, keys - {oi}) + {tools[oi].index};
    }
  }

  lemma DistinctBlocks(s: State)
    requires ToolsOpen(s)
    ensures |ToolBlocks(s)| == |s.tools|
  {
    DistinctIndices(s.tools, s.tools.Keys);
    assert ToolBlocks(s) == IndicesOf(s.tools, s.tools.Keys);
  }

  /** Stopping open blocks one by one, each exactly once. */
  lemma {:induction false} StopAllKeeps(s: State, indices: seq<nat>)
    requires LegalBody(s.sent)
    requires StrictlyIncreasing(indices)
    requires forall i :: i in indices ==> BlockStop(i) !in s.sent && IsTool(s.sent, i)
    ensures LegalBody(StopAll(s, indices).sent)
    ensures StartCount(StopAll(s, indices).sent) == StartCount(s.sent)
    ensures StopCount(StopAll(s, indices).sent) == StopCount(s.sent) + |indices|
    ensures forall i: nat :: BlockStop(i) in StopAll(s, indices).sent <==> BlockStop(i) in s.sent || i in indices
    ensures s.sent <= StopAll(s, indices).sent
    decreases |indices|
  {
    hide LegalBody, StartCount, StopCount;
    if indices != [] {
      var n := |indices| - 1;
      var init, last := indices[..n], indices[n];
      StopAllKeeps(s, init);
      var before := StopAll(s, init).sent;
      assert last !in init;
      assert BlockStop(last) !in before;
      var name :| BlockStart(last, ToolKind(name)) in s.sent;
      assert BlockStart(last, ToolKind(name)) in before;
      assert IsTool(before, last);
      assert Legal(before, BlockStop(last));
      LegalExtend(before, BlockStop(last));
      CountExtend(before, BlockStop(last));
      assert indices == init + [last];
    }
  }

  lemma ToolsStopped(t: State)
    requires BodyInvariant(t) && t.textBlock.None?
    ensures var u := StopAll(t, Ascending(ToolBlocks(t)));
            LegalBody(u.sent) && StartCount(u.sent) - StopCount(u.sent) == Balance(t)
  {
    hide LegalBody, StartCount, StopCount;
    var q := Ascending(ToolBlocks(t));
    AscendingEnumerates(ToolBlocks(t));
    DistinctBlocks(t);
    ToolBlocksOpen(t, q);
    hide Ascending;
    StopAllKeeps(t, q);
  }

  lemma TerminalPair(body: seq<Event>, delta: Event)
    requires LegalBody(body) && delta.MessageDelta? && body != []
    ensures WellFormed(body + [delta] + [MessageStop])
    ensures StartCount(body + [delta] + [MessageStop]) == StartCount(body)
    ensures StopCount(body + [delta] + [MessageStop]) == StopCount(body)
  {
    CountExtend(body, delta);
    CountExtend(body + [delta], MessageStop);
    var all := body + [delta] + [MessageStop];
    assert all[..|all| - 2] == body;
  }

  lemma CloseKeeps(s: State)
    requires BodyInvariant(s) && PhaseConsistent(s) && !s.phase.Done?
    ensures WellFormed(Close(s).sent)
    ensures StartCount(Close(s).sent) - StopCount(Close(s).sent) == Balance(s)
  {
    StartedKeeps(s);
    var r := s.EnsureStarted().(phase := Done);
    DoneKeeps(s.EnsureStarted());
    CloseTextKeeps(r);
    var t := r.CloseText();
    assert ToolBlocks(t) == ToolBlocks(s);
    hide LegalBody, StartCount, StopCount, Ascending, BodyInvariant, Balance, WellFormed;
    ToolsStopped(t);
    var body := StopAll(t, Ascending(ToolBlocks(t))).sent;
    StopAllFrame(t, Ascending(ToolBlocks(t)));
    StopAllGrows(t, Ascending(ToolBlocks(t)));
    TerminalPair(body, MessageDelta(StopReason(s.finishReason), FinalUsage(s.usage)));
  }

  lemma DoneKeeps(s: State)
    requires BodyInvariant(s)
    ensures BodyInvariant(s.(phase := Done)) && Balance(s.(phase := Done)) == Balance(s)
  {
    hide LegalBody, StartCount, StopCount;
  }

  lemma {:induction false} StopAllGrows(s: State, indices: seq<nat>)
    ensures s.sent <= StopAll(s, indices).sent
    decreases |indices|
  {
    if indices != [] {
      StopAllGrows(s, indices[..|indices| - 1]);
    }
  }

  lemma ToolBlocksOpen(t: State, q: seq<nat>)
    requires ToolsOpen(t)
    requires forall i :: i in q ==> i in ToolBlocks(t)
    ensures forall i :: i in q ==> BlockStop(i) !in t.sent && IsTool(t.sent, i)
  {
    forall i | i in q
      ensures BlockStop(i) !in t.sent && IsTool(t.sent, i)
    {
      var oi :| oi in t.tools && t.tools[oi].index == i;
      assert BlockStart(i, ToolKind(t.tools[oi].name)) in t.sent;
    }
  }

  // ---- The theorems ----

  /**
   * Every transcript is well formed, and it starts exactly as many more blocks than it stops
   * as there are text fragments that reopened text over an open text block.
   */
  lemma EventProtocol(model: string, ops: seq<Op>)
    ensures WellFormed(Transcript(model, ops))
    ensures StartCount(Transcript(model, ops)) - StopCount(Transcript(model, ops)) == LeakCount(ops)
  {
    RunKeeps(model, ops);
    CloseKeeps(Run(model, ops));
  }

  ghost predicate Started(es: seq<Event>, i: nat) {
    exists kind :: BlockStart(i, kind) in es
  }

  /** Every block that is started is also stopped. */
  ghost predicate EveryBlockStopped(es: seq<Event>) {
    forall i: nat :: Started(es, i) ==> BlockStop(i) in es
  }

  function StoppedIndices(es: seq<Event>): set<nat> {
    set e | e in es && e.BlockStop? :: e.index
  }

  function Below(n: nat): set<nat> {
    if n == 0 then {} else Below(n - 1) + {n - 1}
  }

  lemma {:induction false} BelowMeans(n: nat)
    ensures |Below(n)| == n && forall i: nat :: i in Below(n) <==> i < n
  {
    if n > 0 {
      BelowMeans(n - 1);
    }
  }

  /** The started indices are those below the number of starts, and stops are distinct and of started blocks. */
  ghost predicate IndicesInUse(es: seq<Event>) {
    && (forall i: nat :: Started(es, i) <==> i < StartCount(es))
    && (forall i: nat :: i in StoppedIndices(es) ==> i < StartCount(es))
    && |StoppedIndices(es)| == StopCount(es)
  }

  lemma LegalTargets(es: seq<Event>, e: Event)
    requires Legal(es, e)
    ensures e.BlockStart? ==> e.index == StartCount(es)
    ensures e.BlockStop? ==> Started(es, e.index) && e.index !in StoppedIndices(es)
  {
    if e.BlockStop? && IsTool(es, e.index) {
      var name :| BlockStart(e.index, ToolKind(name)) in es;
      assert Started(es, e.index);
    }
    hide StartCount;
  }

  lemma OneMoreIndex(es: seq<Event>, e: Event)
    requires Legal(es, e) && IndicesInUse(es)
    ensures IndicesInUse(es + [e])
  {
    LegalTargets(es, e);
    CountExtend(es, e);
    OneMoreStart(es, e);
    OneMoreStop(es, e);
    hide Legal, Started, StoppedIndices, StartCount, StopCount;
  }

  lemma {:induction false} LegalIndices(es: seq<Event>)
    requires LegalBody(es)
    ensures IndicesInUse(es)
    decreases |es|
  {
    hide LegalBody, Legal, IndicesInUse;
    if es == [] {
      NothingInUse();
    } else {
      var n := |es| - 1;
      LegalBodyPrefix(es);
      LegalIndices(es[..n]);
      OneMoreIndex(es[..n], es[n]);
      assert es == es[..n] + [es[n]];
    }
  }

  lemma NothingInUse()
    ensures IndicesInUse([])
  {
  }

  lemma LegalBodyPrefix(es: seq<Event>)
    requires es != [] && LegalBody(es)
    ensures LegalBody(es[..|es| - 1]) && Legal(es[..|es| - 1], es[|es| - 1])
  {
    var init := es[..|es| - 1];
    hide Legal;
    forall p | 0 <= p < |init|
      ensures Legal(init[..p], init[p])
    {
      assert init[..p] == es[..p];
    }
  }

  lemma OneMoreStart(es: seq<Event>, e: Event)
    ensures forall i: nat :: Started(es + [e], i) <==> Started(es, i) || (e.BlockStart? && e.index == i)
  {
    forall i: nat
      ensures Started(es + [e], i) <==> Started(es, i) || (e.BlockStart? && e.index == i)
    {
      if e.BlockStart? && e.index == i {
        assert BlockStart(i, e.kind) in es + [e];
      }
      if Started(es, i) {
        var kind :| BlockStart(i, kind) in es;
        assert BlockStart(i, kind) in es + [e];
      }
    }
  }

  lemma OneMoreStop(es: seq<Event>, e: Event)
    ensures StoppedIndices(es + [e]) == StoppedIndices(es) + if e.BlockStop? then {e.index} else {}
  {
    forall i: nat
      ensures i in StoppedIndices(es + [e]) <==> i in StoppedIndices(es) || (e.BlockStop? && e.index == i)
    {
      assert i in StoppedIndices(es + [e]) <==> BlockStop(i) in es + [e];
      assert i in StoppedIndices(es) <==> BlockStop(i) in es;
    }
  }

  /** In a legal body every block is stopped exactly when there are as many stops as starts. */
  lemma StoppedIffCounts(es: seq<Event>)
    requires LegalBody(es)
    ensures EveryBlockStopped(es) <==> StartCount(es) == StopCount(es)
  {
    LegalIndices(es);
    var n := StartCount(es);
    BelowMeans(n);
    forall i: nat
      ensures i in StoppedIndices(es) <==> BlockStop(i) in es
    {
    }
    hide LegalBody, StartCount, StopCount, Started, StoppedIndices, Below;
    if EveryBlockStopped(es) {
      assert StoppedIndices(es) == Below(n);
    }
    if n == StopCount(es) {
      SubsetOfSameSize(StoppedIndices(es), Below(n));
    }
  }

  lemma SubsetOfSameSize(a: set<nat>, b: set<nat>)
    requires a <= b && |a| == |b|
    ensures a == b
  {
    assert |b - a| == 0;
  }

  /**
   * Each block that a transcript starts is also stopped in it, if and only if the input has no leaky
   * pair of text fragments.
   */
  lemma EveryBlockClosedIff(model: string, ops: seq<Op>)
    ensures EveryBlockStopped(Transcript(model, ops)) <==> !exists j, k :: LeakyPair(ops, j, k)
  {
    hide LegalBody, LeakyPair, LeakCount, Transcript, EveryBlockStopped, StartCount, StopCount;
    var es := Transcript(model, ops);
    EventProtocol(model, ops);
    NoLeakMeans(ops);
    var n := |es| - 2;
    var body := es[..n];
    StoppedIffCounts(body);
    assert es == body + [es[n], es[n + 1]];
    TerminalKeepsBlocks(body, es[n], es[n + 1]);
  }

  lemma TerminalKeepsBlocks(body: seq<Event>, d: Event, m: Event)
    requires d.MessageDelta? && m.MessageStop?
    ensures var es := body + [d, m];
            && (EveryBlockStopped(es) <==> EveryBlockStopped(body))
            && StartCount(es) == StartCount(body) && StopCount(es) == StopCount(body)
  {
    assert body + [d, m] == body + [d] + [m];
    CountExtend(body, d);
    CountExtend(body + [d], m);
    OneMoreStart(body, d);
    OneMoreStart(body + [d], m);
    hide StartCount, StopCount, Started;
    assert forall i: nat :: BlockStop(i) in body + [d, m] <==> BlockStop(i) in body;
  }

  /** A tool call followed by two text fragments leaves one block open. */
  lemma TwoTextsAfterToolLeak(model: string)
    ensures var ops := [ToolFragment(0, "f", ""), TextFragment("a"), TextFragment("b")];
            StartCount(Transcript(model, ops)) == StopCount(Transcript(model, ops)) + 1
  {
    var ops := [ToolFragment(0, "f", ""), TextFragment("a"), TextFragment("b")];
    EventProtocol(model, ops);
    var two := [ToolFragment(0, "f", ""), TextFragment("a")];
    var one := [ToolFragment(0, "f", "")];
    assert ops[..2] == two && two[..1] == one && one[..0] == [];
    assert one[0].ToolFragment? && AnyTool(one);
    assert TextSinceNewTool(two) && !TextSinceNewTool(one);
    assert LeakCount(one) == 0 && LeakCount(two) == 0;
  }
}

# Verified model of an LLM gateway's protocol and accounting core

This project models seven parts of the gateway in Dafny and proves what they promise over every input,
every run and every delivery order:

- **Stream conversion** (`SseFraming`, `AnthropicStream`, `StreamProtocol`, `LosslessStream`, `UnaryConvert`,
  `StreamAgreement`). OpenAI chunks become Anthropic events. The mutable `ConvertState` and the buffering wrapper
  are proved against a pure step function over four kinds of fragments; the wrapper's result does not depend on how
  the text was cut into chunks. Every transcript obeys an event protocol that is stated without reference to the
  converter, carries exactly the upstream text and tool arguments, and agrees with the non-streaming converter
  exactly under a condition on the input.
- **Wire forms** (`Json`, `OpenAiForms`, `AnthropicForms`). The JSON of chunks, replies and requests with its field
  names spelled out, and round trips: what the converters read back from each form is exactly what it says.
- **Request conversion** (`RequestConvert`). Content blocks become chat messages. Convertible parts and tool results
  are kept once and in order, with one exact exception; tool uses are kept in order but move to the last message, and
  the blocks for which this changes the whole order are characterised exactly. Blocks without an OpenAI form are
  dropped.
- **Settlement** (`Settlement`). Greedy coverage of four priced components by package units: unit accounting,
  priority, conservation of cost and monotonicity in the reservation.
- **Breakers and balancing** (`CircuitBreaking`, `WeightedPick`, `Balancer`, `BalancerRuns`). Breaker invariants over
  runs, at most one trial, exactly when a trial is used and when none is wasted, exact selection, and fair shares by
  modular arithmetic, with the 32-bit sums as the machine computes them.
- **Limiters** (`RateLimit`). The fixed window as a timed run of atomic scripts.
- **Billing backlog** (`Backlog`, `BacklogRuns`). At-least-once hand-off, drain cycles with faults, and an idempotent
  writer: nothing accepted is lost, nothing is charged twice.
- **Flow tracking** (`FlowRegistry`, `FlowTracker`, `FlowConvergence`, `FlowRuns`). Messages delivered in any order
  converge; snapshots whose three commands interleave with them never spoil the index; global counts are the sum of
  the local ones.
- **Routing history** (`RoutingHistory`). The bucket axis is complete and the series add up.

Each component that changes state step by step is a class, or a method with a loop, whose contract names its whole new
state through a function of the old one. The theorems are lemmas about those functions.

## What the code does not promise

Some statements one might expect are false of the code. Each is proved with its exact condition.

- Not every content block is stopped. Text after a tool call opens a new block for every fragment and forgets the
  previous one (`StreamProtocol.EveryBlockClosedIff`, `StreamProtocol.TwoTextsAfterToolLeak`).
- Streaming and non-streaming replies differ when there is no content at all, when text follows a tool call, or when
  the finish reason is one that only streaming passes through (`StreamAgreement.StreamingAgreesWithUnaryIff`).
- An erroneous tool result with several parts or an image loses its error mark (`RequestConvert.ErrorMarkedIff`), and
  a lone empty text beside tool uses disappears. The order of all that is said, tool uses included, is kept exactly
  when moreover no part and no tool result follows a tool use (`RequestConvert.WholeOrderKeptIff`).
- `settle_usage` takes the cache-write count twice. If the separate count is smaller, the package can pay more than
  the actual cost (`Settlement.WithinActualCostIff`, `Settlement.WithinActualCostAtEveryReservationIff`,
  `Settlement.UnequalCacheWriteOverpays`). All five callers pass the usage's own count
  (`src/service/token_reservation.rs:42`, `:128`, `src/db/pg_backend/token_billing.rs:785`, `:982`, `:1060`).
- A selection claims the trial of every cooled-down endpoint, not only of the one it returns. The trial is used exactly
  when it is that endpoint's turn by the counter; otherwise the endpoint stays unavailable, unused, until someone
  reports an outcome for it or switches it on (`BalancerRuns.TrialIsUsedIff`). No trial is wasted, whatever the
  counter, exactly when each cooled-down endpoint holds every turn: it is the only ready one, or, as long as weights do
  not overflow, the whole share is its own (`BalancerRuns.NoTrialIsWastedIff`, `BalancerRuns.WholeShareIff`).
- Weights that add up to 2^32 or more are summed with wrap-around. The shares of a cycle are then exact if and only if the sum
  is a multiple of 2^32 and all weights are equal (`WeightedPick.CyclesAreFairIff`): with weights 2^32 - 1 and 2 the
  second candidate is never picked (`WeightedPick.OverflowStarves`). A candidate of weight zero is picked when the sum
  wraps to zero (`WeightedPick.ZeroWeightNeverPicked`).
- A fixed window bounds a 60-second interval by twice the limit less one, and no lower. Every interval admits at most
  the limit itself exactly when the limit is at most one (`RateLimit.EveryMinuteWithinIff`).
- A full batch of unparsable entries at the head of the backlog blocks every entry behind it
  (`Backlog.DrainedIffNotBlocked`, `BacklogRuns.HundredUnparsableBlock`).
- A first byte reported before the upstream start is "outputting" to the registry and "accepted" to the local
  snapshot; the two agree exactly on requests marked in order (`FlowRuns.ClassificationAgreesIff`).
- A removal overwrites the tombstone even with a lower sequence. Removals are final under every delivery exactly when
  no removal has a lower sequence than a set of the same key (`FlowConvergence.RemovalsAreFinalIff`). The trackers never
  send messages that fail this as long as each request id lives once (`FlowRuns.OneLifeRemovalsAreFinal`); it takes a
  reused request id (`FlowConvergence.ReusedKeyResurrects`), and the gateway's handlers draw a new one for each request.

## Model

| member | source | states |
|---|---|---|
| SseFraming.FindBoundary | src/provider/anthropic_compat.rs:454-456 | the position found is that of a blank-line boundary, no earlier one exists, and none is missed |
| SseFraming.LinesCut | src/provider/anthropic_compat.rs:457-459 | splitting into lines commutes with cutting the text just after a newline |
| SseFraming.ValuesAtBoundary | src/provider/anthropic_compat.rs:454-467 | taking a text apart at a blank line neither loses nor creates a value |
| AnthropicStream.WrapOpenAiSse | src/provider/anthropic_compat.rs:440-485 | for every cutting into chunks, and a tail without a final blank line, the events are those of the values of the whole text read line by line |
| AnthropicStream.IngestLines | src/provider/anthropic_compat.rs:457-466 | the lines of one piece of text feed the machine exactly the values they denote, whether or not the `[DONE]` line is skipped early |
| AnthropicStream.ConvertState.constructor | src/provider/anthropic_compat.rs:517-532 | the fresh machine state |
| AnthropicStream.ConvertState.EnsureStarted | src/provider/anthropic_compat.rs:534-561 | `message_start` is sent once, with the input tokens known by then |
| AnthropicStream.ConvertState.CloseTextBlock | src/provider/anthropic_compat.rs:563-573 | stops the open text block, if any, and forgets it |
| AnthropicStream.ConvertState.IngestUsage | src/provider/anthropic_compat.rs:580-617 | each positive count replaces the one held; cached tokens are taken out of the input tokens, saturating |
| AnthropicStream.ConvertState.IngestText | src/provider/anthropic_compat.rs:640-690 | the phase decides whether a block is opened, and the fragment goes to the open block |
| AnthropicStream.ConvertState.IngestToolCall | src/provider/anthropic_compat.rs:694-746 | a new tool index closes the text block and opens a tool block; arguments go to the block of their tool |
| AnthropicStream.ConvertState.IngestToolCalls | src/provider/anthropic_compat.rs:692-747 | a list of tool-call entries is handled entry by entry, those without an index being skipped |
| AnthropicStream.ConvertState.IngestFinish | src/provider/anthropic_compat.rs:754-756 | only records the finish reason; nothing is finalised yet |
| AnthropicStream.ConvertState.Ingest | src/provider/anthropic_compat.rs:575-757 | one chunk acts as its usage, text, tool calls and finish reason in that order, and not at all once done |
| AnthropicStream.ConvertState.StopBlocks | src/provider/anthropic_compat.rs:774-782 | one stop per index, in the order given |
| AnthropicStream.ConvertState.Finish | src/provider/anthropic_compat.rs:759-816 | closes the text block and then the tool blocks by increasing index, and ends with the terminal pair; a second call does nothing |
| AnthropicStream.AscendingEnumerates | src/provider/anthropic_compat.rs:771-773 | the tool blocks are stopped in strictly increasing order and each exactly once |
| StreamProtocol.EventProtocol | src/provider/anthropic_compat.rs:534-816 | every transcript: `message_start` first and unique, block starts numbered 0, 1, 2, …, deltas and stops only on started and unstopped blocks of their kind, `message_delta` and `message_stop` last and unique; starts less stops is the number of leaky text fragments |
| StreamProtocol.EveryBlockClosedIff | src/provider/anthropic_compat.rs:659-676 | each block that a transcript starts has its own stop in it if and only if no two text fragments follow a tool call with no new tool index between them |
| StreamProtocol.NoLeakMeans | src/provider/anthropic_compat.rs:659-676 | the recursive leak count is zero exactly when the input holds no leaky pair |
| StreamProtocol.TwoTextsAfterToolLeak | src/provider/anthropic_compat.rs:659-676 | a concrete input that leaves one block open |
| StreamProtocol.RunKeeps | src/provider/anthropic_compat.rs:575-757 | the invariant of every run, and what its state says about the input: which tools are known, the phase, whether a text block is open |
| LosslessStream.LosslessText | src/provider/anthropic_compat.rs:641-690 | for every stream, the text sent is the concatenation of the text received |
| LosslessStream.LosslessToolArguments | src/provider/anthropic_compat.rs:692-747 | for every stream, each tool has a block of its own whose argument text is the concatenation of its fragments |
| UnaryConvert.OpenAiToAnthropicResponse | src/provider/anthropic_compat.rs:314-434 | the reply: text if any, then one tool use per call in order, an empty text if there would be nothing, mapped stop reason, cached tokens taken out of the input |
| StreamAgreement.RunMirrors | src/provider/anthropic_compat.rs:575-757 | with all text first, a client holds after every fragment exactly the text and one entry per tool in order of appearance |
| StreamAgreement.AssembledContentAt | src/provider/anthropic_compat.rs:333-366 | the non-streaming content of the assembled message, block by block |
| StreamAgreement.StopsAgree | src/provider/anthropic_compat.rs:405-410 | both stop-reason mappings agree exactly on the reasons stop, length, tool_calls, end_turn and none |
| StreamAgreement.UsagesAgree | src/provider/anthropic_compat.rs:368-398 | with one counting usage report, the accumulated usage is the converted usage |
| StreamAgreement.StreamingAgreesWithUnaryIff | src/provider/anthropic_compat.rs:314-816 | for every conforming chunk sequence the reassembled stream equals the converted complete message if and only if there is content, no text follows a tool call and the finish reason is known |
| StreamAgreement.StreamingAgreesWithUnary | src/provider/anthropic_compat.rs:314-816 | the same for the chunks decoded from any text |
| OpenAiForms.ChunkReadsBack | src/provider/anthropic_compat.rs:580-638 | every chunk, whatever is missing from it, is read as exactly its usage, its text unless empty, its tool entries with an index, and its finish reason unless empty, in that order |
| OpenAiForms.FramingReadsBack | src/provider/anthropic_compat.rs:452-481 | a stream of `data: ` events and the end marker denotes what the payloads parse to, in order |
| OpenAiForms.PaddedLine | src/provider/anthropic_compat.rs:458-458 | space, tabulators and line ends around a line do not count |
| OpenAiForms.BareLine | src/provider/anthropic_compat.rs:459-465 | a line without the prefix is parsed as it stands, and an empty one skipped |
| OpenAiForms.FramedStreamReadsBack | src/provider/anthropic_compat.rs:440-485 | the framed text of some chunks is converted into the transcript of what the chunks say |
| OpenAiForms.ReplyReadsBack | src/provider/anthropic_compat.rs:317-366 | for every parser and reply: the text, then one tool use per call with its name and its parsed arguments, the empty object when they do not parse |
| OpenAiForms.ReplyStopReadsBack | src/provider/anthropic_compat.rs:400-410 | the stop reason for every finish reason, and the model |
| OpenAiForms.ReplyUsageReadsBack | src/provider/anthropic_compat.rs:368-431 | the usage for every form of it, standard names first: cached tokens taken out of the input, cache counts given when positive |
| RequestConvert.ConvertBlockList | src/provider/anthropic_compat.rs:145-211 | the messages of one block list: their parts and tool results are the convertible ones in order and once, their tool calls are all tool uses in order, and tool results separate the other messages |
| RequestConvert.ConvertMessages | src/provider/anthropic_compat.rs:138-217 | a request is converted message by message, string and missing content included |
| RequestConvert.ConversionIsDetermined | src/provider/anthropic_compat.rs:145-211 | that contract leaves no choice: only one list of messages meets it |
| RequestConvert.RequestIsDetermined | src/provider/anthropic_compat.rs:138-217 | nor does that of the whole request |
| AnthropicForms.BlocksReadBack | src/provider/anthropic_compat.rs:145-211 | whatever messages meet that contract carry exactly the calls (id, name, serialized input), texts, image URLs and tool results (id, content, error mark) that the blocks say, in order, a lone empty text beside tool uses apart |
| AnthropicForms.MessageReadsBack | src/provider/anthropic_compat.rs:139-144 | the role, `user` by default, and text or missing content carried over as it is |
| RequestConvert.WholeOrderKeptIff | src/provider/anthropic_compat.rs:145-211 | the messages say exactly what the blocks say, tool uses in their places, if and only if no part and no tool result follows a tool use and no lone empty text stands beside tool uses |
| RequestConvert.ConversationKeptIff | src/provider/anthropic_compat.rs:200-210 | parts and tool results, tool uses apart, are kept exactly unless a lone empty text stands beside tool uses; all tool calls are on the last message |
| RequestConvert.CompactKeepsParts | src/provider/anthropic_compat.rs:882-889 | collapsing a single text part does not change the parts that are meant |
| RequestConvert.ToolResultParts | src/provider/anthropic_compat.rs:860-878 | tool-result content stands for its convertible blocks in order |
| RequestConvert.ErrorMarkedIff | src/provider/anthropic_compat.rs:163-172 | an erroneous result is marked exactly when its content has no part or a single text part |
| Settlement.SettleUsage | src/domain/token_package.rs:118-188 | the coverage loop computes the recursive settlement for every input |
| Settlement.RawIsUnitFactorCredits | src/domain/token_package.rs:74-93 | raw units are credits with factors one for every usage, overflow included |
| Settlement.RawAccountingIsUnitFactorCredits | src/domain/token_package.rs:129-166 | with unit factors both modes give the identical breakdown for every input |
| Settlement.PackageUnitsAreUsedUp | src/domain/token_package.rs:135-174 | covered tokens weighted by factor use up the package units to within less than one, exactly in raw mode, for any factors, prices and saturation |
| Settlement.CoverageByPriority | src/domain/token_package.rs:115-116 | a component is covered only if every earlier positive-factor component is covered fully |
| Settlement.CreditsPayByKind | src/domain/token_package.rs:113-174 | with positive factors, for every reservation: the package pays for uncached input, then output, then cache reads, then cache writes, each at its own price and by its own factor |
| Settlement.RawPaysByKind | src/domain/token_package.rs:113-174 | in raw mode the same with one unit a token, whatever the factors |
| Settlement.InputIsPaidFirst | src/domain/token_package.rs:225-246 | ten tokens each of input and output and ten units: the package pays the input and the wallet the output |
| Settlement.UnitsAre | src/domain/token_package.rs:81-93 | the credits of a request: its counts by the factors given, rounded up, never negative, stopped at the largest 64-bit number; the package units are no more than reserved |
| Settlement.RawUnitsAre | src/domain/token_package.rs:74-79 | the raw units of a request: the sum of its counts, stopped in the same way |
| Settlement.FullCoverageIff | src/domain/token_package.rs:167-174 | all positive-factor tokens are covered exactly when the units suffice for their weight |
| Settlement.CostIsPricedCoverage | src/domain/token_package.rs:167-174 | the package cost is the price of the covered tokens |
| Settlement.CostIsConserved | src/domain/token_package.rs:129-179 | the package pays between nothing and the actual cost, and a metered wallet exactly the rest |
| Settlement.ConservationNeedsCacheWriteCount | src/domain/token_package.rs:118-153 | under a full raw reservation, for every usage, the package stays within the actual cost if and only if cache writes are free or the saturated units do not exceed the counts with the separate cache-write count put in |
| Settlement.WithinActualCostIff | src/domain/token_package.rs:118-179 | for every usage, mode, factors and reservation, the package stays within the actual cost if and only if the cache writes its units reach are worth no more than those passed separately plus the zero-factor tokens before them |
| Settlement.WithinActualCostAtEveryReservationIff | src/domain/token_package.rs:118-179 | the same at all reservations at once, by the condition of the full one |
| Settlement.UnequalCacheWriteOverpays | src/domain/token_package.rs:136-172 | a concrete input whose package cost exceeds the actual cost |
| Settlement.FullReservationWallet | src/domain/token_package.rs:135-179 | with a full reservation, everything with a positive factor is covered if and only if the weighted usage fits 64 bits, and then the wallet pays exactly the zero-factor components |
| Settlement.RawFullReservationIsFree | src/domain/token_package.rs:135-179 | in raw mode, whatever the factors, such a reservation leaves nothing for the wallet |
| Settlement.ExtraUnitsCost | src/domain/token_package.rs:167-174 | two runs of the loop: more units never cost less, and at most the unit-price bound more |
| Settlement.SettlementIsMonotone | src/domain/token_package.rs:135-179 | a larger reservation never lowers the package cost nor raises the wallet amount, and changes the cost by at most the largest unit price per extra unit |
| CircuitBreaking.CircuitBreaker.constructor | src/balancer/mod.rs:35-47 | a new breaker is closed with no failure |
| CircuitBreaking.CircuitBreaker.IsAvailable | src/balancer/mod.rs:54-83 | the answer is readiness, and a ready breaker that is not closed grants its one trial |
| CircuitBreaking.CircuitBreaker.IsAvailableReadonly | src/balancer/mod.rs:86-98 | the same answer with no change |
| CircuitBreaking.CircuitBreaker.SetEnabled | src/balancer/mod.rs:104-113 | switching on from off resets everything; otherwise only the flag changes |
| CircuitBreaking.CircuitBreaker.RecordSuccess | src/balancer/mod.rs:120-125 | closes and clears the trial and the failure count |
| CircuitBreaking.CircuitBreaker.RecordFailure | src/balancer/mod.rs:127-135 | counts the failure, ends the trial and opens at the threshold or from half-open |
| BalancerRuns.BreakerInvariant | src/balancer/mod.rs:54-135 | in every reachable state: half-open exactly while a trial is in flight, open knows its failure time, closed exactly with fewer than three failures since the last success or re-enabling, which it counts |
| BalancerRuns.ReadyAfterCooldownIff | src/balancer/mod.rs:69-80 | an enabled open breaker is ready from 30 seconds after its last failure on, and not before |
| BalancerRuns.CooldownHolds | src/balancer/mod.rs:54-83 | over whole runs: an open breaker stays open and its endpoint is not returned by selections within 30 seconds of its last failure, until an outcome or re-enabling |
| BalancerRuns.OpeningStartsCooldown | src/balancer/mod.rs:127-135 | whichever failure opens a breaker, its endpoint gets nothing for 30 seconds and is available after them if enabled |
| BalancerRuns.AtMostOneTrial | src/balancer/mod.rs:49-83 | once open, an endpoint is returned by at most one selection until an outcome or re-enabling |
| BalancerRuns.SelectedIff | src/balancer/mod.rs:191-236 | a ready endpoint is the one returned exactly when it is its turn by the counter |
| BalancerRuns.TrialIsUsedIff | src/balancer/mod.rs:191-202 | a cooled-down endpoint is claimed by every selection, gets a request exactly when it is its turn, and gets no other and stays unavailable until an outcome or re-enabling |
| BalancerRuns.NoTrialIsWastedIff | src/balancer/mod.rs:191-236 | no counter value makes a selection claim a trial it does not use, if and only if every ready endpoint that is not closed holds every turn |
| BalancerRuns.WholeShareIff | src/balancer/mod.rs:212-236 | without overflow, holding every turn is holding the whole share |
| BalancerRuns.TwoCooledEndpoints | src/balancer/mod.rs:191-202 | two endpoints after three failures each: one selection takes two trials and uses one |
| BalancerRuns.SelectionIsExact | src/balancer/mod.rs:191-210 | a selection succeeds exactly when an endpoint is available, and returns one that is |
| BalancerRuns.SelectionsCount | src/balancer/mod.rs:191-236 | in every run of selections, outcomes and switches whose selections find the same endpoints available, they follow consecutive counter values, with any weights and across the wrap of the counter |
| BalancerRuns.SelectionsAreFair | src/balancer/mod.rs:191-236 | in every such run each available endpoint is returned its share per cycle, exactly over whole cycles, as long as weights and counter do not overflow |
| BalancerRuns.ConfiguredWeightsAreMet | src/balancer/mod.rs:155-236 | in every run of a new balancer, whole cycles of selections among the same available endpoints return each in exact proportion to its configured weight |
| BalancerRuns.SteadyIsSameAvailable | src/balancer/mod.rs:54-125 | runs without failures and switches, from enabled breakers that are closed, are among them |
| Balancer.HealthAwareBalancer.constructor | src/balancer/mod.rs:155-178 | plain round robin for equal weights or a 32-bit weight sum of zero, weighted otherwise; one breaker per endpoint with threshold 3 and cooldown 30 |
| Balancer.HealthAwareBalancer.ClaimReady | src/balancer/mod.rs:192-194 | asks every breaker: the ready indices in order, and every ready breaker claimed |
| Balancer.HealthAwareBalancer.Select | src/balancer/mod.rs:191-202 | the returned endpoint, and the whole pool left behind |
| Balancer.HealthAwareBalancer.HasAvailableEndpoint | src/balancer/mod.rs:206-210 | whether some endpoint is ready, changing nothing |
| Balancer.HealthAwareBalancer.PickIndex | src/balancer/mod.rs:212-236 | the first candidate whose cumulative 32-bit weight exceeds the counter's position; the final fall-through is unreachable even when sums wrap; the counter advances by one and wraps |
| Balancer.HealthAwareBalancer.RecordSuccess | src/balancer/mod.rs:238-242 | only the named breaker changes; an unknown index is ignored |
| Balancer.HealthAwareBalancer.RecordFailure | src/balancer/mod.rs:244-248 | only the named breaker changes; an unknown index is ignored |
| WeightedPick.HolderIff | src/balancer/mod.rs:224-232 | a position is held by exactly the candidate whose stretch of the cumulative weights contains it |
| WeightedPick.CycleIsExact | src/balancer/mod.rs:224-232 | any W consecutive counter values pick candidate i exactly weight_i times |
| WeightedPick.PicksAreFair | src/balancer/mod.rs:224-232 | any N picks give between floor(N/W) and floor(N/W)+1 weights, and exactly N/W weights over whole cycles |
| WeightedPick.ZeroWeightNeverPicked | src/balancer/mod.rs:216-232 | no counter value picks a candidate of weight zero, if and only if the 32-bit weight sum is not zero or there is no such candidate |
| WeightedPick.RoundRobinOncePerRound | src/balancer/mod.rs:214-214 | plain round robin, the weighted one with unit weights, picks each of n candidates exactly once in any n consecutive counter values |
| WeightedPick.PickWithoutOverflow | src/balancer/mod.rs:216-232 | when the weights add up to less than 2^32, the wrapped sums make no difference |
| WeightedPick.CyclesAreFairIff | src/balancer/mod.rs:216-232 | with the sums as the machine computes them, every cycle is exact if and only if the weights do not overflow, or add up to a multiple of 2^32 and are all equal |
| WeightedPick.OverflowStarves | src/balancer/mod.rs:216-232 | concrete weights that overflow: the second candidate is never picked |
| RateLimit.RateLimiter.RateLimitTpm | src/cache/mod.rs:119-135 | the answer and the new key of the token script |
| RateLimit.RateLimiter.RateLimitRpm | src/cache/mod.rs:99-114 | the request script is the token script with one token |
| RateLimit.KeyInvariant | src/cache/mod.rs:119-127 | a counter never lacks its expiry, and one that counts is the total of a running window within the limit |
| RateLimit.AdmittedIffRoom | src/cache/mod.rs:119-127 | in every run the next request is admitted exactly when the window running at that instant, of 60 seconds, has room for its tokens |
| RateLimit.WindowAdmitsAtMostLimit | src/cache/mod.rs:119-127 | in every run, every window that was ever the latest admits at most the limit in its 60 seconds; the running one's key counts exactly that |
| RateLimit.IntervalAdmitsAtMostTwiceLessOne | src/cache/mod.rs:96-135 | any half-open 60-second interval admits at most twice the limit less one, and nothing for limit zero |
| RateLimit.BoundIsReached | src/cache/mod.rs:119-127 | for every positive limit, a run that reaches that bound |
| RateLimit.EveryMinuteWithinIff | src/cache/mod.rs:96-135 | a number bounds every 60-second interval of every run if and only if it is at least twice the limit less one; so the limit itself does exactly when it is at most one |
| Backlog.BillingBacklog.BacklogBillingRecord | src/cache/mod.rs:393-405 | one write that fails, lands, or lands without being reported: appends one entry under a new id if it lands, with no trimming |
| Backlog.BillingBacklog.BacklogBillingRecordReliably | src/cache/mod.rs:407-435 | attempts up to the first accepted one: the entries added, duplicates included, and whether the record is handed over |
| Backlog.HandOffIsAtLeastOnce | src/cache/mod.rs:407-435 | a hand-off adds only the record, under consecutive new ids, and at least once if it is accepted |
| Backlog.BillingBacklog.ReadBillingBacklog | src/cache/mod.rs:439-455 | the parsable ones among the first `count` entries |
| Backlog.BillingBacklog.AckBillingBacklog | src/cache/mod.rs:458-469 | deletes entry by entry up to the first failure |
| Backlog.BillingBacklog.DrainCycle | src/cache/mod.rs:536-574 | one cycle for any commit outcomes and a deletion that fails anywhere: what is charged and what is deleted |
| Backlog.DeleteAllIs | src/cache/mod.rs:458-469 | deleting ids in turn leaves exactly the entries with other ids, in order |
| Backlog.FaultFreeDrain | src/cache/mod.rs:536-574 | a cycle without faults deletes exactly the parsable entries of its batch |
| Backlog.CyclesReachStuck | src/cache/mod.rs:536-574 | after as many cycles as entries, exactly those behind a full batch of unparsable ones, and the unparsable ones, are left |
| Backlog.DrainedIffNotBlocked | src/cache/mod.rs:536-574 | fault-free cycles drain every parsable entry if and only if none has a full batch of unparsable ones ahead |
| Backlog.HundredPerCycle | src/cache/mod.rs:536-574 | with every entry parsable, n cycles empty the stream exactly when it holds at most 100 n entries |
| BacklogRuns.RunIsSafe | src/cache/mod.rs:388-469 | the invariant of every run with timeouts, several workers, misreported commits, partial acknowledgements and crashes |
| BacklogRuns.AcceptedIsChargedOrPending | src/cache/mod.rs:407-435 | an accepted request id has been charged exactly once, or not yet and still has an entry |
| BacklogRuns.DrainedMeansCharged | src/cache/mod.rs:536-574 | once no parsable entry is left, every accepted id has been charged exactly once |
| BacklogRuns.DeletedOnlyAfterCharge | src/cache/mod.rs:389-392 | an entry leaves the stream only after its id has been charged |
| BacklogRuns.HundredUnparsableBlock | src/cache/mod.rs:536-574 | a concrete run: a record accepted behind a hundred unparsable entries is never read by any number of cycles |
| BacklogRuns.ChargedOnceForEver | src/cache/mod.rs:411-413 | an id once charged has been charged exactly once in every later state, duplicates and retries included |
| BacklogRuns.HandOffIsSteps | src/cache/mod.rs:407-435 | the steps of a hand-off add what the method adds and hand over the record exactly when it is accepted |
| BacklogRuns.CycleIsDrainCycle | src/cache/mod.rs:536-574 | a worker's steps, undisturbed, add up to one drain cycle |
| FlowRegistry.RedisFlow.FlowSet | src/cache/mod.rs:167-200 | a set is ignored at or below the tombstone or the stored sequence, and otherwise stored and indexed |
| FlowRegistry.RedisFlow.FlowRemove | src/cache/mod.rs:204-230 | a removal is ignored below the stored sequence, and otherwise leaves a tombstone and no entry |
| FlowRegistry.RedisFlow.FlowSnapshot | src/cache/mod.rs:234-282 | an undisturbed snapshot: the counts as set sizes, and an index of exactly the keys with a readable value |
| FlowRegistry.TallyIsCounts | src/cache/mod.rs:250-272 | the tally of any listing of the keys is the size of the sets it counts |
| FlowRegistry.InFlightCoversPhases | src/cache/mod.rs:250-272 | in every snapshot in_flight is at least generating plus outputting |
| FlowTracker.Tracker.MarkAccepted | src/observability/flow_tracker.rs:95-128 | a new entry with the wall-clock sequence, and one message |
| FlowTracker.Tracker.MarkUpstreamStarted | src/observability/flow_tracker.rs:130-140 | the entry advances by one and its message is sent; an unknown request changes nothing |
| FlowTracker.Tracker.MarkFirstByte | src/observability/flow_tracker.rs:142-152 | the entry advances by one and its message is sent; an unknown request changes nothing |
| FlowTracker.Tracker.MarkCompleted | src/observability/flow_tracker.rs:154-163 | the entry goes and a removal is sent, with the largest sequence for an unknown request |
| FlowTracker.Tracker.SnapshotLocal | src/observability/flow_tracker.rs:165-183 | entries not seen for an hour go; the counts are the sizes of the classes of the others |
| FlowConvergence.DeliverySettles | src/cache/mod.rs:167-230 | under every delivery order with repetitions, the stored value is the greatest-sequence set delivered while no removal has been, and absent once one has |
| FlowConvergence.DeliveryOrderIsIrrelevant | src/cache/mod.rs:167-230 | two deliveries of the same messages agree on entry and index |
| FlowConvergence.RemovalsAreFinalIff | src/cache/mod.rs:167-230 | for any bag of messages from any number of lives: no delivery of them brings a removed entry back, if and only if no removal has a lower sequence than a set of the key |
| FlowConvergence.ReusedKeyResurrects | src/cache/mod.rs:215-219 | with a request id used twice a tracker sends messages of which one delivery leaves a completed request active |
| FlowRuns.IndexIsExact | src/cache/mod.rs:167-282 | under any interleaving with the commands of concurrent snapshots, the index is the set of active keys |
| FlowRuns.SnapshotCountsActive | src/cache/mod.rs:234-282 | whatever happens between its commands, a snapshot counts exactly the requests active all the way from listing to reading, each once and in its state when read, none of them removed by then |
| FlowRuns.OneLifeRemovalsAreFinal | src/observability/flow_tracker.rs:95-163 | as long as each key lives once, removals are final under every delivery of what the trackers send |
| FlowRuns.QuiescentRegistry | src/observability/flow_tracker.rs:95-163 | once everything sent has arrived the registry holds exactly the live requests, each with its last mark |
| FlowRuns.ClassificationAgreesIff | src/observability/flow_tracker.rs:171-180 | instance and registry classify a request alike exactly when it was marked in order |
| FlowRuns.GlobalCountsAreTheSum | src/observability/flow_tracker.rs:188-200 | the global counts are then the sum of the local ones over the instances |
| FlowRuns.EarlyFirstByteDiffers | src/observability/flow_tracker.rs:142-152 | a concrete run in which the two classifications differ |
| FlowRuns.MarksAreTrackerMarks | src/observability/flow_tracker.rs:95-163 | the marks of a run are the trackers' methods: entries and messages of the instance concerned, nothing elsewhere |
| RoutingHistory.RoutingHistoryBucketAxis | src/admin/routing.rs:211-246 | the loop yields the bucket beginnings from the truncated start up to the end, or the error of a malformed date |
| RoutingHistory.UnitIff | src/admin/routing.rs:196-209 | hours exactly for ranges below two days, days otherwise, and the error of each malformed range |
| RoutingHistory.AxisIsSpaced | src/admin/routing.rs:222-245 | the axis begins with the whole hour or day that contains the start, goes on hour by hour or day by day, and ends with the one that contains the end |
| RoutingHistory.AxisIsComplete | src/admin/routing.rs:211-246 | every instant of the range falls into exactly one axis bucket, that of its truncation |
| RoutingHistory.HourlyAxisHasAtMost49 | src/admin/routing.rs:196-246 | an hourly axis has at most 49 buckets |
| RoutingHistory.BuildSeries | src/admin/routing.rs:389-428 | each point of a series is what the rows of its channel and bucket add up to, saturating, or zero |
| RoutingHistory.SeriesIsComplete | src/admin/routing.rs:389-428 | a series adds up to all requests grouped for its channel |

## Left out

- Generated message and tool ids are erased, in both converters.
- JSON text: the parser and the serializer are parameters. The parser is any partial function that rejects `[DONE]`, which section 3 of RFC 8259 does not make a JSON value. The text of the emitted events is not modelled, only their content.
- Framing starts at decoded text. The per-chunk byte decoding of the HTTP providers, which can damage a character split between chunks, is not part of this model.
- Failing channel sends and task cancellation: every event is taken to be received.
- `usize` is 64 bits wide for tool indices and an unbounded natural for the block counter.
- StreamAgreement.StreamingAgreesWithUnaryIff: requires a conforming chunk sequence (new tool indices in increasing order, a tool named only by its first fragment, at most one usage report that counts), because without these there is no single complete message to compare with.
- The request's system prompt, tools, tool choice and scalar parameters: copied field by field.
- Decimal amounts are exact reals: the 28-digit rounding and the overflow panics of `rust_decimal` are not modelled.
- Database reservation, settlement and release of package units: not part of this model. Only the documented idempotence of the usage writer by request id is assumed.
- Weight sums wrap at 32 bits, as in release builds; a build with overflow checks stops there instead.
- BalancerRuns.SelectionsAreFair: holds up to the wrap of the 64-bit counter, where a cycle may be cut short, and for weights of the available endpoints that add up to less than 2^32. Both wraps are part of the model.
- Lock acquisition and atomics: one call on a breaker or a balancer is one step. Interleavings of breaker claims inside one selection are not modelled.
- RateLimit: one key, with exact integers for Lua numbers; a key expires at the instant its time to live ends. Redis errors are returned to the caller by the source and are not modelled.
- Stream entries with several `record` fields, and the observability stream, which has the same shape.
- BacklogRuns.AcceptedIsChargedOrPending: the record is accepted when the hand-off task sees its write succeed; a process that dies before then loses the record it holds in memory.
- Flow keys are pairs and stored values are pairs of sequence and state, not their text forms.
- Expiry of flow entries and tombstones, which bounds what a crash leaves behind, is not modelled.
- FlowConvergence.DeliverySettles: one life per key, so every removal has a greater sequence than every set. `RemovalsAreFinalIff` says exactly what is lost otherwise.
- FlowRuns.IndexIsExact: sequences stay below 2^53, as the source's own comment asks, and a request is not completed before it is accepted. The eviction of stale local entries is specified in `SnapshotLocal` but is not a step of these runs.
- The descriptive fields of an active request (model, channel, endpoint, time of acceptance): never read by the modelled code.
- RoutingHistory: the grouping query itself, its time zone, label text, percentages and the endpoint details. The series of a channel is modelled for any channel; the source lists those that occur in its statistics query.
- HTTP handlers, permissions, single sign-on, encryption, configuration polling and the database layer.

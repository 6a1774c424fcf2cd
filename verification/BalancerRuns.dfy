/** What holds over whole runs of the balancer: breaker states, trials, and fair shares. */
module BalancerRuns {
  import opened Wrappers
  import opened Ordered
  import opened Division
  import opened BoundedInts
  import opened CircuitBreaking
  import opened WeightedPick
  import opened Balancer

  datatype Event =
    | SelectAt(now: nat)
    | Success(idx: nat)
    | Failure(idx: nat, now: nat)
    | SwitchTo(idx: nat, on: bool)

  function Next(p: Pool, e: Event): (q: Pool)
    requires Sized(p)
    ensures Sized(q) && q.endpoints == p.endpoints && q.strategy == p.strategy
  {
    match e
    case SelectAt(now) => AfterSelect(p, now)
    case Success(idx) => Succeed(p, idx)
    case Failure(idx, now) => Fail(p, idx, now)
    case SwitchTo(idx, on) => Switch(p, idx, on)
  }

  function RunPool(p: Pool, es: seq<Event>): (q: Pool)
    requires Sized(p)
    ensures Sized(q) && q.endpoints == p.endpoints && q.strategy == p.strategy
  {
    if es == [] then p else Next(RunPool(p, es[..|es| - 1]), es[|es| - 1])
  }

  // ---- One breaker in a run ----

  /** What an event does to breaker `i`. */
  function BreakerStep(b: Breaker, e: Event, i: nat): Breaker {
    match e
    case SelectAt(now) => b.Claim(DEFAULT_LIMITS, now)
    case Success(idx) => if idx == i then b.Succeed() else b
    case Failure(idx, now) => if idx == i then b.Fail(DEFAULT_LIMITS, now) else b
    case SwitchTo(idx, on) => if idx == i then b.Switch(on) else b
  }

  lemma BreakersAreIndependent(p: Pool, e: Event, i: nat)
    requires Sized(p) && i < |p.breakers|
    ensures Next(p, e).breakers[i] == BreakerStep(p.breakers[i], e, i)
  {
  }

  function EnabledAfter(initially: bool, es: seq<Event>, i: nat): bool {
    if es == [] then initially
    else
      var last := es[|es| - 1];
      if last.SwitchTo? && last.idx == i then last.on else EnabledAfter(initially, es[..|es| - 1], i)
  }

  /** Failures of endpoint `i` since its last success or re-enabling. */
  function FailuresSince(initially: bool, es: seq<Event>, i: nat): nat {
    if es == [] then 0
    else
      var init, last := es[..|es| - 1], es[|es| - 1];
      var before := FailuresSince(initially, init, i);
      match last
      case Success(idx) => if idx == i then 0 else before
      case Failure(idx, _) => if idx == i then before + 1 else before
      case SwitchTo(idx, on) => if idx == i && on && !EnabledAfter(initially, init, i) then 0 else before
      case SelectAt(_) => before
  }

  /** The invariant of a breaker with `failures` failures since its last reset. */
  ghost predicate Consistent(b: Breaker, enabled: bool, failures: nat) {
    && b.enabled == enabled
    && (b.status.HalfOpen? <==> b.halfOpenInFlight)
    && (b.status.Open? ==> b.lastFailure.Some?)
    && (b.status.Closed? <==> failures < 3)
    && (b.status.Closed? ==> b.failureCount == failures)
  }

  lemma StepKeepsBreaker(b: Breaker, on: bool, init: seq<Event>, last: Event, i: nat)
    requires Consistent(b, EnabledAfter(on, init, i), FailuresSince(on, init, i))
    ensures Consistent(BreakerStep(b, last, i), EnabledAfter(on, init + [last], i), FailuresSince(on, init + [last], i))
  {
    assert (init + [last])[..|init|] == init;
  }

  /**
   * In every reachable state a breaker is half-open exactly while its trial is in flight, an open one
   * knows when it failed, and it is closed exactly while fewer than three failures have been recorded
   * since the last success or re-enabling, which a closed breaker counts.
   */
  lemma {:induction false} BreakerInvariant(endpoints: seq<Endpoint>, es: seq<Event>, i: nat)
    requires i < |endpoints|
    ensures var on := endpoints[i].enabled;
            Consistent(RunPool(NewPool(endpoints), es).breakers[i], EnabledAfter(on, es, i), FailuresSince(on, es, i))
    decreases |es|
  {
    if es != [] {
      var init, last := es[..|es| - 1], es[|es| - 1];
      var on := endpoints[i].enabled;
      BreakerInvariant(endpoints, init, i);
      BreakersAreIndependent(RunPool(NewPool(endpoints), init), last, i);
      hide Next, BreakerStep, Consistent;
      StepKeepsBreaker(RunPool(NewPool(endpoints), init).breakers[i], on, init, last, i);
      assert init + [last] == es;
    }
  }

  // ---- Selection ----

  lemma {:induction false} ReadyIndicesMeans(breakers: seq<Breaker>, now: nat)
    ensures forall i :: i in ReadyIndices(breakers, now) <==>
              0 <= i < |breakers| && breakers[i].Ready(DEFAULT_LIMITS, now)
    ensures StrictlyIncreasing(ReadyIndices(breakers, now))
    decreases |breakers|
  {
    if breakers != [] {
      ReadyIndicesMeans(breakers[..|breakers| - 1], now);
    }
  }

  /** Selection succeeds exactly when some endpoint is available, and returns one that is. */
  lemma SelectionIsExact(p: Pool, now: nat)
    requires Sized(p)
    ensures Selected(p, now).Some? <==> HasAvailable(p, now)
    ensures Selected(p, now).Some? ==>
            Selected(p, now).value < |p.breakers| && p.breakers[Selected(p, now).value].Ready(DEFAULT_LIMITS, now)
  {
    var ready := ReadyIndices(p.breakers, now);
    ReadyIndicesMeans(p.breakers, now);
    if ready != [] {
      assert ready[PickedIndex(p, ready)] in ready;
      assert ready[0] in ready;
    }
    hide ReadyIndices;
  }

  // ---- Trials ----

  /** No outcome is reported for endpoint `i` and it is not switched on. */
  ghost predicate Quiet(es: seq<Event>, i: nat) {
    forall k :: 0 <= k < |es| ==>
      match es[k]
      case SelectAt(_) => true
      case Success(idx) => idx != i
      case Failure(idx, _) => idx != i
      case SwitchTo(idx, on) => idx != i || !on
  }

  /** How many selections of a run return endpoint `i`. */
  function Returned(p: Pool, es: seq<Event>, i: nat): nat
    requires Sized(p)
  {
    if es == [] then 0
    else
      var init, last := es[..|es| - 1], es[|es| - 1];
      Returned(p, init, i) + if last.SelectAt? && Selected(RunPool(p, init), last.now) == Some(i) then 1 else 0
  }

  lemma {:induction false} TrialCount(p: Pool, es: seq<Event>, i: nat)
    requires Sized(p) && i < |p.breakers| && Quiet(es, i)
    requires !p.breakers[i].status.Closed?
    requires p.breakers[i].status.HalfOpen? <==> p.breakers[i].halfOpenInFlight
    ensures var b := RunPool(p, es).breakers[i];
            && !b.status.Closed? && (b.status.HalfOpen? <==> b.halfOpenInFlight)
            && Returned(p, es, i) <= (if b.status.HalfOpen? && p.breakers[i].status.Open? then 1 else 0)
            && (p.breakers[i].status.HalfOpen? ==> b.status.HalfOpen?)
    decreases |es|
  {
    if es != [] {
      var init, last := es[..|es| - 1], es[|es| - 1];
      assert Quiet(init, i);
      TrialCount(p, init, i);
      var q := RunPool(p, init);
      BreakersAreIndependent(q, last, i);
      if last.SelectAt? {
        SelectionIsExact(q, last.now);
      }
      hide Next, Selected;
    }
  }

  /** Once open, an endpoint is returned by at most one selection until an outcome or re-enabling. */
  lemma AtMostOneTrial(p: Pool, es: seq<Event>, i: nat)
    requires Sized(p) && i < |p.breakers| && Quiet(es, i)
    requires p.breakers[i].status.Open? && !p.breakers[i].halfOpenInFlight
    ensures Returned(p, es, i) <= 1
  {
    TrialCount(p, es, i);
  }

  lemma RunFirst(p: Pool, e: Event)
    requires Sized(p)
    ensures RunPool(p, [e]) == Next(p, e)
    ensures forall i: nat :: Returned(p, [e], i) == if e.SelectAt? && Selected(p, e.now) == Some(i) then 1 else 0
  {
    assert [e][..0] == [];
    hide Next, Selected;
  }

  /** A run after its first event. */
  lemma {:induction false} RunRest(p: Pool, e: Event, es: seq<Event>, i: nat)
    requires Sized(p)
    ensures RunPool(p, [e] + es) == RunPool(Next(p, e), es)
    ensures Returned(p, [e] + es, i) == Returned(p, [e], i) + Returned(Next(p, e), es, i)
    decreases |es|
  {
    RunFirst(p, e);
    hide Next, Selected;
    if es == [] {
      assert [e] + es == [e];
    } else {
      var n := |es| - 1;
      assert ([e] + es)[..n + 1] == [e] + es[..n];
      RunRest(p, e, es[..n], i);
    }
  }

  /** Whether it is the turn of candidate `k` at the present counter value. */
  predicate TurnOf(p: Pool, candidates: seq<nat>, k: nat)
    requires k < |candidates| && forall j :: 0 <= j < |candidates| ==> candidates[j] < |p.endpoints|
  {
    var ws := CandidateWeights(p.endpoints, candidates);
    var total := WrappedPrefix(ws, |ws|);
    if p.strategy.RoundRobin? || total == 0 then p.counter % |candidates| == k
    else Within(ws, k, p.counter % total)
  }

  /** Whether `pos` is above all wrapped sums before candidate `k`, and below that with it. */
  predicate Within(ws: seq<nat>, k: nat, pos: nat)
    requires k < |ws|
  {
    pos < WrappedPrefix(ws, k + 1) && forall j :: 0 < j <= k ==> WrappedPrefix(ws, j) <= pos
  }

  /** A selection returns a ready endpoint exactly when it is its turn. */
  lemma SelectedIff(p: Pool, now: nat, k: nat)
    requires Sized(p) && k < |ReadyIndices(p.breakers, now)|
    ensures var ready := ReadyIndices(p.breakers, now);
            Selected(p, now) == Some(ready[k]) <==> TurnOf(p, ready, k)
  {
    var ready := ReadyIndices(p.breakers, now);
    ReadyIndicesMeans(p.breakers, now);
    TurnIff(p, ready, k);
    hide ReadyIndices, PickedIndex, TurnOf;
    var i := PickedIndex(p, ready);
    assert i < k ==> ready[i] < ready[k];
    assert k < i ==> ready[k] < ready[i];
  }

  lemma TurnIff(p: Pool, candidates: seq<nat>, k: nat)
    requires k < |candidates| && forall j :: 0 <= j < |candidates| ==> candidates[j] < |p.endpoints|
    ensures PickedIndex(p, candidates) == k <==> TurnOf(p, candidates, k)
  {
    hide WrappedPrefix, FirstAbove, CandidateWeights;
    var ws := CandidateWeights(p.endpoints, candidates);
    if p.strategy.WeightedRoundRobin? && WrappedPrefix(ws, |ws|) != 0 {
      FirstAboveIff(ws, p.counter % WrappedPrefix(ws, |ws|), k);
    }
  }

  /**
   * A selection claims the trial of every cooled-down endpoint. The trial is used exactly when it is
   * that endpoint's turn, and whether used or not there is no other until someone reports an outcome
   * for the endpoint or switches it on: until then the endpoint stays unavailable.
   */
  lemma TrialIsUsedIff(p: Pool, now: nat, es: seq<Event>, k: nat, later: nat)
    requires Sized(p) && k < |ReadyIndices(p.breakers, now)|
    requires p.breakers[ReadyIndices(p.breakers, now)[k]].status.Open?
    requires Quiet(es, ReadyIndices(p.breakers, now)[k])
    ensures var ready := ReadyIndices(p.breakers, now);
            var i, run := ready[k], [SelectAt(now)] + es;
            && Returned(p, run, i) == (if TurnOf(p, ready, k) then 1 else 0)
            && !RunPool(p, run).breakers[i].Ready(DEFAULT_LIMITS, later)
  {
    var ready := ReadyIndices(p.breakers, now);
    var i := ready[k];
    ReadyIndicesMeans(p.breakers, now);
    assert i in ready;
    SelectedIff(p, now, k);
    RunFirst(p, SelectAt(now));
    RunRest(p, SelectAt(now), es, i);
    TrialCount(AfterSelect(p, now), es, i);
    hide TurnOf, Selected, RunPool, Returned, ReadyIndices;
  }

  /** Whether candidate `k` is picked whatever the counter. */
  predicate HoldsEveryTurn(p: Pool, candidates: seq<nat>, k: nat)
    requires k < |candidates| && forall j :: 0 <= j < |candidates| ==> candidates[j] < |p.endpoints|
  {
    var ws := CandidateWeights(p.endpoints, candidates);
    var total := WrappedPrefix(ws, |ws|);
    if p.strategy.RoundRobin? || total == 0 then |candidates| == 1
    else total <= WrappedPrefix(ws, k + 1) && forall j :: 0 < j <= k ==> WrappedPrefix(ws, j) == 0
  }

  lemma EveryTurnIff(p: Pool, candidates: seq<nat>, k: nat)
    requires k < |candidates| && forall j :: 0 <= j < |candidates| ==> candidates[j] < |p.endpoints|
    requires |candidates| < U64_LIMIT
    ensures (forall c: u64 :: TurnOf(p.(counter := c), candidates, k)) <==> HoldsEveryTurn(p, candidates, k)
  {
    var ws := CandidateWeights(p.endpoints, candidates);
    var total := WrappedPrefix(ws, |ws|);
    assert total < U32_LIMIT;
    hide CandidateWeights, WrappedPrefix, Within;
    if p.strategy.RoundRobin? || total == 0 {
      RoundTurns(p, candidates, k);
    } else {
      EveryPosition(ws, k, total);
      forall pos: nat | pos < total
        ensures TurnOf(p.(counter := pos), candidates, k) <==> Within(ws, k, pos)
      {
        DivisionUnique(pos, 0, pos, total);
      }
    }
  }

  lemma EveryPosition(ws: seq<nat>, k: nat, total: nat)
    requires k < |ws| && total > 0
    ensures (forall pos: nat :: pos < total ==> Within(ws, k, pos)) <==>
            total <= WrappedPrefix(ws, k + 1) && forall j :: 0 < j <= k ==> WrappedPrefix(ws, j) == 0
  {
    hide WrappedPrefix;
    if forall pos: nat :: pos < total ==> Within(ws, k, pos) {
      assert Within(ws, k, 0);
      assert Within(ws, k, total - 1);
    }
  }

  lemma RoundTurnIff(p: Pool, candidates: seq<nat>, k: nat, c: u64)
    requires k < |candidates| && forall j :: 0 <= j < |candidates| ==> candidates[j] < |p.endpoints|
    requires var ws := CandidateWeights(p.endpoints, candidates);
             p.strategy.RoundRobin? || WrappedPrefix(ws, |ws|) == 0
    ensures TurnOf(p.(counter := c), candidates, k) <==> c % |candidates| == k
  {
    hide CandidateWeights, WrappedPrefix, Within;
  }

  lemma SmallRemainder(c: nat, n: nat)
    requires c < n
    ensures c % n == c
  {
    DivisionUnique(c, 0, c, n);
  }

  lemma RoundTurns(p: Pool, candidates: seq<nat>, k: nat)
    requires k < |candidates| < U64_LIMIT && forall j :: 0 <= j < |candidates| ==> candidates[j] < |p.endpoints|
    requires var ws := CandidateWeights(p.endpoints, candidates);
             p.strategy.RoundRobin? || WrappedPrefix(ws, |ws|) == 0
    ensures (forall c: u64 :: TurnOf(p.(counter := c), candidates, k)) <==> |candidates| == 1
  {
    var n := |candidates|;
    RoundTurnIff(p, candidates, k, 0);
    RoundTurnIff(p, candidates, k, 1);
    SmallRemainder(0, n);
    if n > 1 {
      SmallRemainder(1, n);
    } else {
      forall c: u64
        ensures TurnOf(p.(counter := c), candidates, k)
      {
        RoundTurnIff(p, candidates, k, c);
      }
    }
    hide TurnOf, CandidateWeights, WrappedPrefix;
  }

  /** No selection at `now`, whatever the counter, claims the trial of an endpoint that it does not return. */
  ghost predicate NoTrialIsWasted(p: Pool, now: nat)
    requires Sized(p)
  {
    var ready := ReadyIndices(p.breakers, now);
    forall c: u64, k: nat :: k < |ready| && !p.breakers[ready[k]].status.Closed? ==>
      Selected(p.(counter := c), now) == Some(ready[k])
  }

  /**
   * No trial is wasted, whatever the counter, if and only if every ready endpoint that is not closed
   * is picked every time: it is the only one, or the first with any weight and the wrapped total does
   * not exceed its weight.
   */
  lemma NoTrialIsWastedIff(p: Pool, now: nat)
    requires Sized(p) && |p.endpoints| < U64_LIMIT
    ensures var ready := ReadyIndices(p.breakers, now);
            NoTrialIsWasted(p, now) <==>
            forall k: nat :: k < |ready| && !p.breakers[ready[k]].status.Closed? ==> HoldsEveryTurn(p, ready, k)
  {
    var ready := ReadyIndices(p.breakers, now);
    ReadyCount(p.breakers, now);
    forall c: u64, k: nat | k < |ready|
      ensures Selected(p.(counter := c), now) == Some(ready[k]) <==> TurnOf(p.(counter := c), ready, k)
    {
      SelectedIff(p.(counter := c), now, k);
    }
    forall k: nat | k < |ready|
      ensures (forall c: u64 :: TurnOf(p.(counter := c), ready, k)) <==> HoldsEveryTurn(p, ready, k)
    {
      EveryTurnIff(p, ready, k);
    }
    hide ReadyIndices, Selected, TurnOf, HoldsEveryTurn;
  }

  lemma {:induction false} ReadyCount(breakers: seq<Breaker>, now: nat)
    ensures |ReadyIndices(breakers, now)| <= |breakers|
    decreases |breakers|
  {
    if breakers != [] {
      ReadyCount(breakers[..|breakers| - 1], now);
    }
  }

  /** Without overflow, being picked every time means holding the whole share. */
  lemma WholeShareIff(p: Pool, candidates: seq<nat>, k: nat)
    requires k < |candidates| && forall j :: 0 <= j < |candidates| ==> candidates[j] < |p.endpoints|
    requires Sum(CandidateWeights(p.endpoints, candidates)) < U32_LIMIT
    ensures var ws := Shares(p, candidates);
            HoldsEveryTurn(p, candidates, k) <==> ws[k] == Sum(ws)
  {
    var ws := CandidateWeights(p.endpoints, candidates);
    PrefixIsSum(ws);
    OnesSum(|candidates|);
    forall j: nat | j <= |ws|
      ensures WrappedPrefix(ws, j) == Prefix(ws, j)
    {
      PrefixWithoutOverflow(ws, j);
    }
    forall j: nat | j <= k
      ensures Prefix(ws, j) <= Prefix(ws, k)
    {
      PrefixMonotone(ws, j, k);
    }
    assert Prefix(ws, k + 1) == Prefix(ws, k) + ws[k];
    PrefixMonotone(ws, k + 1, |ws|);
    assert Prefix(ws, 0) == 0;
    hide Prefix, WrappedPrefix, Sum, CandidateWeights;
  }

  lemma RunExtend(p: Pool, es: seq<Event>, e: Event)
    requires Sized(p)
    ensures RunPool(p, es + [e]) == Next(RunPool(p, es), e)
  {
    assert (es + [e])[..|es|] == es;
  }

  const TWO_ALIKE := [Endpoint(1, true), Endpoint(1, true)]

  function Both(a: Breaker, b: Breaker): Pool {
    Pool(TWO_ALIKE, RoundRobin, [a, b], 0)
  }

  /** A breaker after `n` failures, up to its threshold. */
  function Failed(n: u32): Breaker {
    Breaker(true, if n < DEFAULT_LIMITS.threshold then Closed else Open, n, if n == 0 then None else Some(0), false)
  }

  lemma OneMoreFailure(m: nat, n: nat)
    requires m < 3 && n <= 3
    ensures Fail(Both(Failed(m), Failed(n)), 0, 0) == Both(Failed(m + 1), Failed(n))
    ensures Fail(Both(Failed(n), Failed(m)), 1, 0) == Both(Failed(n), Failed(m + 1))
  {
  }

  /** Some failures of each of two fresh endpoints. */
  function Failures(m: nat, n: nat): seq<Event>
    decreases m + n
  {
    if n > 0 then Failures(m, n - 1) + [Failure(1, 0)]
    else if m > 0 then Failures(m - 1, 0) + [Failure(0, 0)]
    else []
  }

  lemma {:induction false} AfterFailures(m: nat, n: nat)
    requires m <= 3 && n <= 3
    ensures RunPool(NewPool(TWO_ALIKE), Failures(m, n)) == Both(Failed(m), Failed(n))
    decreases m + n
  {
    var p := NewPool(TWO_ALIKE);
    assert p == Both(Failed(0), Failed(0));
    hide Fail, Failed, Both;
    if n > 0 {
      AfterFailures(m, n - 1);
      RunExtend(p, Failures(m, n - 1), Failure(1, 0));
      OneMoreFailure(n - 1, m);
    } else if m > 0 {
      AfterFailures(m - 1, 0);
      RunExtend(p, Failures(m - 1, 0), Failure(0, 0));
      OneMoreFailure(m - 1, 0);
    }
  }

  /**
   * Two endpoints that have failed three times each: the first selection after the cooldown takes both
   * trials and uses one.
   */
  lemma TwoCooledEndpoints()
    ensures var p, now := RunPool(NewPool(TWO_ALIKE), Failures(3, 3)), 30 * NANOS_PER_SEC;
            && Selected(p, now) == Some(0)
            && AfterSelect(p, now).breakers[1] == Breaker(true, HalfOpen, 0, Some(0), true)
            && !NoTrialIsWasted(p, now)
  {
    var open := Breaker(true, Open, 3, Some(0), false);
    var p, now := Pool(TWO_ALIKE, RoundRobin, [open, open], 0), 30 * NANOS_PER_SEC;
    AfterFailures(3, 3);
    assert p == Both(Failed(3), Failed(3));
    assert open.Ready(DEFAULT_LIMITS, now);
    assert p.breakers[..1] == [open] && [open][..0] == [];
    assert ReadyIndices([open], now) == [0];
    assert ReadyIndices(p.breakers, now) == [0, 1];
    hide RunPool;
    assert p.(counter := 0) == p;
    assert Selected(p.(counter := 0), now) != Some(ReadyIndices(p.breakers, now)[1]);
  }

  // ---- The cooldown ----

  /** An enabled open breaker is ready from 30 seconds after its last failure on, and not before. */
  lemma ReadyAfterCooldownIff(b: Breaker, failed: nat, now: nat)
    requires b.enabled && b.status.Open? && b.lastFailure == Some(failed)
    ensures b.Ready(DEFAULT_LIMITS, now) <==> now >= failed + 30_000_000_000
  {
  }

  /** Every selection of the run is before the cooldown of a failure at `failed` is over. */
  ghost predicate DuringCooldown(es: seq<Event>, failed: nat) {
    forall k :: 0 <= k < |es| && es[k].SelectAt? ==> es[k].now < failed + 30_000_000_000
  }

  /**
   * The cooldown over whole runs: an open breaker stays open, and its endpoint is not returned, as long
   * as selections come within 30 seconds of its last failure and nobody reports an outcome for it or
   * switches it on.
   */
  lemma {:induction false} CooldownHolds(p: Pool, es: seq<Event>, i: nat, failed: nat)
    requires Sized(p) && i < |p.breakers| && Quiet(es, i) && DuringCooldown(es, failed)
    requires p.breakers[i].status.Open? && p.breakers[i].lastFailure == Some(failed)
    ensures var b := RunPool(p, es).breakers[i];
            b.status.Open? && b.lastFailure == Some(failed) && (b.enabled ==> p.breakers[i].enabled)
    ensures Returned(p, es, i) == 0
    decreases |es|
  {
    if es != [] {
      var init, last := es[..|es| - 1], es[|es| - 1];
      CooldownHolds(p, init, i, failed);
      var q := RunPool(p, init);
      BreakersAreIndependent(q, last, i);
      if last.SelectAt? {
        SelectionIsExact(q, last.now);
        if q.breakers[i].enabled {
          ReadyAfterCooldownIff(q.breakers[i], failed, last.now);
        }
      }
      hide Next, Selected;
    }
  }

  /**
   * From the third failure on: whichever report opens a breaker at `failed`, its endpoint gets nothing
   * for 30 seconds, and is available again after them if it is enabled.
   */
  lemma OpeningStartsCooldown(p: Pool, i: nat, failed: nat, es: seq<Event>, now: nat)
    requires Sized(p) && i < |p.breakers| && Next(p, Failure(i, failed)).breakers[i].status.Open?
    requires Quiet(es, i) && DuringCooldown(es, failed)
    ensures var q := Next(p, Failure(i, failed));
            && Returned(q, es, i) == 0
            && (RunPool(q, es).breakers[i].enabled ==>
                  (RunPool(q, es).breakers[i].Ready(DEFAULT_LIMITS, now) <==> now >= failed + 30_000_000_000))
  {
    var q := Next(p, Failure(i, failed));
    BreakersAreIndependent(p, Failure(i, failed), i);
    hide Next;
    CooldownHolds(q, es, i, failed);
    var b := RunPool(q, es).breakers[i];
    if b.enabled {
      ReadyAfterCooldownIff(b, failed, now);
    }
  }

  // ---- Fair shares ----

  /** The share of each ready endpoint in one cycle. */
  function Shares(p: Pool, candidates: seq<nat>): (ws: seq<nat>)
    requires forall k :: 0 <= k < |candidates| ==> candidates[k] < |p.endpoints|
    ensures |ws| == |candidates|
  {
    var ws := CandidateWeights(p.endpoints, candidates);
    if p.strategy.RoundRobin? || Sum(ws) == 0 then Ones(|candidates|) else ws
  }

  /** The weights of the candidates, where they matter, add up without overflow. */
  predicate SharesFit(p: Pool, candidates: seq<nat>)
    requires forall k :: 0 <= k < |candidates| ==> candidates[k] < |p.endpoints|
  {
    p.strategy.RoundRobin? || Sum(CandidateWeights(p.endpoints, candidates)) < U32_LIMIT
  }

  lemma PickedByShare(p: Pool, candidates: seq<nat>)
    requires candidates != [] && forall k :: 0 <= k < |candidates| ==> candidates[k] < |p.endpoints|
    requires SharesFit(p, candidates)
    ensures Sum(Shares(p, candidates)) > 0
    ensures PickedIndex(p, candidates) == Pick(Shares(p, candidates), p.counter)
  {
    OnesSum(|candidates|);
    RoundRobinIsUnitWeights(|candidates|, p.counter);
    if p.strategy.WeightedRoundRobin? {
      PickWithoutOverflow(CandidateWeights(p.endpoints, candidates), p.counter);
    }
    hide Sum, Ones, Holder, PickWrapped;
  }

  /** The number of selections in a run. */
  function Selections(es: seq<Event>): nat {
    if es == [] then 0 else Selections(es[..|es| - 1]) + if es[|es| - 1].SelectAt? then 1 else 0
  }

  /** Every selection of the run finds exactly `ready` available, whatever happens to breakers in between. */
  ghost predicate SameAvailable(p: Pool, es: seq<Event>, ready: seq<nat>)
    requires Sized(p)
  {
    forall j :: 0 <= j < |es| ==> Finds(p, es[..j], es[j], ready)
  }

  /** Whether event `e` after a run, if it is a selection, finds exactly `ready` available. */
  predicate Finds(p: Pool, before: seq<Event>, e: Event, ready: seq<nat>)
    requires Sized(p)
  {
    e.SelectAt? ==> ReadyIndices(RunPool(p, before).breakers, e.now) == ready
  }

  predicate IndicesIn(p: Pool, ready: seq<nat>) {
    forall j :: 0 <= j < |ready| ==> ready[j] < |p.endpoints|
  }

  /** The counter value of the selection after `n` others; the counter wraps at 64 bits. */
  function CounterAfter(p: Pool, n: nat): u64 {
    (p.counter + n) % U64_LIMIT
  }

  lemma OneMoreCount(p: Pool, n: nat)
    ensures CounterAfter(p, n + 1) == (CounterAfter(p, n) + 1) % U64_LIMIT
  {
  }

  /** How many of `n` picks from the present counter on are of candidate `k`. */
  function Turns(p: Pool, ready: seq<nat>, n: nat, k: nat): nat
    requires ready != [] && IndicesIn(p, ready)
  {
    if n == 0 then 0
    else Turns(p, ready, n - 1, k) + if PickedIndex(p.(counter := CounterAfter(p, n - 1)), ready) == k then 1 else 0
  }

  lemma SameAvailablePrefix(p: Pool, es: seq<Event>, ready: seq<nat>)
    requires Sized(p) && es != [] && SameAvailable(p, es, ready)
    ensures var n := |es| - 1;
            && SameAvailable(p, es[..n], ready)
            && Finds(p, es[..n], es[n], ready)
  {
    var n := |es| - 1;
    hide Finds;
    forall j | 0 <= j < n
      ensures Finds(p, es[..n][..j], es[..n][j], ready)
    {
      assert es[..n][..j] == es[..j];
    }
  }

  lemma OtherEventsKeepCounter(p: Pool, e: Event)
    requires Sized(p) && !e.SelectAt?
    ensures Next(p, e).counter == p.counter
  {
  }

  /** A selection that finds `ready` available: which candidate, and the counter it leaves. */
  lemma SelectionAmong(p: Pool, now: nat, ready: seq<nat>, k: nat)
    requires Sized(p) && ReadyIndices(p.breakers, now) == ready && k < |ready|
    ensures IndicesIn(p, ready)
    ensures AfterSelect(p, now).counter == (p.counter + 1) % U64_LIMIT
    ensures Selected(p, now) == Some(ready[k]) <==> PickedIndex(p, ready) == k
  {
    ReadyIndicesMeans(p.breakers, now);
    hide ReadyIndices, PickedIndex;
    var i := PickedIndex(p, ready);
    assert i < k ==> ready[i] < ready[k];
    assert k < i ==> ready[k] < ready[i];
  }

  lemma SamePicked(p: Pool, q: Pool, ready: seq<nat>)
    requires ready != [] && IndicesIn(p, ready) && q.endpoints == p.endpoints && q.strategy == p.strategy
    ensures PickedIndex(q, ready) == PickedIndex(p.(counter := q.counter), ready)
  {
  }

  /**
   * In every run of selections, outcomes and switches in which the selections find the same endpoints
   * available, they follow consecutive counter values: with any weights, and across the wrap of the
   * counter.
   */
  lemma {:induction false} SelectionsCount(p: Pool, es: seq<Event>, ready: seq<nat>, k: nat)
    requires Sized(p) && k < |ready| && IndicesIn(p, ready) && SameAvailable(p, es, ready)
    ensures RunPool(p, es).counter == CounterAfter(p, Selections(es))
    ensures Returned(p, es, ready[k]) == Turns(p, ready, Selections(es), k)
    decreases |es|
  {
    hide ReadyIndices, Next, Selected, PickedIndex, SameAvailable, IndicesIn, CounterAfter;
    if es == [] {
      NoCount(p);
    } else {
      var n := |es| - 1;
      var init, last := es[..n], es[n];
      SameAvailablePrefix(p, es, ready);
      SelectionsCount(p, init, ready, k);
      var q := RunPool(p, init);
      if last.SelectAt? {
        SelectionStep(q, last, ready, k);
        SamePicked(p, q, ready);
        OneMoreCount(p, Selections(init));
      } else {
        OtherEventsKeepCounter(q, last);
      }
    }
  }

  lemma SelectionStep(q: Pool, e: Event, ready: seq<nat>, k: nat)
    requires Sized(q) && e.SelectAt? && ReadyIndices(q.breakers, e.now) == ready && k < |ready|
    ensures IndicesIn(q, ready)
    ensures Next(q, e).counter == (q.counter + 1) % U64_LIMIT
    ensures Selected(q, e.now) == Some(ready[k]) <==> PickedIndex(q, ready) == k
  {
    SelectionAmong(q, e.now, ready, k);
    hide ReadyIndices, Selected, PickedIndex, AfterSelect, IndicesIn;
  }

  lemma NoCount(p: Pool)
    ensures CounterAfter(p, 0) == p.counter
  {
  }

  /** Without overflow and wrap, the turns are the picks of the shares. */
  lemma {:induction false} TurnsAreShares(p: Pool, ready: seq<nat>, n: nat, k: nat)
    requires ready != [] && IndicesIn(p, ready) && SharesFit(p, ready) && p.counter + n <= U64_LIMIT
    ensures Turns(p, ready, n, k) == Picks(Shares(p, ready), p.counter, n, k)
    decreases n
  {
    hide Shares, SharesFit, PickedIndex, Pick;
    if n > 0 {
      TurnsAreShares(p, ready, n - 1, k);
      var q := p.(counter := CounterAfter(p, n - 1));
      assert q.counter == p.counter + (n - 1);
      SameShares(p, q, ready);
      PickedByShare(q, ready);
    }
  }

  lemma SameShares(p: Pool, q: Pool, ready: seq<nat>)
    requires IndicesIn(p, ready) && q.endpoints == p.endpoints && q.strategy == p.strategy
    ensures IndicesIn(q, ready) && Shares(q, ready) == Shares(p, ready)
    ensures SharesFit(q, ready) <==> SharesFit(p, ready)
  {
    hide Sum, Ones;
  }

  /**
   * Fairness of the balancer: in such a run each available endpoint is returned its share per cycle,
   * exactly over whole cycles, as long as neither the weights nor the counter overflow.
   */
  lemma SelectionsAreFair(p: Pool, es: seq<Event>, ready: seq<nat>, k: nat)
    requires Sized(p) && k < |ready| && IndicesIn(p, ready) && SameAvailable(p, es, ready)
    requires SharesFit(p, ready) && p.counter + Selections(es) <= U64_LIMIT
    ensures var ws := Shares(p, ready);
            && Sum(ws) > 0
            && Returned(p, es, ready[k]) == Picks(ws, p.counter, Selections(es), k)
            && FairShare(Returned(p, es, ready[k]), Selections(es), ws, k)
  {
    hide FairShare, Shares, SharesFit, Sum, Picks, Turns, Returned, RunPool, SameAvailable, PickedIndex;
    SelectionsCount(p, es, ready, k);
    TurnsAreShares(p, ready, Selections(es), k);
    PickedByShare(p, ready);
    PicksAreFair(Shares(p, ready), p.counter, Selections(es), k);
  }

  lemma {:induction false} OneOfSum(ws: seq<nat>, i: nat)
    requires i < |ws|
    ensures ws[i] <= Sum(ws)
    decreases |ws|
  {
    if i > 0 {
      OneOfSum(ws[1..], i - 1);
    }
  }

  /** A balancer with equal weights goes round robin, and any other by weight. */
  lemma SharesAsConfigured(endpoints: seq<Endpoint>, p: Pool, ready: seq<nat>, k: nat)
    requires p.endpoints == endpoints && p.strategy == StrategyFor(endpoints)
    requires k < |ready| && IndicesIn(p, ready)
    requires Sum(Weights(endpoints)) < U32_LIMIT && Sum(CandidateWeights(endpoints, ready)) > 0
    ensures var w := endpoints[ready[k]].weight;
            && Shares(p, ready)[k] * Sum(CandidateWeights(endpoints, ready)) == Sum(Shares(p, ready)) * w
            && exists c: nat :: Sum(CandidateWeights(endpoints, ready)) == c * Sum(Shares(p, ready))
  {
    var ws := CandidateWeights(endpoints, ready);
    if p.strategy.WeightedRoundRobin? {
      assert Sum(ws) == 1 * Sum(Shares(p, ready));
    } else {
      RoundRobinMeans(endpoints, ready);
      EqualSum(ws, ws[0]);
      OnesSum(|ready|);
      assert Shares(p, ready) == Ones(|ready|);
      OnesAt(|ready|, k);
      assert ws[k] == ws[0] == endpoints[ready[k]].weight;
      assert Sum(ws) == |ready| * ws[0] == ws[0] * Sum(Shares(p, ready));
    }
  }

  lemma RoundRobinMeans(endpoints: seq<Endpoint>, ready: seq<nat>)
    requires StrategyFor(endpoints).RoundRobin? && Sum(Weights(endpoints)) < U32_LIMIT
    requires forall j :: 0 <= j < |ready| ==> ready[j] < |endpoints|
    requires Sum(CandidateWeights(endpoints, ready)) > 0
    ensures forall i, j :: 0 <= i < |ready| && 0 <= j < |ready| ==>
              CandidateWeights(endpoints, ready)[i] == CandidateWeights(endpoints, ready)[j]
  {
    var ws := CandidateWeights(endpoints, ready);
    if Sum(Weights(endpoints)) == 0 {
      forall j | 0 <= j < |ready|
        ensures ws[j] == 0
      {
        OneOfSum(Weights(endpoints), ready[j]);
      }
      EqualSum(ws, 0);
      assert false;
    }
    hide Sum;
  }

  /**
   * The configured weights are met: in every run of a new balancer, over selections that find the same
   * endpoints available and make up whole cycles, each of these is returned in exact proportion to its
   * weight among them.
   */
  lemma ConfiguredWeightsAreMet(
    endpoints: seq<Endpoint>, before: seq<Event>, es: seq<Event>, ready: seq<nat>, k: nat)
    requires k < |ready| && forall j :: 0 <= j < |ready| ==> ready[j] < |endpoints|
    requires SameAvailable(RunPool(NewPool(endpoints), before), es, ready)
    requires RunPool(NewPool(endpoints), before).counter + Selections(es) <= U64_LIMIT
    requires Sum(Weights(endpoints)) < U32_LIMIT
    requires 0 < Sum(CandidateWeights(endpoints, ready)) < U32_LIMIT
    requires Selections(es) % Sum(CandidateWeights(endpoints, ready)) == 0
    ensures Returned(RunPool(NewPool(endpoints), before), es, ready[k]) * Sum(CandidateWeights(endpoints, ready))
         == Selections(es) * endpoints[ready[k]].weight
  {
    var p := RunPool(NewPool(endpoints), before);
    SelectionsAreFair(p, es, ready, k);
    SharesAsConfigured(endpoints, p, ready, k);
    var total, n, share := Sum(CandidateWeights(endpoints, ready)), Selections(es), Sum(Shares(p, ready));
    var c: nat :| total == c * share;
    hide Sum, Shares, CandidateWeights, Returned, RunPool, NewPool, SameAvailable, Picks, Weights, Selections;
    WholeShares(n, total, c, share);
    Scale(Returned(p, es, ready[k]), n, share, Shares(p, ready)[k], total, endpoints[ready[k]].weight);
  }

  /** A multiple of all weights is one of all shares. */
  lemma WholeShares(n: nat, total: nat, c: nat, share: nat)
    requires total > 0 && share > 0 && total == c * share && n % total == 0
    ensures n % share == 0
  {
    var q := n / total;
    assert n == q * total;
    assert n == (q * c) * share;
    DivisionUnique(n, q * c, 0, share);
  }

  lemma Scale(returned: nat, n: nat, share: nat, part: nat, total: nat, w: nat)
    requires share > 0 && n % share == 0 && returned == n / share * part
    requires part * total == share * w
    ensures returned * total == n * w
  {
    var q := n / share;
    assert n == q * share;
    assert returned * total == q * (part * total) == q * (share * w) == n * w;
  }

  // ---- When the same endpoints stay available ----

  /** Every enabled breaker is closed. */
  predicate Steady(p: Pool) {
    forall i :: 0 <= i < |p.breakers| ==> !p.breakers[i].enabled || p.breakers[i].status.Closed?
  }

  lemma {:induction false} SteadyReady(a: seq<Breaker>, b: seq<Breaker>, now: nat, later: nat)
    requires |a| == |b|
    requires forall i :: 0 <= i < |a| ==> a[i].enabled == b[i].enabled
    requires forall i :: 0 <= i < |a| && a[i].enabled ==> a[i].status.Closed? && b[i].status.Closed?
    ensures ReadyIndices(a, now) == ReadyIndices(b, later)
    decreases |a|
  {
    if a != [] {
      var n := |a| - 1;
      SteadyReady(a[..n], b[..n], now, later);
    }
  }

  /** Selections and successes. */
  ghost predicate NothingFails(es: seq<Event>) {
    forall j :: 0 <= j < |es| ==> es[j].SelectAt? || es[j].Success?
  }

  lemma {:induction false} StaysSteady(p: Pool, es: seq<Event>)
    requires Sized(p) && Steady(p) && NothingFails(es)
    ensures var q := RunPool(p, es);
            && |q.breakers| == |p.breakers| && Steady(q)
            && forall i :: 0 <= i < |p.breakers| ==> q.breakers[i].enabled == p.breakers[i].enabled
    decreases |es|
  {
    if es != [] {
      var n := |es| - 1;
      StaysSteady(p, es[..n]);
      var q := RunPool(p, es[..n]);
      forall i | 0 <= i < |q.breakers|
        ensures Next(q, es[n]).breakers[i] == BreakerStep(q.breakers[i], es[n], i)
      {
        BreakersAreIndependent(q, es[n], i);
      }
      hide Next;
    }
  }

  /** From a pool in which all enabled breakers are closed, any run without failures and switches qualifies. */
  lemma SteadyIsSameAvailable(p: Pool, es: seq<Event>)
    requires Sized(p) && Steady(p) && NothingFails(es)
    ensures SameAvailable(p, es, ReadyIndices(p.breakers, 0))
  {
    hide ReadyIndices, RunPool;
    forall j | 0 <= j < |es|
      ensures Finds(p, es[..j], es[j], ReadyIndices(p.breakers, 0))
    {
      StaysSteady(p, es[..j]);
      if es[j].SelectAt? {
        SteadyReady(RunPool(p, es[..j]).breakers, p.breakers, es[j].now, 0);
      }
    }
  }
}

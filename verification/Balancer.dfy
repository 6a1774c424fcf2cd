/** The health-aware balancer: selection over breakers, and whole runs of it. */
module Balancer {
  import opened Wrappers
  import opened BoundedInts
  import opened CircuitBreaking
  import opened WeightedPick

  datatype Endpoint = Endpoint(weight: u32, enabled: bool)

  datatype Strategy = RoundRobin | WeightedRoundRobin

  const DEFAULT_LIMITS := Limits(3, 30)

  function Weights(endpoints: seq<Endpoint>): (ws: seq<nat>)
    ensures |ws| == |endpoints|
  {
    seq(|endpoints|, i requires 0 <= i < |endpoints| => endpoints[i].weight)
  }

  function StrategyFor(endpoints: seq<Endpoint>): Strategy {
    if (forall i :: 0 <= i < |endpoints| ==> endpoints[i].weight == endpoints[0].weight)
       || Sum(Weights(endpoints)) % U32_LIMIT == 0
    then RoundRobin else WeightedRoundRobin
  }

  /** The balancer as a value. The counter is a machine word that wraps. */
  datatype Pool = Pool(endpoints: seq<Endpoint>, strategy: Strategy, breakers: seq<Breaker>, counter: u64)

  function NewPool(endpoints: seq<Endpoint>): Pool {
    Pool(endpoints, StrategyFor(endpoints),
         seq(|endpoints|, i requires 0 <= i < |endpoints| => NewBreaker(endpoints[i].enabled)), 0)
  }

  predicate Sized(p: Pool) {
    |p.breakers| == |p.endpoints|
  }

  /** The endpoints ready at `now`, in order. */
  function ReadyIndices(breakers: seq<Breaker>, now: nat): (r: seq<nat>)
    ensures forall k :: 0 <= k < |r| ==> r[k] < |breakers|
  {
    if breakers == [] then []
    else
      var n := |breakers| - 1;
      ReadyIndices(breakers[..n], now) + if breakers[n].Ready(DEFAULT_LIMITS, now) then [n] else []
  }

  function ClaimAll(breakers: seq<Breaker>, now: nat): (r: seq<Breaker>)
    ensures |r| == |breakers|
  {
    seq(|breakers|, i requires 0 <= i < |breakers| => breakers[i].Claim(DEFAULT_LIMITS, now))
  }

  function CandidateWeights(endpoints: seq<Endpoint>, candidates: seq<nat>): (ws: seq<nat>)
    requires forall k :: 0 <= k < |candidates| ==> candidates[k] < |endpoints|
    ensures |ws| == |candidates|
  {
    seq(|candidates|, i requires 0 <= i < |candidates| => endpoints[candidates[i]].weight)
  }

  function PickedIndex(p: Pool, candidates: seq<nat>): (i: nat)
    requires candidates != [] && forall k :: 0 <= k < |candidates| ==> candidates[k] < |p.endpoints|
    ensures i < |candidates|
  {
    match p.strategy
    case RoundRobin => p.counter % |candidates|
    case WeightedRoundRobin => PickWrapped(CandidateWeights(p.endpoints, candidates), p.counter)
  }

  /** What a selection returns. */
  function Selected(p: Pool, now: nat): Option<nat>
    requires Sized(p)
  {
    var ready := ReadyIndices(p.breakers, now);
    if ready == [] then None else Some(ready[PickedIndex(p, ready)])
  }

  /** What a selection leaves behind: every ready breaker has granted its trial, not only the returned one. */
  function AfterSelect(p: Pool, now: nat): Pool
    requires Sized(p)
  {
    p.(breakers := ClaimAll(p.breakers, now),
       counter := if ReadyIndices(p.breakers, now) == [] then p.counter else (p.counter + 1) % U64_LIMIT)
  }

  predicate HasAvailable(p: Pool, now: nat) {
    exists i :: 0 <= i < |p.breakers| && p.breakers[i].Ready(DEFAULT_LIMITS, now)
  }

  /** Machine addition at 32 bits. */
  function AddWrapped(a: u32, b: u32): u32 {
    (a + b) % U32_LIMIT
  }

  lemma OneMoreWeight(ws: seq<nat>, i: nat)
    requires i < |ws| && ws[i] < U32_LIMIT
    ensures WrappedPrefix(ws, i + 1) == AddWrapped(WrappedPrefix(ws, i), ws[i])
  {
    assert Prefix(ws, i + 1) == Prefix(ws, i) + ws[i];
    hide Prefix;
  }

  lemma NoWeight(ws: seq<nat>)
    ensures WrappedPrefix(ws, 0) == 0
  {
  }

  // ---- The mutable balancer ----

  class HealthAwareBalancer {
    const endpoints: seq<Endpoint>
    const breakers: seq<CircuitBreaker>
    const strategy: Strategy
    var counter: u64

    ghost predicate Valid() {
      && |breakers| == |endpoints|
      && (forall i, j :: 0 <= i < j < |breakers| ==> breakers[i] != breakers[j])
      && (forall i :: 0 <= i < |breakers| ==> breakers[i].Config() == DEFAULT_LIMITS)
    }

    ghost function Views(): (vs: seq<Breaker>)
      reads breakers
      ensures |vs| == |breakers|
    {
      seq(|breakers|, i requires 0 <= i < |breakers| reads breakers => breakers[i].View())
    }

    ghost function View(): Pool
      reads this, breakers
    {
      Pool(endpoints, strategy, Views(), counter)
    }

    constructor (endpoints: seq<Endpoint>)
      ensures Valid() && View() == NewPool(endpoints)
      ensures forall i :: 0 <= i < |breakers| ==> fresh(breakers[i])
    {
      var bs: seq<CircuitBreaker> := [];
      for i := 0 to |endpoints|
        invariant |bs| == i
        invariant forall k :: 0 <= k < i ==> fresh(bs[k]) && bs[k].Config() == DEFAULT_LIMITS
        invariant forall k :: 0 <= k < i ==> bs[k].View() == NewBreaker(endpoints[k].enabled)
        invariant forall k, l :: 0 <= k < l < i ==> bs[k] != bs[l]
      {
        var b := new CircuitBreaker(endpoints[i].enabled, DEFAULT_LIMITS.threshold, DEFAULT_LIMITS.cooldownSecs);
        bs := bs + [b];
      }
      this.endpoints := endpoints;
      this.breakers := bs;
      this.strategy := StrategyFor(endpoints);
      this.counter := 0;
    }

    /** Asks every breaker in turn and collects those that are available. */
    method ClaimReady(now: nat) returns (available: seq<nat>)
      requires Valid()
      modifies breakers
      ensures available == ReadyIndices(old(Views()), now)
      ensures Views() == ClaimAll(old(Views()), now)
    {
      ghost var was := Views();
      available := [];
      for i := 0 to |breakers|
        invariant available == ReadyIndices(was[..i], now)
        invariant forall k :: 0 <= k < i ==> breakers[k].View() == was[k].Claim(DEFAULT_LIMITS, now)
        invariant forall k :: i <= k < |breakers| ==> breakers[k].View() == was[k]
      {
        assert was[..i + 1][..i] == was[..i];
        var ok := breakers[i].IsAvailable(now);
        if ok {
          available := available + [i];
        }
      }
      assert was[..|breakers|] == was;
    }

    method Select(now: nat) returns (r: Option<nat>)
      requires Valid()
      modifies this, breakers
      ensures r == Selected(old(View()), now)
      ensures View() == AfterSelect(old(View()), now)
    {
      hide ReadyIndices, ClaimAll, PickWrapped, Sum;
      var available := ClaimReady(now);
      if |available| == 0 {
        return None;
      }
      var idx := PickIndex(available);
      r := Some(available[idx]);
    }

    method HasAvailableEndpoint(now: nat) returns (ok: bool)
      requires Valid()
      ensures ok == HasAvailable(View(), now)
    {
      ok := false;
      for i := 0 to |breakers|
        invariant ok <==> exists k :: 0 <= k < i && Views()[k].Ready(DEFAULT_LIMITS, now)
      {
        var ready := breakers[i].IsAvailableReadonly(now);
        assert ready == Views()[i].Ready(DEFAULT_LIMITS, now);
        ok := ok || ready;
      }
    }

    method PickIndex(candidates: seq<nat>) returns (idx: nat)
      requires Valid() && candidates != []
      requires forall k :: 0 <= k < |candidates| ==> candidates[k] < |endpoints|
      modifies this`counter
      ensures idx == PickedIndex(old(View()), candidates)
      ensures Views() == old(Views())
      ensures counter == (old(counter) + 1) % U64_LIMIT
    {
      hide PickWrapped, CandidateWeights;
      var value := counter;
      counter := (counter + 1) % U64_LIMIT;
      if strategy.RoundRobin? {
        return value % |candidates|;
      }
      idx := PickWeighted(candidates, value);
    }

    /** The weighted branch of the pick, for a counter value. */
    method PickWeighted(candidates: seq<nat>, value: nat) returns (idx: nat)
      requires candidates != []
      requires forall k :: 0 <= k < |candidates| ==> candidates[k] < |endpoints|
      ensures idx == PickWrapped(CandidateWeights(endpoints, candidates), value)
    {
      hide Sum, Prefix, WrappedPrefix, FirstAbove, AddWrapped;
      ghost var ws := CandidateWeights(endpoints, candidates);
      NoWeight(ws);
      var total := 0;
      for i := 0 to |candidates|
        invariant total == WrappedPrefix(ws, i)
      {
        total := AddWrapped(total, endpoints[candidates[i]].weight);
        OneMoreWeight(ws, i);
      }
      if total == 0 {
        return value % |candidates|;
      }
      var pos := value % total;
      var cumulative := 0;
      idx := |candidates| - 1;
      for i := 0 to |candidates|
        invariant cumulative == WrappedPrefix(ws, i)
        invariant forall j :: 0 < j <= i ==> WrappedPrefix(ws, j) <= pos
      {
        cumulative := AddWrapped(cumulative, endpoints[candidates[i]].weight);
        OneMoreWeight(ws, i);
        if pos < cumulative {
          FirstAboveIff(ws, pos, i);
          return i;
        }
      }
      assert false;
    }

    method RecordSuccess(idx: nat)
      requires Valid()
      modifies breakers
      ensures View() == Succeed(old(View()), idx)
    {
      if idx < |breakers| {
        breakers[idx].RecordSuccess();
        assert Views() == old(Views())[idx := old(Views())[idx].Succeed()];
      }
    }

    method RecordFailure(idx: nat, now: nat)
      requires Valid()
      modifies breakers
      ensures View() == Fail(old(View()), idx, now)
    {
      if idx < |breakers| {
        breakers[idx].RecordFailure(now);
        assert Views() == old(Views())[idx := old(Views())[idx].Fail(DEFAULT_LIMITS, now)];
      }
    }
  }

  function Succeed(p: Pool, idx: nat): Pool {
    if idx < |p.breakers| then p.(breakers := p.breakers[idx := p.breakers[idx].Succeed()]) else p
  }

  function Fail(p: Pool, idx: nat, now: nat): Pool {
    if idx < |p.breakers| then p.(breakers := p.breakers[idx := p.breakers[idx].Fail(DEFAULT_LIMITS, now)]) else p
  }

  function Switch(p: Pool, idx: nat, on: bool): Pool {
    if idx < |p.breakers| then p.(breakers := p.breakers[idx := p.breakers[idx].Switch(on)]) else p
  }
}

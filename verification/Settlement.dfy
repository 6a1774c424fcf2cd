/**
 * Settlement of one request against a token package: units, coverage and the cost split.
 * Decimal amounts are exact reals; token counts are 64-bit.
 */
module Settlement {
  import opened Wrappers
  import opened BoundedInts

  datatype AccountingMode = RawTokens | StandardizedCredits

  datatype PaymentMode = Metered | Prepaid

  datatype TokenUsage = TokenUsage(prompt: u64, completion: u64, cacheHit: u64, cacheWrite: u64) {
    function RawUnits(): u64 {
      SaturatingAdd(SaturatingAdd(SaturatingAdd(prompt, completion), cacheHit), cacheWrite)
    }

    function StandardizedCredits(f: Factors): u64 {
      ToU64(Ceil(Max(
        Weight(prompt as real, f.input) + Weight(completion as real, f.output)
        + Weight(cacheHit as real, f.cache) + Weight(cacheWrite as real, f.cacheWrite),
        0.0)))
    }
  }

  datatype Factors = Factors(input: real, output: real, cache: real, cacheWrite: real)

  datatype PriceSnapshot = PriceSnapshot(prompt: real, completion: real, cacheRead: real, cacheWrite: real)

  datatype Breakdown = Breakdown(
    actualUnits: u64, packageUnits: u64, actualPricedCost: real, packagePricedCost: real, walletAmount: real)

  /** One priced kind of token, with the package units each token takes. */
  datatype Component = Component(tokens: u64, factor: real, price: real)

  const MILLION := 1_000_000.0

  function Max(a: real, b: real): real { if a >= b then a else b }

  function Min(a: real, b: real): real { if a <= b then a else b }

  function Ceil(x: real): int {
    if x.Floor as real == x then x.Floor else x.Floor + 1
  }

  /** Values beyond 64 bits become the largest one. */
  function ToU64(n: int): u64
    requires n >= 0
  {
    if n < U64_LIMIT then n else U64_MAX
  }

  // ---- The settlement as a function ----

  function EffectiveFactors(mode: Option<AccountingMode>, input: real, output: real, cache: real): Factors {
    if mode == Some(StandardizedCredits) then Factors(input, output, cache, 1.0) else Factors(1.0, 1.0, 1.0, 1.0)
  }

  /** The order in which package units are spent. */
  function Components(usage: TokenUsage, f: Factors, prices: PriceSnapshot): seq<Component> {
    [Component(usage.prompt, f.input, prices.prompt),
     Component(usage.completion, f.output, prices.completion),
     Component(usage.cacheHit, f.cache, prices.cacheRead),
     Component(usage.cacheWrite, f.cacheWrite, prices.cacheWrite)]
  }

  function ActualUnits(usage: TokenUsage, mode: Option<AccountingMode>, f: Factors): u64 {
    if mode == Some(StandardizedCredits) then usage.StandardizedCredits(f) else usage.RawUnits()
  }

  function ActualCost(usage: TokenUsage, cacheWriteTokens: u64, prices: PriceSnapshot): real {
    (usage.prompt as real * prices.prompt + usage.completion as real * prices.completion
     + usage.cacheHit as real * prices.cacheRead + cacheWriteTokens as real * prices.cacheWrite) / MILLION
  }

  function Money(tokens: real, price: real): real {
    tokens * price / MILLION
  }

  function Weight(tokens: real, factor: real): real {
    tokens * factor
  }

  /** The tokens of one component that `remaining` units pay for. */
  function Covered(c: Component, remaining: real): real {
    if remaining <= 0.0 || c.factor <= 0.0 then 0.0 else Min(remaining / c.factor, c.tokens as real)
  }

  function Left(c: Component, remaining: real): real {
    remaining - Weight(Covered(c, remaining), c.factor)
  }

  function CoverCost(comps: seq<Component>, remaining: real): real {
    if comps == [] then 0.0
    else Money(Covered(comps[0], remaining), comps[0].price) + CoverCost(comps[1..], Left(comps[0], remaining))
  }

  function Settle(usage: TokenUsage, cacheWriteTokens: u64, prices: PriceSnapshot, mode: Option<AccountingMode>,
                  input: real, output: real, cache: real, reserved: u64, payment: PaymentMode): Breakdown
  {
    var f := EffectiveFactors(mode, input, output, cache);
    var actualUnits := ActualUnits(usage, mode, f);
    var packageUnits := if actualUnits <= reserved then actualUnits else reserved;
    var actualCost := ActualCost(usage, cacheWriteTokens, prices);
    var packageCost := CoverCost(Components(usage, f, prices), packageUnits as real);
    Breakdown(actualUnits, packageUnits, actualCost, packageCost,
              if payment.Prepaid? then 0.0 else Max(actualCost - packageCost, 0.0))
  }

  method SettleUsage(usage: TokenUsage, cacheWriteTokens: u64, prices: PriceSnapshot, mode: Option<AccountingMode>,
                     input: real, output: real, cache: real, reserved: u64, payment: PaymentMode)
    returns (b: Breakdown)
    ensures b == Settle(usage, cacheWriteTokens, prices, mode, input, output, cache, reserved, payment)
  {
    hide CoverCost, Components, Money, Weight, ActualCost, usage.StandardizedCredits, usage.RawUnits;
    var actualUnits;
    if mode == Some(StandardizedCredits) {
      actualUnits := usage.StandardizedCredits(Factors(input, output, cache, 1.0));
    } else {
      actualUnits := usage.RawUnits();
    }
    var packageUnits := if actualUnits <= reserved then actualUnits else reserved;
    var actualPricedCost := ActualCost(usage, cacheWriteTokens, prices);
    var remaining := packageUnits as real;
    var packagePricedCost := 0.0;
    var components := Components(usage, EffectiveFactors(mode, input, output, cache), prices);
    assert components[0..] == components;
    for i := 0 to |components|
      invariant packagePricedCost + CoverCost(components[i..], remaining) == CoverCost(components, packageUnits as real)
    {
      var c := components[i];
      assert components[i..][1..] == components[i + 1..];
      NextComponent(components[i..], remaining);
      if remaining <= 0.0 || c.factor <= 0.0 {
        continue;
      }
      var coveredTokens := Min(remaining / c.factor, c.tokens as real);
      packagePricedCost := packagePricedCost + Money(coveredTokens, c.price);
      remaining := remaining - Weight(coveredTokens, c.factor);
    }
    NothingLeft(remaining);
    var wallet := if payment.Prepaid? then 0.0 else Max(actualPricedCost - packagePricedCost, 0.0);
    b := Breakdown(actualUnits, packageUnits, actualPricedCost, packagePricedCost, wallet);
  }

  lemma NothingLeft(remaining: real)
    ensures CoverCost([], remaining) == 0.0
  {
  }

  lemma ZeroTokens(x: real)
    ensures Money(0.0, x) == 0.0 && Weight(0.0, x) == 0.0
  {
  }

  lemma UnfoldCost(comps: seq<Component>, remaining: real)
    requires comps != []
    ensures CoverCost(comps, remaining) ==
            Money(Covered(comps[0], remaining), comps[0].price) + CoverCost(comps[1..], Left(comps[0], remaining))
  {
    hide Money, Covered, Left;
  }

  lemma SkippedLeft(c: Component, remaining: real)
    requires remaining <= 0.0 || c.factor <= 0.0
    ensures Money(Covered(c, remaining), c.price) == 0.0 && Left(c, remaining) == remaining
  {
    NoCoverage(c, remaining);
    ZeroTokens(c.price);
    ZeroTokens(c.factor);
    hide Money, Weight, Covered;
  }

  lemma NextComponent(comps: seq<Component>, remaining: real)
    requires comps != []
    ensures CoverCost(comps, remaining) ==
            Money(Covered(comps[0], remaining), comps[0].price) + CoverCost(comps[1..], Left(comps[0], remaining))
    ensures remaining <= 0.0 || comps[0].factor <= 0.0 ==>
            CoverCost(comps, remaining) == CoverCost(comps[1..], remaining)
  {
    hide Money, Covered, Left, CoverCost;
    UnfoldCost(comps, remaining);
    if remaining <= 0.0 || comps[0].factor <= 0.0 {
      SkippedLeft(comps[0], remaining);
    }
  }

  lemma NoCoverage(c: Component, remaining: real)
    ensures remaining <= 0.0 || c.factor <= 0.0 ==> Covered(c, remaining) == 0.0
  {
  }

  // ---- Coverage, independently of the loop ----

  /** The covered tokens of each component. */
  function Coverage(comps: seq<Component>, remaining: real): (cov: seq<real>)
    ensures |cov| == |comps|
  {
    if comps == [] then []
    else [Covered(comps[0], remaining)] + Coverage(comps[1..], Left(comps[0], remaining))
  }

  function TotalWeight(comps: seq<Component>, cov: seq<real>): real
    requires |cov| == |comps|
  {
    if comps == [] then 0.0 else Weight(cov[0], comps[0].factor) + TotalWeight(comps[1..], cov[1..])
  }

  function TotalMoney(comps: seq<Component>, cov: seq<real>): real
    requires |cov| == |comps|
  {
    if comps == [] then 0.0 else Money(cov[0], comps[0].price) + TotalMoney(comps[1..], cov[1..])
  }

  /** The units that cover every token with a positive factor. */
  function FullWeight(comps: seq<Component>): real {
    if comps == [] then 0.0 else PositiveWeight(comps[0]) + FullWeight(comps[1..])
  }

  function PositiveWeight(c: Component): real {
    if c.factor > 0.0 then Weight(c.tokens as real, c.factor) else 0.0
  }

  /** The price of the components with a positive factor, or of the others. */
  function FullMoney(comps: seq<Component>, positive: bool): real {
    if comps == [] then 0.0
    else
      (if (comps[0].factor > 0.0) == positive then Money(comps[0].tokens as real, comps[0].price) else 0.0)
      + FullMoney(comps[1..], positive)
  }

  // ---- One component ----

  lemma QuotientTimes(r: real, f: real)
    requires f > 0.0
    ensures Weight(r / f, f) == r
  {
  }

  lemma QuotientOrder(r: real, f: real, t: real)
    requires f > 0.0
    ensures r / f <= t <==> r <= Weight(t, f)
    ensures r >= 0.0 ==> r / f >= 0.0
  {
    QuotientTimes(r, f);
    var q := r / f;
    assert q * f == r;
    if q <= t {
      assert (t - q) * f >= 0.0;
    } else {
      assert (q - t) * f > 0.0;
    }
  }

  lemma WeightNonNegative(t: real, f: real)
    requires t >= 0.0 && f >= 0.0
    ensures Weight(t, f) >= 0.0
  {
  }

  /** What one component takes, and what it leaves. */
  lemma OneComponent(c: Component, r: real)
    requires r >= 0.0
    ensures 0.0 <= Covered(c, r) <= c.tokens as real
    ensures Left(c, r) == Max(r - PositiveWeight(c), 0.0)
    ensures PositiveWeight(c) >= 0.0
    ensures c.factor > 0.0 && Covered(c, r) < c.tokens as real ==> Left(c, r) == 0.0
    ensures c.factor > 0.0 && PositiveWeight(c) <= r ==> Covered(c, r) == c.tokens as real
    ensures c.factor <= 0.0 ==> Covered(c, r) == 0.0
  {
    var t := c.tokens as real;
    if c.factor > 0.0 {
      QuotientOrder(r, c.factor, t);
      QuotientTimes(r, c.factor);
      WeightNonNegative(t, c.factor);
      var q := r / c.factor;
      hide Weight;
      assert r > 0.0 ==> Covered(c, r) == Min(q, t);
      if r == 0.0 {
        ZeroTokens(c.factor);
      }
    } else {
      ZeroTokens(c.factor);
    }
  }

  lemma MoneyOrder(a: real, b: real, price: real)
    requires a <= b && price >= 0.0
    ensures Money(a, price) <= Money(b, price)
    ensures a >= 0.0 ==> Money(a, price) >= 0.0
  {
    assert (b - a) * price >= 0.0;
    assert a >= 0.0 ==> a * price >= 0.0;
  }

  // ---- Units ----

  lemma {:induction false} UsedUnits(comps: seq<Component>, r: real)
    requires r >= 0.0
    ensures r - TotalWeight(comps, Coverage(comps, r)) == Max(r - FullWeight(comps), 0.0)
    ensures FullWeight(comps) >= 0.0
    ensures forall i :: 0 <= i < |comps| ==> 0.0 <= Coverage(comps, r)[i] <= comps[i].tokens as real
    decreases |comps|
  {
    if comps != [] {
      var rest := Left(comps[0], r);
      OneComponent(comps[0], r);
      UsedUnits(comps[1..], rest);
      hide Weight, Covered, PositiveWeight;
      assert Coverage(comps, r)[1..] == Coverage(comps[1..], rest);
    }
  }

  lemma {:induction false} NothingCovered(comps: seq<Component>, r: real)
    requires r <= 0.0
    ensures forall i :: 0 <= i < |comps| ==> Coverage(comps, r)[i] == 0.0
    decreases |comps|
  {
    if comps != [] {
      SkippedLeft(comps[0], r);
      NoCoverage(comps[0], r);
      NothingCovered(comps[1..], r);
      hide Covered, Left;
    }
  }

  /** A component gets coverage only when every earlier one with a positive factor is fully covered. */
  lemma {:induction false} CoverageByPriority(comps: seq<Component>, r: real, i: nat, j: nat)
    requires r >= 0.0 && i < j < |comps|
    requires comps[i].factor > 0.0 && Coverage(comps, r)[j] > 0.0
    ensures Coverage(comps, r)[i] == comps[i].tokens as real
    decreases |comps|
  {
    var rest := Left(comps[0], r);
    OneComponent(comps[0], r);
    hide Covered, Left, PositiveWeight;
    if i > 0 {
      CoverageByPriority(comps[1..], rest, i - 1, j - 1);
    } else if Covered(comps[0], r) < comps[0].tokens as real {
      NothingCovered(comps[1..], rest);
    }
  }

  /** Everything with a positive factor is covered exactly when the units suffice. */
  lemma {:induction false} FullCoverageIff(comps: seq<Component>, r: real)
    requires r >= 0.0
    ensures FullWeight(comps) <= r <==>
            forall i :: 0 <= i < |comps| && comps[i].factor > 0.0 ==> Coverage(comps, r)[i] == comps[i].tokens as real
    decreases |comps|
  {
    UsedUnits(comps, r);
    if comps != [] {
      var rest := Left(comps[0], r);
      OneComponent(comps[0], r);
      UsedUnits(comps[1..], rest);
      FullCoverageIff(comps[1..], rest);
      FullHeadUnits(comps[0], r);
      hide Covered, Left, PositiveWeight, Weight, TotalWeight;
      var cov, tail := Coverage(comps, r), comps[1..];
      assert forall i :: 0 < i < |comps| ==> comps[i] == tail[i - 1] && cov[i] == Coverage(tail, rest)[i - 1];
      assert forall i :: 0 <= i < |tail| ==> tail[i] == comps[i + 1] && cov[i + 1] == Coverage(tail, rest)[i];
    }
  }

  lemma FullHeadUnits(c: Component, r: real)
    requires r >= 0.0
    ensures c.factor > 0.0 && Covered(c, r) == c.tokens as real ==> PositiveWeight(c) <= r
    ensures c.factor <= 0.0 ==> PositiveWeight(c) <= r
  {
    OneComponent(c, r);
    hide Covered;
  }

  // ---- The units of a request ----

  lemma CeilBounds(x: real)
    ensures x <= Ceil(x) as real < x + 1.0
  {
  }

  lemma UnitWeight(t: real)
    ensures Weight(t, 1.0) == t
  {
  }

  lemma FullWeightOf(usage: TokenUsage, f: Factors, prices: PriceSnapshot)
    ensures var comps := Components(usage, f, prices);
            FullWeight(comps) == PositiveWeight(comps[0]) + PositiveWeight(comps[1])
            + PositiveWeight(comps[2]) + PositiveWeight(comps[3])
  {
    hide PositiveWeight;
    var comps := Components(usage, f, prices);
    assert comps[1..][1..] == comps[2..] && comps[2..][1..] == comps[3..] && comps[3..][1..] == [];
    assert FullWeight(comps[3..]) == PositiveWeight(comps[3]);
    assert FullWeight(comps[2..]) == PositiveWeight(comps[2]) + FullWeight(comps[3..]);
  }

  ghost function WeightedUsage(usage: TokenUsage, f: Factors): real {
    Weight(usage.prompt as real, f.input) + Weight(usage.completion as real, f.output)
    + Weight(usage.cacheHit as real, f.cache) + Weight(usage.cacheWrite as real, f.cacheWrite)
  }

  lemma CreditsOf(usage: TokenUsage, f: Factors)
    ensures usage.StandardizedCredits(f) == ToU64(Ceil(Max(WeightedUsage(usage, f), 0.0)))
  {
  }

  lemma NegativeWeight(t: real, f: real)
    requires t >= 0.0 && f <= 0.0
    ensures Weight(t, f) <= 0.0
  {
  }

  lemma WeightAtMostPositive(c: Component)
    ensures Weight(c.tokens as real, c.factor) <= PositiveWeight(c)
    ensures c.factor >= 0.0 ==> Weight(c.tokens as real, c.factor) == PositiveWeight(c)
    ensures PositiveWeight(c) >= 0.0
  {
    if c.factor <= 0.0 {
      NegativeWeight(c.tokens as real, c.factor);
      if c.factor == 0.0 {
        WeightNonNegative(c.tokens as real, c.factor);
      }
    } else {
      WeightNonNegative(c.tokens as real, c.factor);
    }
    hide Weight;
  }

  /** The weighted usage against the units that would cover every positive-factor token. */
  lemma WeightedUsageBound(usage: TokenUsage, f: Factors, prices: PriceSnapshot)
    ensures WeightedUsage(usage, f) <= FullWeight(Components(usage, f, prices))
    ensures 0.0 <= FullWeight(Components(usage, f, prices))
    ensures f.input >= 0.0 && f.output >= 0.0 && f.cache >= 0.0 && f.cacheWrite >= 0.0 ==>
            WeightedUsage(usage, f) == FullWeight(Components(usage, f, prices))
  {
    hide Weight, PositiveWeight;
    var comps := Components(usage, f, prices);
    FullWeightOf(usage, f, prices);
    WeightAtMostPositive(comps[0]);
    WeightAtMostPositive(comps[1]);
    WeightAtMostPositive(comps[2]);
    WeightAtMostPositive(comps[3]);
  }

  const ALL_ONE := Factors(1.0, 1.0, 1.0, 1.0)

  lemma UnitFactorUsage(usage: TokenUsage)
    ensures WeightedUsage(usage, ALL_ONE) ==
            (usage.prompt + usage.completion + usage.cacheHit + usage.cacheWrite) as real
  {
    UnitWeight(usage.prompt as real);
    UnitWeight(usage.completion as real);
    UnitWeight(usage.cacheHit as real);
    UnitWeight(usage.cacheWrite as real);
    hide Weight;
  }

  lemma RawUnitsSaturate(usage: TokenUsage)
    ensures var sum := usage.prompt + usage.completion + usage.cacheHit + usage.cacheWrite;
            usage.RawUnits() == ToU64(sum)
  {
  }

  /** Raw units are credits with all factors one, for every usage, overflow included. */
  lemma RawIsUnitFactorCredits(usage: TokenUsage)
    ensures usage.RawUnits() == usage.StandardizedCredits(ALL_ONE)
  {
    var sum := usage.prompt + usage.completion + usage.cacheHit + usage.cacheWrite;
    RawUnitsSaturate(usage);
    CreditsOf(usage, ALL_ONE);
    UnitFactorUsage(usage);
    assert Ceil(sum as real) == sum;
    hide WeightedUsage, usage.StandardizedCredits, usage.RawUnits;
  }

  /** With unit factors both accounting modes settle every request identically. */
  lemma RawAccountingIsUnitFactorCredits(
    usage: TokenUsage, cacheWriteTokens: u64, prices: PriceSnapshot, raw: Option<AccountingMode>,
    input: real, output: real, cache: real, reserved: u64, payment: PaymentMode)
    requires raw != Some(StandardizedCredits)
    ensures Settle(usage, cacheWriteTokens, prices, raw, input, output, cache, reserved, payment)
         == Settle(usage, cacheWriteTokens, prices, Some(StandardizedCredits), 1.0, 1.0, 1.0, reserved, payment)
  {
    RawIsUnitFactorCredits(usage);
    hide usage.StandardizedCredits, usage.RawUnits, CoverCost, ActualCost;
  }

  lemma UnitsBound(usage: TokenUsage, mode: Option<AccountingMode>, f: Factors, prices: PriceSnapshot)
    requires mode != Some(StandardizedCredits) ==> f == ALL_ONE
    ensures ActualUnits(usage, mode, f) as real < FullWeight(Components(usage, f, prices)) + 1.0
    ensures mode != Some(StandardizedCredits) ==>
            ActualUnits(usage, mode, f) as real <= FullWeight(Components(usage, f, prices))
  {
    WeightedUsageBound(usage, f, prices);
    if mode == Some(StandardizedCredits) {
      CreditsOf(usage, f);
      CeilBounds(Max(WeightedUsage(usage, f), 0.0));
    } else {
      UnitFactorUsage(usage);
      RawUnitsSaturate(usage);
    }
    hide usage.StandardizedCredits, usage.RawUnits, WeightedUsage, FullWeight, Components;
  }

  /**
   * Unit accounting, for any factors and prices and even when counts saturate: the covered tokens
   * weighted by their factors use up the package units to less than one unit, and exactly in raw mode.
   */
  lemma PackageUnitsAreUsedUp(
    usage: TokenUsage, cacheWriteTokens: u64, prices: PriceSnapshot, mode: Option<AccountingMode>,
    input: real, output: real, cache: real, reserved: u64, payment: PaymentMode)
    ensures var b := Settle(usage, cacheWriteTokens, prices, mode, input, output, cache, reserved, payment);
            var comps := Components(usage, EffectiveFactors(mode, input, output, cache), prices);
            var cov := Coverage(comps, b.packageUnits as real);
            && 0.0 <= b.packageUnits as real - TotalWeight(comps, cov) < 1.0
            && (mode != Some(StandardizedCredits) ==> b.packageUnits as real == TotalWeight(comps, cov))
            && (forall i :: 0 <= i < |comps| ==> 0.0 <= cov[i] <= comps[i].tokens as real)
  {
    var f := EffectiveFactors(mode, input, output, cache);
    var comps := Components(usage, f, prices);
    UnitsBound(usage, mode, f, prices);
    hide CoverCost, ActualCost, ActualUnits, Components;
    var b := Settle(usage, cacheWriteTokens, prices, mode, input, output, cache, reserved, payment);
    UsedUnits(comps, b.packageUnits as real);
  }

  // ---- Money ----

  lemma {:induction false} CostIsPricedCoverage(comps: seq<Component>, r: real)
    ensures CoverCost(comps, r) == TotalMoney(comps, Coverage(comps, r))
    decreases |comps|
  {
    hide Covered, Left, Money;
    if comps != [] {
      CostIsPricedCoverage(comps[1..], Left(comps[0], r));
      assert Coverage(comps, r)[1..] == Coverage(comps[1..], Left(comps[0], r));
    }
  }

  ghost predicate NonNegativePrices(comps: seq<Component>) {
    forall i :: 0 <= i < |comps| ==> comps[i].price >= 0.0
  }

  lemma {:induction false} CostBounds(comps: seq<Component>, r: real)
    requires r >= 0.0 && NonNegativePrices(comps)
    ensures 0.0 <= CoverCost(comps, r) <= FullMoney(comps, true)
    ensures FullMoney(comps, false) >= 0.0
    ensures FullWeight(comps) <= r ==> CoverCost(comps, r) == FullMoney(comps, true)
    decreases |comps|
  {
    if comps != [] {
      var c, rest := comps[0], Left(comps[0], r);
      OneComponent(c, r);
      UsedUnits(comps[1..], rest);
      CostBounds(comps[1..], rest);
      MoneyOrder(0.0, Covered(c, r), c.price);
      MoneyOrder(Covered(c, r), c.tokens as real, c.price);
      ZeroTokens(c.price);
      hide Covered, Left, Money, PositiveWeight;
    }
  }

  lemma {:induction false} MoneySplit(comps: seq<Component>)
    ensures FullMoney(comps, true) + FullMoney(comps, false) == TotalMoney(comps, AllTokens(comps))
    decreases |comps|
  {
    hide Money;
    if comps != [] {
      MoneySplit(comps[1..]);
      assert AllTokens(comps)[1..] == AllTokens(comps[1..]);
    }
  }

  function AllTokens(comps: seq<Component>): (cov: seq<real>)
    ensures |cov| == |comps|
  {
    seq(|comps|, i requires 0 <= i < |comps| => comps[i].tokens as real)
  }

  lemma MoneySum(a: real, b: real, c: real, d: real)
    ensures (a + b + c + d) / MILLION == a / MILLION + b / MILLION + c / MILLION + d / MILLION
  {
  }

  /** The actual cost is the price of all tokens, when both cache-write counts are the same. */
  lemma ActualCostIs(usage: TokenUsage, cacheWriteTokens: u64, f: Factors, prices: PriceSnapshot)
    ensures var comps := Components(usage, f, prices);
            ActualCost(usage, cacheWriteTokens, prices)
            - Money(cacheWriteTokens as real, prices.cacheWrite) + Money(usage.cacheWrite as real, prices.cacheWrite)
            == FullMoney(comps, true) + FullMoney(comps, false)
  {
    var comps := Components(usage, f, prices);
    MoneySplit(comps);
    MoneySum(usage.prompt as real * prices.prompt, usage.completion as real * prices.completion,
             usage.cacheHit as real * prices.cacheRead, cacheWriteTokens as real * prices.cacheWrite);
    assert ActualCost(usage, cacheWriteTokens, prices) ==
           Money(usage.prompt as real, prices.prompt) + Money(usage.completion as real, prices.completion)
           + Money(usage.cacheHit as real, prices.cacheRead) + Money(cacheWriteTokens as real, prices.cacheWrite);
    hide Money, ActualCost, FullMoney;
    FourMoney(comps, AllTokens(comps));
  }

  lemma FourMoney(comps: seq<Component>, cov: seq<real>)
    requires |comps| == |cov| == 4
    ensures TotalMoney(comps, cov) == Money(cov[0], comps[0].price) + Money(cov[1], comps[1].price)
                                      + Money(cov[2], comps[2].price) + Money(cov[3], comps[3].price)
  {
    hide Money;
    assert comps[1..][1..] == comps[2..] && comps[2..][1..] == comps[3..] && comps[3..][1..] == [];
    assert cov[1..][1..] == cov[2..] && cov[2..][1..] == cov[3..] && cov[3..][1..] == [];
    assert TotalMoney(comps[3..], cov[3..]) == Money(cov[3], comps[3].price);
    assert TotalMoney(comps[2..], cov[2..]) == Money(cov[2], comps[2].price) + TotalMoney(comps[3..], cov[3..]);
  }

  predicate ValidPrices(prices: PriceSnapshot) {
    prices.prompt >= 0.0 && prices.completion >= 0.0 && prices.cacheRead >= 0.0 && prices.cacheWrite >= 0.0
  }

  /**
   * Cost conservation: the package never pays more than the actual cost, and a metered wallet pays
   * exactly the rest. The separately passed cache-write count must not be below that of the usage.
   */
  lemma CostIsConserved(
    usage: TokenUsage, cacheWriteTokens: u64, prices: PriceSnapshot, mode: Option<AccountingMode>,
    input: real, output: real, cache: real, reserved: u64)
    requires ValidPrices(prices) && usage.cacheWrite <= cacheWriteTokens
    ensures var b := Settle(usage, cacheWriteTokens, prices, mode, input, output, cache, reserved, Metered);
            && 0.0 <= b.packagePricedCost <= b.actualPricedCost
            && b.walletAmount + b.packagePricedCost == b.actualPricedCost
            && Settle(usage, cacheWriteTokens, prices, mode, input, output, cache, reserved, Prepaid)
               == b.(walletAmount := 0.0)
  {
    var f := EffectiveFactors(mode, input, output, cache);
    var comps := Components(usage, f, prices);
    assert NonNegativePrices(comps);
    ActualCostIs(usage, cacheWriteTokens, f, prices);
    MoneyOrder(usage.cacheWrite as real, cacheWriteTokens as real, prices.cacheWrite);
    hide CoverCost, ActualCost, ActualUnits, Components, FullMoney, Money, FullWeight, NonNegativePrices;
    var b := Settle(usage, cacheWriteTokens, prices, mode, input, output, cache, reserved, Metered);
    CostBounds(comps, b.packageUnits as real);
  }

  /** A reservation for all units, with nothing beyond 64 bits: every positive-factor token is covered. */
  lemma FullReservationCovers(usage: TokenUsage, prices: PriceSnapshot, mode: Option<AccountingMode>,
                              input: real, output: real, cache: real)
    requires input >= 0.0 && output >= 0.0 && cache >= 0.0
    ensures var f := EffectiveFactors(mode, input, output, cache);
            (FullWeight(Components(usage, f, prices)) <= ActualUnits(usage, mode, f) as real
             <==> WeightedUsage(usage, f) <= U64_MAX as real)
  {
    var f := EffectiveFactors(mode, input, output, cache);
    WeightedUsageBound(usage, f, prices);
    if mode == Some(StandardizedCredits) {
      CreditsOf(usage, f);
      CeilBounds(Max(WeightedUsage(usage, f), 0.0));
    } else {
      UnitFactorUsage(usage);
      RawUnitsSaturate(usage);
    }
    hide usage.StandardizedCredits, usage.RawUnits, WeightedUsage, FullWeight, Components;
  }

  /**
   * With non-negative factors and a reservation for all units, every positive-factor token is covered
   * if and only if the weighted usage fits 64 bits; the metered wallet then pays exactly the
   * components with factor zero.
   */
  lemma FullReservationWallet(
    usage: TokenUsage, cacheWriteTokens: u64, prices: PriceSnapshot, mode: Option<AccountingMode>,
    input: real, output: real, cache: real, reserved: u64)
    requires input >= 0.0 && output >= 0.0 && cache >= 0.0 && ValidPrices(prices)
    requires cacheWriteTokens == usage.cacheWrite
    requires reserved >= ActualUnits(usage, mode, EffectiveFactors(mode, input, output, cache))
    ensures var f := EffectiveFactors(mode, input, output, cache);
            var b := Settle(usage, cacheWriteTokens, prices, mode, input, output, cache, reserved, Metered);
            var comps := Components(usage, f, prices);
            var cov := Coverage(comps, b.packageUnits as real);
            && ((forall i :: 0 <= i < |comps| && comps[i].factor > 0.0 ==> cov[i] == comps[i].tokens as real)
                <==> WeightedUsage(usage, f) <= U64_MAX as real)
            && (WeightedUsage(usage, f) <= U64_MAX as real ==> b.walletAmount == FullMoney(comps, false))
  {
    var f := EffectiveFactors(mode, input, output, cache);
    var comps := Components(usage, f, prices);
    var units := ActualUnits(usage, mode, f) as real;
    FullReservationCovers(usage, prices, mode, input, output, cache);
    FullCoverageIff(comps, units);
    assert NonNegativePrices(comps);
    ActualCostIs(usage, cacheWriteTokens, f, prices);
    hide CoverCost, ActualCost, ActualUnits, Components, FullMoney, Money, FullWeight, NonNegativePrices,
         WeightedUsage, Coverage;
    CostBounds(comps, units);
  }

  /** In raw mode such a reservation leaves nothing for the wallet, whatever the factors. */
  lemma RawFullReservationIsFree(
    usage: TokenUsage, prices: PriceSnapshot, input: real, output: real, cache: real, reserved: u64)
    requires ValidPrices(prices) && reserved >= usage.RawUnits()
    requires usage.prompt + usage.completion + usage.cacheHit + usage.cacheWrite < U64_LIMIT
    ensures var b := Settle(usage, usage.cacheWrite, prices, Some(RawTokens), input, output, cache, reserved, Metered);
            b.walletAmount == 0.0
  {
    assert Settle(usage, usage.cacheWrite, prices, Some(RawTokens), input, output, cache, reserved, Metered)
        == Settle(usage, usage.cacheWrite, prices, Some(RawTokens), 1.0, 1.0, 1.0, reserved, Metered);
    FullReservationWallet(usage, usage.cacheWrite, prices, Some(RawTokens), 1.0, 1.0, 1.0, reserved);
    UnitFactorUsage(usage);
    AllPositive(Components(usage, ALL_ONE, prices));
    hide Settle, WeightedUsage, Coverage, FullMoney, usage.RawUnits;
  }

  lemma {:induction false} AllPositive(comps: seq<Component>)
    requires forall i :: 0 <= i < |comps| ==> comps[i].factor > 0.0
    ensures FullMoney(comps, false) == 0.0
    decreases |comps|
  {
    hide Money;
    if comps != [] {
      AllPositive(comps[1..]);
    }
  }

  lemma MoneyOrderIff(a: real, b: real, price: real)
    requires price >= 0.0
    ensures Money(a, price) <= Money(b, price) <==> price == 0.0 || a <= b
  {
    if price > 0.0 && a > b {
      assert (a - b) * price > 0.0;
    } else if a <= b {
      MoneyOrder(a, b, price);
    }
  }

  // ---- Two cache-write counts ----

  ghost predicate WithinActualCost(
    usage: TokenUsage, cacheWriteTokens: u64, prices: PriceSnapshot, mode: Option<AccountingMode>,
    input: real, output: real, cache: real, reserved: u64)
  {
    var b := Settle(usage, cacheWriteTokens, prices, mode, input, output, cache, reserved, Metered);
    b.packagePricedCost <= b.actualPricedCost
  }

  /** The components before the cache writes. */
  function BeforeCacheWrites(usage: TokenUsage, f: Factors, prices: PriceSnapshot): (comps: seq<Component>)
    ensures comps == Components(usage, f, prices)[..3]
  {
    [Component(usage.prompt, f.input, prices.prompt),
     Component(usage.completion, f.output, prices.completion),
     Component(usage.cacheHit, f.cache, prices.cacheRead)]
  }

  function PackageUnits(usage: TokenUsage, mode: Option<AccountingMode>, f: Factors, reserved: u64): u64 {
    if ActualUnits(usage, mode, f) <= reserved then ActualUnits(usage, mode, f) else reserved
  }

  /** What `units` leave for the cache writes, after everything before them. */
  function ForCacheWrites(usage: TokenUsage, f: Factors, prices: PriceSnapshot, units: real): real {
    Min(Max(units - FullWeight(BeforeCacheWrites(usage, f, prices)), 0.0), usage.cacheWrite as real)
  }

  lemma {:induction false} CostOfLast(comps: seq<Component>, last: Component, r: real)
    requires r >= 0.0
    ensures CoverCost(comps + [last], r) ==
            CoverCost(comps, r) + Money(Covered(last, Max(r - FullWeight(comps), 0.0)), last.price)
    decreases |comps|
  {
    hide Money, Covered, Left;
    if comps == [] {
      assert [last][1..] == [];
    } else {
      var rest := Left(comps[0], r);
      OneComponent(comps[0], r);
      UsedUnits(comps[1..], rest);
      CostOfLast(comps[1..], last, rest);
      assert (comps + [last])[1..] == comps[1..] + [last];
      hide PositiveWeight;
    }
  }

  lemma {:induction false} WorthOfLast(comps: seq<Component>, last: Component, positive: bool)
    ensures FullMoney(comps + [last], positive) ==
            FullMoney(comps, positive)
            + if (last.factor > 0.0) == positive then Money(last.tokens as real, last.price) else 0.0
    decreases |comps|
  {
    hide Money;
    if comps == [] {
      assert [last][1..] == [];
    } else {
      WorthOfLast(comps[1..], last, positive);
      assert (comps + [last])[1..] == comps[1..] + [last];
    }
  }

  lemma UnitFactorCovered(c: Component, left: real)
    requires c.factor == 1.0 && left >= 0.0
    ensures Covered(c, left) == Min(left, c.tokens as real)
  {
    assert left / 1.0 == left;
  }

  /** The two costs of a settlement, with the cache writes apart. */
  lemma CostsApart(
    usage: TokenUsage, cacheWriteTokens: u64, prices: PriceSnapshot, mode: Option<AccountingMode>,
    input: real, output: real, cache: real, reserved: u64)
    ensures var f := EffectiveFactors(mode, input, output, cache);
            var comps := BeforeCacheWrites(usage, f, prices);
            var units := PackageUnits(usage, mode, f, reserved) as real;
            var b := Settle(usage, cacheWriteTokens, prices, mode, input, output, cache, reserved, Metered);
            && b.packagePricedCost ==
               CoverCost(comps, units) + Money(ForCacheWrites(usage, f, prices, units), prices.cacheWrite)
            && b.actualPricedCost ==
               FullMoney(comps, true) + FullMoney(comps, false) + Money(cacheWriteTokens as real, prices.cacheWrite)
  {
    var f := EffectiveFactors(mode, input, output, cache);
    var comps := BeforeCacheWrites(usage, f, prices);
    var last := Component(usage.cacheWrite, f.cacheWrite, prices.cacheWrite);
    var units := PackageUnits(usage, mode, f, reserved) as real;
    assert Components(usage, f, prices) == comps + [last];
    ActualCostIs(usage, cacheWriteTokens, f, prices);
    WorthOfLast(comps, last, true);
    WorthOfLast(comps, last, false);
    CostOfLast(comps, last, units);
    UnitFactorCovered(last, Max(units - FullWeight(comps), 0.0));
    hide CoverCost, ActualCost, ActualUnits, Components, FullMoney, Money, FullWeight, Covered;
  }

  /** Before the cache writes: nothing is overpaid, and everything is paid for once units are left over. */
  lemma PaidBefore(comps: seq<Component>, units: real)
    requires units >= 0.0 && NonNegativePrices(comps)
    ensures CoverCost(comps, units) <= FullMoney(comps, true) && FullMoney(comps, false) >= 0.0
    ensures Max(units - FullWeight(comps), 0.0) > 0.0 ==> CoverCost(comps, units) == FullMoney(comps, true)
  {
    CostBounds(comps, units);
  }

  /**
   * For every input: the package stays within the actual cost if and only if the cache writes that its
   * units reach are worth no more than those passed separately together with the tokens of factor zero
   * before them.
   */
  lemma WithinActualCostIff(
    usage: TokenUsage, cacheWriteTokens: u64, prices: PriceSnapshot, mode: Option<AccountingMode>,
    input: real, output: real, cache: real, reserved: u64)
    requires ValidPrices(prices)
    ensures var f := EffectiveFactors(mode, input, output, cache);
            var reached := ForCacheWrites(usage, f, prices, PackageUnits(usage, mode, f, reserved) as real);
            (WithinActualCost(usage, cacheWriteTokens, prices, mode, input, output, cache, reserved)
             <==> Money(reached, prices.cacheWrite) <=
                  Money(cacheWriteTokens as real, prices.cacheWrite)
                  + FullMoney(BeforeCacheWrites(usage, f, prices), false))
  {
    var f := EffectiveFactors(mode, input, output, cache);
    var comps := BeforeCacheWrites(usage, f, prices);
    var units := PackageUnits(usage, mode, f, reserved) as real;
    CostsApart(usage, cacheWriteTokens, prices, mode, input, output, cache, reserved);
    assert NonNegativePrices(comps);
    PaidBefore(comps, units);
    MoneyOrder(0.0, cacheWriteTokens as real, prices.cacheWrite);
    ZeroTokens(prices.cacheWrite);
    hide Settle, CoverCost, PackageUnits, BeforeCacheWrites, FullMoney, Money, FullWeight, NonNegativePrices;
  }

  lemma ReachedMonotone(usage: TokenUsage, f: Factors, prices: PriceSnapshot, low: real, high: real)
    requires low <= high && ValidPrices(prices)
    ensures Money(ForCacheWrites(usage, f, prices, low), prices.cacheWrite)
         <= Money(ForCacheWrites(usage, f, prices, high), prices.cacheWrite)
  {
    MoneyOrder(ForCacheWrites(usage, f, prices, low), ForCacheWrites(usage, f, prices, high), prices.cacheWrite);
    hide Money, FullWeight, BeforeCacheWrites;
  }

  /** For every input, the same at all reservations at once: the condition is that of the largest. */
  lemma WithinActualCostAtEveryReservationIff(
    usage: TokenUsage, cacheWriteTokens: u64, prices: PriceSnapshot, mode: Option<AccountingMode>,
    input: real, output: real, cache: real)
    requires ValidPrices(prices)
    ensures var f := EffectiveFactors(mode, input, output, cache);
            var reached := ForCacheWrites(usage, f, prices, ActualUnits(usage, mode, f) as real);
            ((forall reserved: u64 ::
                WithinActualCost(usage, cacheWriteTokens, prices, mode, input, output, cache, reserved))
             <==> Money(reached, prices.cacheWrite) <=
                  Money(cacheWriteTokens as real, prices.cacheWrite)
                  + FullMoney(BeforeCacheWrites(usage, f, prices), false))
  {
    var f := EffectiveFactors(mode, input, output, cache);
    var units := ActualUnits(usage, mode, f);
    var worth := Money(cacheWriteTokens as real, prices.cacheWrite) +
                 FullMoney(BeforeCacheWrites(usage, f, prices), false);
    forall reserved: u64
      ensures Money(ForCacheWrites(usage, f, prices, units as real), prices.cacheWrite) <= worth ==>
                WithinActualCost(usage, cacheWriteTokens, prices, mode, input, output, cache, reserved)
    {
      WithinActualCostIff(usage, cacheWriteTokens, prices, mode, input, output, cache, reserved);
      ReachedMonotone(usage, f, prices, PackageUnits(usage, mode, f, reserved) as real, units as real);
    }
    WithinActualCostIff(usage, cacheWriteTokens, prices, mode, input, output, cache, units);
    assert PackageUnits(usage, mode, f, units) == units;
    hide WithinActualCost, PackageUnits, ActualUnits, BeforeCacheWrites, ForCacheWrites, FullMoney, Money;
  }

  lemma RawBefore(usage: TokenUsage, prices: PriceSnapshot)
    ensures var comps := BeforeCacheWrites(usage, ALL_ONE, prices);
            && FullMoney(comps, false) == 0.0
            && FullWeight(comps) == (usage.prompt + usage.completion + usage.cacheHit) as real
  {
    var comps := BeforeCacheWrites(usage, ALL_ONE, prices);
    AllPositive(comps);
    UnitWeight(usage.prompt as real);
    UnitWeight(usage.completion as real);
    UnitWeight(usage.cacheHit as real);
    assert comps[1..][1..] == comps[2..] && comps[2..][1..] == [];
    hide Weight;
    assert FullWeight(comps[2..]) == PositiveWeight(comps[2]);
    assert FullWeight(comps[1..]) == PositiveWeight(comps[1]) + FullWeight(comps[2..]);
  }

  /**
   * Under a full raw reservation the package stays within the actual cost if and only if cache writes
   * are free, or the units do not exceed the counts with the separate cache-write count in place of
   * the usage's own. Units saturate, so this holds of every usage.
   */
  lemma ConservationNeedsCacheWriteCount(
    usage: TokenUsage, cacheWriteTokens: u64, prices: PriceSnapshot,
    input: real, output: real, cache: real, reserved: u64)
    requires ValidPrices(prices) && reserved >= usage.RawUnits()
    ensures var b := Settle(usage, cacheWriteTokens, prices, Some(RawTokens), input, output, cache, reserved, Metered);
            (b.packagePricedCost <= b.actualPricedCost
             <==> prices.cacheWrite == 0.0
                  || usage.RawUnits() <= usage.prompt + usage.completion + usage.cacheHit + cacheWriteTokens)
  {
    WithinActualCostIff(usage, cacheWriteTokens, prices, Some(RawTokens), input, output, cache, reserved);
    RawBefore(usage, prices);
    RawUnitsSaturate(usage);
    var reached := ForCacheWrites(usage, ALL_ONE, prices, usage.RawUnits() as real);
    MoneyOrderIff(reached, cacheWriteTokens as real, prices.cacheWrite);
    hide Settle, BeforeCacheWrites, FullMoney, Money, FullWeight, usage.RawUnits;
  }

  lemma UnequalCacheWriteOverpays()
    ensures var b := Settle(TokenUsage(0, 0, 0, 1), 0, PriceSnapshot(0.0, 0.0, 0.0, 1.0), Some(RawTokens),
                            1.0, 1.0, 1.0, 1, Metered);
            b.packagePricedCost > b.actualPricedCost
  {
    hide Settle;
    ConservationNeedsCacheWriteCount(TokenUsage(0, 0, 0, 1), 0, PriceSnapshot(0.0, 0.0, 0.0, 1.0), 1.0, 1.0, 1.0, 1);
  }

  // ---- Two reservations ----

  /** `ratio` bounds the price of one unit of every component with a positive factor. */
  ghost predicate PriceBound(comps: seq<Component>, ratio: real) {
    forall i :: 0 <= i < |comps| && comps[i].factor > 0.0 ==> comps[i].price <= Weight(ratio, comps[i].factor)
  }

  lemma ExtraCoverage(c: Component, r1: real, r2: real)
    requires 0.0 <= r1 <= r2
    ensures Left(c, r1) <= Left(c, r2)
    ensures Covered(c, r1) <= Covered(c, r2)
    ensures c.factor > 0.0 ==>
            Weight(Covered(c, r2) - Covered(c, r1), c.factor) == (r2 - r1) - (Left(c, r2) - Left(c, r1))
    ensures c.factor <= 0.0 ==> Covered(c, r1) == Covered(c, r2) == 0.0 && Left(c, r1) == r1 && Left(c, r2) == r2
  {
    OneComponent(c, r1);
    OneComponent(c, r2);
    if c.factor > 0.0 {
      var c1, c2 := Covered(c, r1), Covered(c, r2);
      WeightDifference(c1, c2, c.factor);
    } else {
      SkippedLeft(c, r1);
      SkippedLeft(c, r2);
    }
    hide Covered, Weight, PositiveWeight;
  }

  lemma WeightDifference(a: real, b: real, f: real)
    ensures Weight(b - a, f) == Weight(b, f) - Weight(a, f)
    ensures f > 0.0 && a > b ==> Weight(a, f) > Weight(b, f)
  {
    if f > 0.0 && a > b {
      assert (a - b) * f > 0.0;
    }
  }

  lemma PricedByUnits(tokens: real, c: Component, ratio: real)
    requires tokens >= 0.0 && c.price <= Weight(ratio, c.factor)
    ensures Money(tokens, c.price) <= Money(Weight(tokens, c.factor), ratio)
  {
    var bound := ratio * c.factor;
    assert tokens * (bound - c.price) >= 0.0;
    assert tokens * bound == tokens * c.factor * ratio;
  }

  lemma MoneyDifference(a: real, b: real, price: real)
    ensures Money(b - a, price) == Money(b, price) - Money(a, price)
  {
  }

  /** The greedy loop run with two amounts of units: more units never cost less, and at most the price bound more. */
  lemma {:induction false} ExtraUnitsCost(comps: seq<Component>, r1: real, r2: real, ratio: real)
    requires 0.0 <= r1 <= r2 && NonNegativePrices(comps) && PriceBound(comps, ratio) && ratio >= 0.0
    ensures 0.0 <= CoverCost(comps, r2) - CoverCost(comps, r1) <= Money(r2 - r1, ratio)
    decreases |comps|
  {
    if comps == [] {
      MoneyOrder(0.0, r2 - r1, ratio);
    } else {
      var c := comps[0];
      var l1, l2 := Left(c, r1), Left(c, r2);
      OneComponent(c, r1);
      ExtraCoverage(c, r1, r2);
      ExtraUnitsCost(comps[1..], l1, l2, ratio);
      MoneyOrder(Covered(c, r1), Covered(c, r2), c.price);
      var tokens := Covered(c, r2) - Covered(c, r1);
      MoneyDifference(Covered(c, r1), Covered(c, r2), c.price);
      if c.factor > 0.0 {
        PricedByUnits(tokens, c, ratio);
        MoneyDifference(l2 - l1, r2 - r1, ratio);
      }
      hide Money, Covered, Left, Weight;
    }
  }

  /** The largest price of one package unit over the components with a positive factor. */
  function MaxUnitPrice(comps: seq<Component>): real {
    if comps == [] then 0.0
    else if comps[0].factor > 0.0 then Max(comps[0].price / comps[0].factor, MaxUnitPrice(comps[1..]))
    else MaxUnitPrice(comps[1..])
  }

  lemma {:induction false} MaxUnitPriceBounds(comps: seq<Component>)
    ensures PriceBound(comps, MaxUnitPrice(comps)) && MaxUnitPrice(comps) >= 0.0
    decreases |comps|
  {
    if comps != [] {
      MaxUnitPriceBounds(comps[1..]);
      var ratio := MaxUnitPrice(comps);
      forall i | 0 <= i < |comps| && comps[i].factor > 0.0
        ensures comps[i].price <= Weight(ratio, comps[i].factor)
      {
        if i == 0 {
          QuotientOrder(comps[0].price, comps[0].factor, ratio);
        } else {
          var c := comps[1..][i - 1];
          assert c == comps[i];
          ScaleUp(MaxUnitPrice(comps[1..]), ratio, c.factor);
        }
      }
    }
  }

  lemma ScaleUp(a: real, b: real, f: real)
    requires a <= b && f >= 0.0
    ensures Weight(a, f) <= Weight(b, f)
  {
    assert (b - a) * f >= 0.0;
  }

  /**
   * Settlement is monotone in the reservation: a larger one never lowers the package cost, never
   * raises the wallet amount, and changes the cost by at most the largest unit price per extra unit.
   */
  lemma SettlementIsMonotone(
    usage: TokenUsage, cacheWriteTokens: u64, prices: PriceSnapshot, mode: Option<AccountingMode>,
    input: real, output: real, cache: real, low: u64, high: u64, payment: PaymentMode)
    requires ValidPrices(prices) && low <= high
    ensures var a := Settle(usage, cacheWriteTokens, prices, mode, input, output, cache, low, payment);
            var b := Settle(usage, cacheWriteTokens, prices, mode, input, output, cache, high, payment);
            var ratio := MaxUnitPrice(Components(usage, EffectiveFactors(mode, input, output, cache), prices));
            && a.packagePricedCost <= b.packagePricedCost
            && b.walletAmount <= a.walletAmount
            && a.actualPricedCost == b.actualPricedCost
            && b.packagePricedCost - a.packagePricedCost <= Money((high - low) as real, ratio)
  {
    var f := EffectiveFactors(mode, input, output, cache);
    var comps := Components(usage, f, prices);
    assert NonNegativePrices(comps);
    MaxUnitPriceBounds(comps);
    var ratio := MaxUnitPrice(comps);
    var units := ActualUnits(usage, mode, f);
    var a := if units <= low then units else low;
    var b := if units <= high then units else high;
    MoneyOrder((b - a) as real, (high - low) as real, ratio);
    hide CoverCost, ActualCost, ActualUnits, Components, Money, NonNegativePrices, PriceBound, MaxUnitPrice;
    ExtraUnitsCost(comps, a as real, b as real, ratio);
  }

  // ---- What the package pays for, kind by kind ----

  /** The tokens that some units buy at a factor. */
  function Buys(units: real, factor: real): real
    requires factor > 0.0
  {
    units / factor
  }

  lemma BuysNothing(factor: real)
    requires factor > 0.0
    ensures Buys(0.0, factor) == 0.0
  {
    QuotientOrder(0.0, factor, 0.0);
    ZeroTokens(factor);
  }

  lemma StageCovers(c: Component, r: real)
    requires c.factor > 0.0 && r >= 0.0
    ensures Covered(c, r) == if r <= Weight(c.tokens as real, c.factor) then Buys(r, c.factor) else c.tokens as real
    ensures Left(c, r) ==
            if r <= Weight(c.tokens as real, c.factor) then 0.0 else r - Weight(c.tokens as real, c.factor)
  {
    OneComponent(c, r);
    QuotientOrder(r, c.factor, c.tokens as real);
    BuysNothing(c.factor);
    hide Weight, Left;
  }

  /** A component that the units do not exceed, or one that they do. */
  lemma StageCost(c: Component, rest: seq<Component>, r: real)
    requires c.factor > 0.0 && r >= 0.0
    ensures CoverCost([c] + rest, r) ==
            if r <= Weight(c.tokens as real, c.factor) then Money(Buys(r, c.factor), c.price)
            else Money(c.tokens as real, c.price) + CoverCost(rest, r - Weight(c.tokens as real, c.factor))
  {
    assert ([c] + rest)[1..] == rest;
    hide CoverCost, Money, Weight, Covered, Left, Buys;
    UnfoldCost([c] + rest, r);
    StageCovers(c, r);
    NoUnitsNoCost(rest);
  }

  lemma {:induction false} NoUnitsNoCost(comps: seq<Component>)
    ensures CoverCost(comps, 0.0) == 0.0
    decreases |comps|
  {
    if comps == [] {
      NothingLeft(0.0);
    } else {
      hide CoverCost;
      NextComponent(comps, 0.0);
      NoUnitsNoCost(comps[1..]);
    }
  }

  lemma LastStageCost(c: Component, r: real)
    requires c.factor == 1.0 && r >= 0.0
    ensures CoverCost([c], r) == Money(Min(r, c.tokens as real), c.price)
  {
    StageCost(c, [], r);
    assert [c] + [] == [c];
    UnitWeight(c.tokens as real);
    NothingLeft(r - c.tokens as real);
    assert Buys(r, 1.0) == r;
    hide CoverCost, Money, Weight;
  }

  lemma FourComponents(usage: TokenUsage, f: Factors, prices: PriceSnapshot)
    ensures Components(usage, f, prices) ==
            [Component(usage.prompt, f.input, prices.prompt)]
            + ([Component(usage.completion, f.output, prices.completion)]
               + ([Component(usage.cacheHit, f.cache, prices.cacheRead)]
                  + [Component(usage.cacheWrite, f.cacheWrite, prices.cacheWrite)]))
  {
  }

  /**
   * Package units pay for uncached input first, then output, then cache reads, then cache writes, each at
   * its own price and by its own factor.
   */
  lemma PaidStageByStage(
    usage: TokenUsage, prices: PriceSnapshot, input: real, output: real, cache: real, r: real)
    requires input > 0.0 && output > 0.0 && cache > 0.0 && r >= 0.0
    ensures var cost := CoverCost(Components(usage, Factors(input, output, cache, 1.0), prices), r);
            var w1 := Weight(usage.prompt as real, input);
            var w2 := w1 + Weight(usage.completion as real, output);
            var w3 := w2 + Weight(usage.cacheHit as real, cache);
            var p := Money(usage.prompt as real, prices.prompt);
            var c := Money(usage.completion as real, prices.completion);
            var h := Money(usage.cacheHit as real, prices.cacheRead);
            cost == if r <= w1 then Money(Buys(r, input), prices.prompt)
                    else if r <= w2 then p + Money(Buys(r - w1, output), prices.completion)
                    else if r <= w3 then p + c + Money(Buys(r - w2, cache), prices.cacheRead)
                    else p + c + h + Money(Min(r - w3, usage.cacheWrite as real), prices.cacheWrite)
  {
    hide CoverCost, Money, Weight, Buys, Components;
    FourComponents(usage, Factors(input, output, cache, 1.0), prices);
    var first := Component(usage.prompt, input, prices.prompt);
    var second := Component(usage.completion, output, prices.completion);
    var third := Component(usage.cacheHit, cache, prices.cacheRead);
    var fourth := Component(usage.cacheWrite, 1.0, prices.cacheWrite);
    var w1 := Weight(usage.prompt as real, input);
    var w2 := w1 + Weight(usage.completion as real, output);
    var w3 := w2 + Weight(usage.cacheHit as real, cache);
    StageCost(first, [second] + ([third] + [fourth]), r);
    if r > w1 {
      StageCost(second, [third] + [fourth], r - w1);
      if r > w2 {
        StageCost(third, [fourth], r - w2);
        if r > w3 {
          LastStageCost(fourth, r - w3);
        }
      }
    }
  }

  /** In credits mode with positive factors, stage by stage, for every reservation. */
  lemma CreditsPayByKind(
    usage: TokenUsage, cacheWriteTokens: u64, prices: PriceSnapshot,
    input: real, output: real, cache: real, reserved: u64, payment: PaymentMode)
    requires input > 0.0 && output > 0.0 && cache > 0.0
    ensures var b := Settle(usage, cacheWriteTokens, prices, Some(StandardizedCredits),
                            input, output, cache, reserved, payment);
            var r := b.packageUnits as real;
            var w1 := Weight(usage.prompt as real, input);
            var w2 := w1 + Weight(usage.completion as real, output);
            var w3 := w2 + Weight(usage.cacheHit as real, cache);
            var p := Money(usage.prompt as real, prices.prompt);
            var c := Money(usage.completion as real, prices.completion);
            var h := Money(usage.cacheHit as real, prices.cacheRead);
            b.packagePricedCost ==
            if r <= w1 then Money(Buys(r, input), prices.prompt)
            else if r <= w2 then p + Money(Buys(r - w1, output), prices.completion)
            else if r <= w3 then p + c + Money(Buys(r - w2, cache), prices.cacheRead)
            else p + c + h + Money(Min(r - w3, usage.cacheWrite as real), prices.cacheWrite)
  {
    hide CoverCost, Components, ActualUnits, ActualCost, Money, Weight, Buys;
    var b := Settle(usage, cacheWriteTokens, prices, Some(StandardizedCredits),
                    input, output, cache, reserved, payment);
    PaidStageByStage(usage, prices, input, output, cache, b.packageUnits as real);
  }

  lemma OneUnitEach(tokens: real)
    ensures Weight(tokens, 1.0) == tokens && Buys(tokens, 1.0) == tokens
  {
  }

  /** In raw mode every token takes one unit, in the same order, whatever the factors. */
  lemma RawPaysByKind(
    usage: TokenUsage, cacheWriteTokens: u64, prices: PriceSnapshot, mode: Option<AccountingMode>,
    input: real, output: real, cache: real, reserved: u64, payment: PaymentMode)
    requires mode != Some(StandardizedCredits)
    ensures var b := Settle(usage, cacheWriteTokens, prices, mode, input, output, cache, reserved, payment);
            var r := b.packageUnits;
            var w2 := usage.prompt + usage.completion;
            var w3 := w2 + usage.cacheHit;
            var p := Money(usage.prompt as real, prices.prompt);
            var c := Money(usage.completion as real, prices.completion);
            var h := Money(usage.cacheHit as real, prices.cacheRead);
            && b.packagePricedCost ==
               (if r <= usage.prompt then Money(r as real, prices.prompt)
                else if r <= w2 then p + Money((r - usage.prompt) as real, prices.completion)
                else if r <= w3 then p + c + Money((r - w2) as real, prices.cacheRead)
                else p + c + h + Money((r - w3) as real, prices.cacheWrite))
            && r <= w3 + usage.cacheWrite
            && (reserved <= usage.prompt ==> b.packagePricedCost == Money(reserved as real, prices.prompt))
  {
    hide CoverCost, Components, ActualCost, Money, Weight, Buys, usage.RawUnits;
    var b := Settle(usage, cacheWriteTokens, prices, mode, input, output, cache, reserved, payment);
    var r := b.packageUnits as real;
    PaidStageByStage(usage, prices, 1.0, 1.0, 1.0, r);
    RawUnitsSaturate(usage);
    OneUnitEach(usage.prompt as real);
    OneUnitEach(usage.completion as real);
    OneUnitEach(usage.cacheHit as real);
    OneUnitEach(r);
    OneUnitEach(r - usage.prompt as real);
    OneUnitEach(r - usage.prompt as real - usage.completion as real);
  }

  /** The units of a request, by its own counts and the factors given; they stop at the largest 64-bit number. */
  lemma UnitsAre(
    usage: TokenUsage, cacheWriteTokens: u64, prices: PriceSnapshot, mode: Option<AccountingMode>,
    input: real, output: real, cache: real, reserved: u64, payment: PaymentMode)
    ensures var b := Settle(usage, cacheWriteTokens, prices, mode, input, output, cache, reserved, payment);
            var weight := WeightedUsage(usage, Factors(input, output, cache, 1.0));
            && b.packageUnits == (if b.actualUnits <= reserved then b.actualUnits else reserved)
            && (mode == Some(StandardizedCredits) ==>
                  if weight <= 0.0 then b.actualUnits == 0
                  else if weight > 18_446_744_073_709_551_615.0 then b.actualUnits == 18_446_744_073_709_551_615
                  else weight <= b.actualUnits as real < weight + 1.0)
  {
    hide CoverCost, Components, ActualCost, WeightedUsage, usage.RawUnits, usage.StandardizedCredits;
    CreditsOf(usage, Factors(input, output, cache, 1.0));
    CeilBounds(Max(WeightedUsage(usage, Factors(input, output, cache, 1.0)), 0.0));
  }

  /** In raw mode the units are the sum of the counts, stopped in the same way. */
  lemma RawUnitsAre(
    usage: TokenUsage, cacheWriteTokens: u64, prices: PriceSnapshot, mode: Option<AccountingMode>,
    input: real, output: real, cache: real, reserved: u64, payment: PaymentMode)
    requires mode != Some(StandardizedCredits)
    ensures var b := Settle(usage, cacheWriteTokens, prices, mode, input, output, cache, reserved, payment);
            var sum := usage.prompt + usage.completion + usage.cacheHit + usage.cacheWrite;
            b.actualUnits == if sum < 18_446_744_073_709_551_616 then sum else 18_446_744_073_709_551_615
  {
    hide CoverCost, Components, ActualCost, usage.RawUnits;
    RawUnitsSaturate(usage);
  }

  /** Ten tokens of input and ten of output, ten units reserved: the package pays for the input. */
  lemma InputIsPaidFirst()
    ensures var b := Settle(TokenUsage(10, 10, 0, 0), 0, PriceSnapshot(0.20, 1.20, 0.0, 0.0), Some(RawTokens),
                            1.0, 1.0, 1.0, 10, Metered);
            b.actualPricedCost == 0.000014 && b.packagePricedCost == 0.000002 && b.walletAmount == 0.000012
  {
    var usage, prices := TokenUsage(10, 10, 0, 0), PriceSnapshot(0.20, 1.20, 0.0, 0.0);
    RawPaysByKind(usage, 0, prices, Some(RawTokens), 1.0, 1.0, 1.0, 10, Metered);
    CostIsConserved(usage, 0, prices, Some(RawTokens), 1.0, 1.0, 1.0, 10);
    RawUnitsAre(usage, 0, prices, Some(RawTokens), 1.0, 1.0, 1.0, 10, Metered);
    UnitsAre(usage, 0, prices, Some(RawTokens), 1.0, 1.0, 1.0, 10, Metered);
    assert ActualCost(usage, 0, prices) == 0.000014;
    hide CoverCost, Components, WeightedUsage, usage.RawUnits, ActualCost;
  }
}

/** Weighted round robin over counter values, and its exactness. */
module WeightedPick {
  import opened BoundedInts
  import opened Division

  function Sum(ws: seq<nat>): nat {
    if ws == [] then 0 else ws[0] + Sum(ws[1..])
  }

  /** The weight before candidate `i`. */
  function Prefix(ws: seq<nat>, i: nat): nat
    requires i <= |ws|
  {
    if i == 0 then 0 else Prefix(ws, i - 1) + ws[i - 1]
  }

  /** The candidate whose stretch of the cumulative weights holds `pos`. */
  function Holder(ws: seq<nat>, pos: nat): (i: nat)
    requires pos < Sum(ws)
    ensures i < |ws|
  {
    if pos < ws[0] then 0 else 1 + Holder(ws[1..], pos - ws[0])
  }

  /** The candidate picked for a counter value; all-zero weights fall back to plain round robin. */
  function Pick(ws: seq<nat>, counter: nat): (i: nat)
    requires ws != []
    ensures i < |ws|
  {
    if Sum(ws) == 0 then counter % |ws| else Holder(ws, counter % Sum(ws))
  }

  lemma {:induction false} PrefixShift(ws: seq<nat>, i: nat)
    requires 0 < i <= |ws|
    ensures Prefix(ws, i) == ws[0] + Prefix(ws[1..], i - 1)
  {
    if i > 1 {
      PrefixShift(ws, i - 1);
    }
  }

  lemma {:induction false} PrefixIsSum(ws: seq<nat>)
    ensures Prefix(ws, |ws|) == Sum(ws)
    decreases |ws|
  {
    if ws != [] {
      PrefixShift(ws, |ws|);
      PrefixIsSum(ws[1..]);
    }
  }

  lemma {:induction false} PrefixMonotone(ws: seq<nat>, i: nat, j: nat)
    requires i <= j <= |ws|
    ensures Prefix(ws, i) <= Prefix(ws, j)
    decreases j
  {
    if i < j {
      PrefixMonotone(ws, i, j - 1);
    }
  }

  /** A position belongs to exactly the candidate whose stretch contains it. */
  lemma {:induction false} HolderIff(ws: seq<nat>, pos: nat, i: nat)
    requires pos < Sum(ws) && i < |ws|
    ensures Holder(ws, pos) == i <==> Prefix(ws, i) <= pos < Prefix(ws, i + 1)
    decreases |ws|
  {
    PrefixShift(ws, i + 1);
    if i > 0 {
      PrefixShift(ws, i);
      PrefixMonotone(ws, 0, i);
      if pos >= ws[0] {
        HolderIff(ws[1..], pos - ws[0], i - 1);
      } else {
        PrefixMonotone(ws[1..], 0, i - 1);
      }
    }
  }

  // ---- Counting picks ----

  /** How many of the `n` counter values from `start` pick candidate `i`. */
  function Picks(ws: seq<nat>, start: nat, n: nat, i: nat): nat
    requires ws != []
  {
    if n == 0 then 0 else Picks(ws, start, n - 1, i) + if Pick(ws, start + n - 1) == i then 1 else 0
  }

  function Clamp(x: int, lo: int, hi: int): int
    requires lo <= hi
  {
    if x < lo then lo else if x > hi then hi else x
  }

  /** Within the first cycle, candidate `i` has been picked as often as its stretch has been reached. */
  lemma {:induction false} FirstCycle(ws: seq<nat>, n: nat, i: nat)
    requires i < |ws| && 0 < Sum(ws) && n <= Sum(ws)
    requires Prefix(ws, i) <= Prefix(ws, i + 1)
    ensures Picks(ws, 0, n, i) == Clamp(n, Prefix(ws, i), Prefix(ws, i + 1)) - Prefix(ws, i)
    decreases n
  {
    if n > 0 {
      FirstCycle(ws, n - 1, i);
      DivisionUnique(n - 1, 0, n - 1, Sum(ws));
      HolderIff(ws, n - 1, i);
      hide Sum, Prefix, Holder;
    }
  }

  lemma {:induction false} PicksSplit(ws: seq<nat>, start: nat, m: nat, n: nat, i: nat)
    requires ws != []
    ensures Picks(ws, start, m + n, i) == Picks(ws, start, m, i) + Picks(ws, start + m, n, i)
    decreases n
  {
    if n > 0 {
      PicksSplit(ws, start, m, n - 1, i);
    }
  }

  lemma NextCycle(c: nat, w: nat)
    requires w > 0
    ensures (c + w) % w == c % w
  {
    var q, r := c / w, c % w;
    assert c == q * w + r;
    assert (q + 1) * w == q * w + w;
    DivisionUnique(c + w, q + 1, r, w);
  }

  lemma PickPeriodic(ws: seq<nat>, c: nat)
    requires Sum(ws) > 0
    ensures Pick(ws, c + Sum(ws)) == Pick(ws, c)
  {
    NextCycle(c, Sum(ws));
  }

  /** Every window of one cycle picks candidate `i` exactly as often as its weight says. */
  lemma {:induction false} CycleIsExact(ws: seq<nat>, start: nat, i: nat)
    requires i < |ws| && Sum(ws) > 0
    ensures Picks(ws, start, Sum(ws), i) == ws[i]
    decreases start
  {
    var w := Sum(ws);
    if start == 0 {
      PrefixMonotone(ws, i + 1, |ws|);
      PrefixIsSum(ws);
      FirstCycle(ws, w, i);
    } else {
      CycleIsExact(ws, start - 1, i);
      PicksSplit(ws, start - 1, 1, w, i);
      PicksSplit(ws, start - 1, w, 1, i);
      assert Picks(ws, start - 1, 0, i) == 0 && Picks(ws, start - 1 + w, 0, i) == 0;
      PickPeriodic(ws, start - 1);
      assert Picks(ws, start - 1, 1, i) == Picks(ws, start - 1 + w, 1, i);
    }
  }

  lemma {:induction false} CyclesAreExact(ws: seq<nat>, start: nat, q: nat, i: nat)
    requires i < |ws| && Sum(ws) > 0
    ensures Picks(ws, start, q * Sum(ws), i) == q * ws[i]
    decreases q
  {
    if q > 0 {
      var w := Sum(ws);
      assert q * w == (q - 1) * w + w;
      CyclesAreExact(ws, start, q - 1, i);
      PicksSplit(ws, start, (q - 1) * w, w, i);
      CycleIsExact(ws, start + (q - 1) * w, i);
      assert q * ws[i] == (q - 1) * ws[i] + ws[i];
    }
  }

  /**
   * A fair number of picks of candidate `i` among `n`: its weight for every whole cycle, and at most
   * its weight again for a cycle begun.
   */
  ghost predicate FairShare(picks: nat, n: nat, ws: seq<nat>, i: nat)
    requires i < |ws| && Sum(ws) > 0
  {
    && n / Sum(ws) * ws[i] <= picks <= (n / Sum(ws) + 1) * ws[i]
    && (n % Sum(ws) == 0 ==> picks == n / Sum(ws) * ws[i])
  }

  /** Any number of consecutive picks: whole cycles count fully, the rest at most once more. */
  lemma PicksAreFair(ws: seq<nat>, start: nat, n: nat, i: nat)
    requires i < |ws| && Sum(ws) > 0
    ensures FairShare(Picks(ws, start, n, i), n, ws, i)
  {
    var w := Sum(ws);
    var q, r := n / w, n % w;
    DivMod(n, w);
    CyclesAreExact(ws, start, q, i);
    PicksSplit(ws, start, q * w, r, i);
    CycleIsExact(ws, start + q * w, i);
    PicksSplit(ws, start + q * w, r, w - r, i);
    Distribute(q, ws[i]);
    hide Picks, Sum;
  }

  lemma DivMod(n: nat, w: nat)
    requires w > 0
    ensures n == n / w * w + n % w && 0 <= n % w < w
  {
  }

  lemma Distribute(q: nat, x: nat)
    ensures (q + 1) * x == q * x + x
  {
  }

  function Ones(n: nat): (ws: seq<nat>)
    ensures |ws| == n
  {
    seq(n, _ => 1)
  }

  lemma {:induction false} OnesSum(n: nat)
    ensures Sum(Ones(n)) == n
  {
    if n > 0 {
      assert Ones(n)[1..] == Ones(n - 1);
      OnesSum(n - 1);
    }
  }

  lemma {:induction false} OnesPrefix(n: nat, i: nat)
    requires i <= n
    ensures Prefix(Ones(n), i) == i
    decreases i
  {
    if i > 0 {
      OnesPrefix(n, i - 1);
    }
  }

  /** Plain round robin is the weighted one with unit weights, so it picks each candidate once per round. */
  lemma RoundRobinIsUnitWeights(n: nat, counter: nat)
    requires n > 0
    ensures Pick(Ones(n), counter) == counter % n
  {
    OnesSum(n);
    var i := counter % n;
    OnesPrefix(n, i);
    OnesPrefix(n, i + 1);
    HolderIff(Ones(n), i, i);
  }

  /** Plain round robin picks each of n candidates exactly once in any n consecutive counter values. */
  lemma RoundRobinOncePerRound(n: nat, start: nat, i: nat)
    requires i < n
    ensures Picks(Ones(n), start, n, i) == 1
    ensures forall c: nat :: Pick(Ones(n), c) == c % n
  {
    OnesSum(n);
    CycleIsExact(Ones(n), start, i);
    forall c: nat
      ensures Pick(Ones(n), c) == c % n
    {
      RoundRobinIsUnitWeights(n, c);
    }
  }

  // ---- The picks of 32-bit arithmetic ----

  /** Weight sums as the machine holds them. */
  function WrappedPrefix(ws: seq<nat>, i: nat): nat
    requires i <= |ws|
  {
    Prefix(ws, i) % U32_LIMIT
  }

  /** The first candidate from `i` on whose cumulative weight exceeds `pos`. */
  function FirstAbove(ws: seq<nat>, pos: nat, i: nat): (r: nat)
    requires i < |ws| && pos < WrappedPrefix(ws, |ws|)
    ensures i <= r < |ws| && pos < WrappedPrefix(ws, r + 1)
    ensures forall j :: i < j <= r ==> WrappedPrefix(ws, j) <= pos
    decreases |ws| - i
  {
    if pos < WrappedPrefix(ws, i + 1) then i else FirstAbove(ws, pos, i + 1)
  }

  /** The candidate picked for a counter value when weight sums wrap at 32 bits. */
  function PickWrapped(ws: seq<nat>, counter: nat): (i: nat)
    requires ws != []
    ensures i < |ws|
  {
    var total := WrappedPrefix(ws, |ws|);
    if total == 0 then counter % |ws| else FirstAbove(ws, counter % total, 0)
  }

  lemma FirstAboveIff(ws: seq<nat>, pos: nat, k: nat)
    requires k < |ws| && pos < WrappedPrefix(ws, |ws|)
    ensures FirstAbove(ws, pos, 0) == k <==>
            pos < WrappedPrefix(ws, k + 1) && forall j :: 0 < j <= k ==> WrappedPrefix(ws, j) <= pos
  {
    var r := FirstAbove(ws, pos, 0);
    hide WrappedPrefix;
    assert r < k ==> 0 < r + 1 <= k;
    assert k < r ==> WrappedPrefix(ws, k + 1) <= pos;
  }

  lemma PrefixWithoutOverflow(ws: seq<nat>, j: nat)
    requires j <= |ws| && Sum(ws) < U32_LIMIT
    ensures WrappedPrefix(ws, j) == Prefix(ws, j) <= Sum(ws)
    ensures WrappedPrefix(ws, |ws|) == Sum(ws)
  {
    PrefixMonotone(ws, j, |ws|);
    PrefixIsSum(ws);
    hide Prefix, Sum;
  }

  /** Without overflow the wrapped sums make no difference. */
  lemma PickWithoutOverflow(ws: seq<nat>, counter: nat)
    requires ws != [] && Sum(ws) < U32_LIMIT
    ensures PickWrapped(ws, counter) == Pick(ws, counter)
  {
    PrefixWithoutOverflow(ws, 0);
    if Sum(ws) > 0 {
      var pos := counter % Sum(ws);
      var k := Holder(ws, pos);
      HolderIff(ws, pos, k);
      forall j: nat | j <= |ws|
        ensures WrappedPrefix(ws, j) == Prefix(ws, j)
      {
        PrefixWithoutOverflow(ws, j);
      }
      forall j: nat | j <= k
        ensures Prefix(ws, j) <= pos
      {
        PrefixMonotone(ws, j, k);
      }
      hide Prefix, Sum, WrappedPrefix, FirstAbove, Holder;
      FirstAboveIff(ws, pos, k);
    }
  }

  lemma FirstAboveIsPositive(ws: seq<nat>, pos: nat)
    requires ws != [] && pos < WrappedPrefix(ws, |ws|)
    ensures ws[FirstAbove(ws, pos, 0)] > 0
  {
    var k := FirstAbove(ws, pos, 0);
    assert WrappedPrefix(ws, 0) == 0;
    assert WrappedPrefix(ws, k) <= pos < WrappedPrefix(ws, k + 1);
    assert Prefix(ws, k + 1) == Prefix(ws, k) + ws[k];
    hide Prefix, FirstAbove;
  }

  /**
   * A candidate of weight zero is never picked, whatever the counter, if and only if the 32-bit sum of
   * the weights is not zero, or there is no such candidate.
   */
  lemma ZeroWeightNeverPicked(ws: seq<nat>)
    requires ws != []
    ensures (forall c: nat :: ws[PickWrapped(ws, c)] > 0)
       <==> WrappedPrefix(ws, |ws|) > 0 || forall i :: 0 <= i < |ws| ==> ws[i] > 0
  {
    var total := WrappedPrefix(ws, |ws|);
    if total > 0 {
      forall c: nat
        ensures ws[PickWrapped(ws, c)] > 0
      {
        FirstAboveIsPositive(ws, c % total);
      }
    } else if i :| 0 <= i < |ws| && ws[i] == 0 {
      DivisionUnique(i, 0, i, |ws|);
      assert PickWrapped(ws, i) == i;
    }
    hide WrappedPrefix, FirstAbove;
  }

  /** Weights that overflow: the second candidate holds weight two and is never picked. */
  lemma OverflowStarves()
    ensures var ws := [4_294_967_295, 2];
            !CyclesAreFair(ws) && forall c: nat :: PickWrapped(ws, c) == 0
  {
    var ws := [4_294_967_295, 2];
    assert ws[1..] == [2] && ws[1..][1..] == [];
    assert Sum([2]) == 2 && Sum(ws) == U32_LIMIT + 1;
    PrefixIsSum(ws);
    assert Prefix(ws, 1) == Prefix(ws, 0) + ws[0];
    CyclesAreFairIff(ws);
    forall c: nat
      ensures PickWrapped(ws, c) == 0
    {
      FirstAboveIff(ws, 0, 0);
      assert c % 1 == 0;
    }
  }

  /** How many of the `n` counter values from `start` pick candidate `i`. */
  function WrappedPicks(ws: seq<nat>, start: nat, n: nat, i: nat): nat
    requires ws != []
  {
    if n == 0 then 0
    else WrappedPicks(ws, start, n - 1, i) + if PickWrapped(ws, start + n - 1) == i then 1 else 0
  }

  lemma {:induction false} SamePicks(ws: seq<nat>, vs: seq<nat>, start: nat, n: nat, i: nat)
    requires ws != [] && vs != []
    requires forall c: nat :: PickWrapped(ws, c) == Pick(vs, c)
    ensures WrappedPicks(ws, start, n, i) == Picks(vs, start, n, i)
    decreases n
  {
    hide Pick, PickWrapped;
    if n > 0 {
      SamePicks(ws, vs, start, n - 1, i);
    }
  }

  /** Every cycle picks each candidate exactly as often as its weight says. */
  ghost predicate CyclesAreFair(ws: seq<nat>)
    requires ws != []
  {
    forall start: nat, i: nat :: i < |ws| ==> WrappedPicks(ws, start, Sum(ws), i) == ws[i]
  }

  predicate AllEqual(ws: seq<nat>) {
    forall i, j :: 0 <= i < |ws| && 0 <= j < |ws| ==> ws[i] == ws[j]
  }

  lemma FairWithoutOverflow(ws: seq<nat>)
    requires ws != [] && 0 < Sum(ws) < U32_LIMIT
    ensures CyclesAreFair(ws)
  {
    forall c: nat
      ensures PickWrapped(ws, c) == Pick(ws, c)
    {
      PickWithoutOverflow(ws, c);
    }
    hide PickWrapped, Pick;
    forall start: nat, i: nat | i < |ws|
      ensures WrappedPicks(ws, start, Sum(ws), i) == ws[i]
    {
      SamePicks(ws, ws, start, Sum(ws), i);
      CycleIsExact(ws, start, i);
    }
  }

  lemma {:induction false} EqualSum(ws: seq<nat>, w: nat)
    requires forall i :: 0 <= i < |ws| ==> ws[i] == w
    ensures Sum(ws) == |ws| * w
    decreases |ws|
  {
    if ws != [] {
      EqualSum(ws[1..], w);
      assert |ws| * w == (|ws| - 1) * w + w;
    }
  }

  /** When the wrapped total is zero the picks are plain round robin. */
  lemma WrappedToNothing(ws: seq<nat>)
    requires ws != [] && Sum(ws) % U32_LIMIT == 0
    ensures forall c: nat :: PickWrapped(ws, c) == Pick(Ones(|ws|), c)
    ensures Sum(Ones(|ws|)) == |ws|
  {
    PrefixIsSum(ws);
    OnesSum(|ws|);
    forall c: nat
      ensures PickWrapped(ws, c) == Pick(Ones(|ws|), c)
    {
      RoundRobinIsUnitWeights(|ws|, c);
    }
  }

  lemma FairWhenEqual(ws: seq<nat>)
    requires ws != [] && Sum(ws) % U32_LIMIT == 0 && AllEqual(ws)
    ensures CyclesAreFair(ws)
  {
    var n, w := |ws|, ws[0];
    EqualSum(ws, w);
    WrappedToNothing(ws);
    hide PickWrapped, Pick, Sum, Ones;
    forall start: nat, i: nat | i < n
      ensures WrappedPicks(ws, start, Sum(ws), i) == ws[i]
    {
      SamePicks(ws, Ones(n), start, Sum(ws), i);
      OnesAt(n, i);
      CyclesAreExact(Ones(n), start, w, i);
      assert w * Sum(Ones(n)) == n * w;
    }
  }

  lemma OnesAt(n: nat, i: nat)
    requires i < n
    ensures Ones(n)[i] == 1
  {
  }

  lemma EqualWhenFair(ws: seq<nat>)
    requires ws != [] && 0 < Sum(ws) && Sum(ws) % U32_LIMIT == 0 && CyclesAreFair(ws)
    ensures AllEqual(ws)
  {
    var n, total := |ws|, Sum(ws);
    WrappedToNothing(ws);
    forall start: nat, i: nat | i < n
      ensures Picks(Ones(n), start, total, i) == ws[i]
    {
      SamePicks(ws, Ones(n), start, total, i);
      assert WrappedPicks(ws, start, total, i) == ws[i];
    }
    RoundIsWhole(ws, n, total);
    var q := total / n;
    assert total == q * n;
    forall i | 0 <= i < n
      ensures ws[i] == q
    {
      CyclesAreExact(Ones(n), 0, q, i);
      OnesAt(n, i);
    }
  }

  /** Equal counts from two neighbouring starts mean that the cycle is a whole number of rounds. */
  lemma RoundIsWhole(ws: seq<nat>, n: nat, total: nat)
    requires n == |ws| && n > 0 && total > 0
    requires forall start: nat, i: nat :: i < n ==> Picks(Ones(n), start, total, i) == ws[i]
    ensures total % n == 0
  {
    var first := Picks(Ones(n), 1, total, 0);
    assert first == Picks(Ones(n), 0, total, 0) == ws[0];
    PicksSplit(Ones(n), 0, 1, total, 0);
    PicksSplit(Ones(n), 0, total, 1, 0);
    RoundRobinIsUnitWeights(n, 0);
    RoundRobinIsUnitWeights(n, total);
    OnePick(Ones(n), 0, 0);
    OnePick(Ones(n), total, 0);
  }

  lemma OnePick(ws: seq<nat>, start: nat, i: nat)
    requires ws != []
    ensures Picks(ws, start, 1, i) == if Pick(ws, start) == i then 1 else 0
  {
    assert Picks(ws, start, 0, i) == 0;
  }

  lemma {:induction false} FirstPositive(ws: seq<nat>) returns (j: nat)
    requires Sum(ws) > 0
    ensures j < |ws| && ws[j] > 0 && Prefix(ws, j) == 0
    ensures forall i :: 0 <= i <= j ==> Prefix(ws, i) == 0
    decreases |ws|
  {
    if ws[0] > 0 {
      j := 0;
    } else {
      var k := FirstPositive(ws[1..]);
      j := k + 1;
      forall i | 0 <= i <= j
        ensures Prefix(ws, i) == 0
      {
        if i > 0 {
          PrefixShift(ws, i);
        }
      }
    }
  }

  /** The first candidate with any weight holds the positions below its weight, whatever wraps later. */
  lemma FirstPositiveAbove(ws: seq<nat>, j: nat, pos: nat)
    requires j < |ws| && pos < ws[j] < U32_LIMIT && pos < WrappedPrefix(ws, |ws|)
    requires forall i :: 0 <= i <= j ==> Prefix(ws, i) == 0
    ensures FirstAbove(ws, pos, 0) == j
  {
    assert Prefix(ws, j + 1) == ws[j];
    hide Prefix, FirstAbove;
    FirstAboveIff(ws, pos, j);
  }

  lemma FirstPositiveHolds(ws: seq<nat>, j: nat, counter: nat)
    requires j < |ws| && ws[j] < U32_LIMIT && WrappedPrefix(ws, |ws|) > 0
    requires forall i :: 0 <= i <= j ==> Prefix(ws, i) == 0
    requires counter % WrappedPrefix(ws, |ws|) < ws[j]
    ensures PickWrapped(ws, counter) == j
  {
    hide Prefix, FirstAbove, WrappedPrefix;
    FirstPositiveAbove(ws, j, counter % WrappedPrefix(ws, |ws|));
  }

  lemma {:induction false} AllPicked(ws: seq<nat>, n: nat, i: nat)
    requires ws != [] && forall c: nat :: c < n ==> PickWrapped(ws, c) == i
    ensures WrappedPicks(ws, 0, n, i) == n
    decreases n
  {
    hide PickWrapped;
    if n > 0 {
      AllPicked(ws, n - 1, i);
    }
  }

  lemma {:induction false} PicksGrow(ws: seq<nat>, m: nat, n: nat, i: nat)
    requires ws != [] && m <= n
    ensures WrappedPicks(ws, 0, m, i) <= WrappedPicks(ws, 0, n, i)
    decreases n
  {
    hide PickWrapped;
    if m < n {
      PicksGrow(ws, m, n - 1, i);
    }
  }

  lemma OvercountIsUnfair(ws: seq<nat>, j: nat, extra: nat)
    requires j < |ws| && ws[j] <= extra < Sum(ws)
    requires forall c: nat :: c < ws[j] ==> PickWrapped(ws, c) == j
    requires PickWrapped(ws, extra) == j
    ensures !CyclesAreFair(ws)
  {
    hide PickWrapped, Sum;
    AllPicked(ws, ws[j], j);
    PicksGrow(ws, ws[j], extra, j);
    assert WrappedPicks(ws, 0, extra + 1, j) == WrappedPicks(ws, 0, extra, j) + 1;
    PicksGrow(ws, extra + 1, Sum(ws), j);
    assert WrappedPicks(ws, 0, Sum(ws), j) > ws[j];
  }

  /** An overflow that leaves a remainder favours the first candidate with any weight. */
  lemma UnfairAfterOverflow(ws: seq<nat>)
    requires ws != [] && U32_LIMIT <= Sum(ws) && Sum(ws) % U32_LIMIT != 0
    requires forall i :: 0 <= i < |ws| ==> ws[i] < U32_LIMIT
    ensures !CyclesAreFair(ws)
  {
    PrefixIsSum(ws);
    var j := FirstPositive(ws);
    var w, total := ws[j], WrappedPrefix(ws, |ws|);
    assert 0 < total < U32_LIMIT;
    hide PickWrapped, Sum, Prefix, WrappedPrefix, CyclesAreFair;
    forall c: nat | c < w
      ensures PickWrapped(ws, c) == j
    {
      ModAtMost(c, total);
      FirstPositiveHolds(ws, j, c);
    }
    var extra := if total >= w then total else w;
    Leftover(total, w);
    FirstPositiveHolds(ws, j, extra);
    OvercountIsUnfair(ws, j, extra);
  }

  lemma Leftover(total: nat, w: nat)
    requires 0 < total && 0 < w
    ensures (if total >= w then total else w) % total < w
  {
  }

  lemma ModAtMost(c: nat, w: nat)
    requires w > 0
    ensures c % w <= c
  {
    DivMod(c, w);
    assert c / w * w >= 0;
  }

  /**
   * With weights of 32 bits, not all zero, every cycle is exact if and only if the weights add up to
   * less than 2^32, or to a multiple of it and are all equal.
   */
  lemma CyclesAreFairIff(ws: seq<nat>)
    requires Sum(ws) > 0 && forall i :: 0 <= i < |ws| ==> ws[i] < U32_LIMIT
    ensures CyclesAreFair(ws) <==>
            Sum(ws) < 4_294_967_296 || (Sum(ws) % 4_294_967_296 == 0 && AllEqual(ws))
  {
    hide CyclesAreFair, AllEqual;
    if Sum(ws) < U32_LIMIT {
      FairWithoutOverflow(ws);
    } else if Sum(ws) % U32_LIMIT != 0 {
      UnfairAfterOverflow(ws);
    } else {
      if CyclesAreFair(ws) {
        EqualWhenFair(ws);
      }
      if AllEqual(ws) {
        FairWhenEqual(ws);
      }
    }
  }
}

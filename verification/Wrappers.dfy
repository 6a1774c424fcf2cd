/** Optional values, in the form used for the gateway's `Option` results. */
module Wrappers {
  datatype Option<+T> = None | Some(value: T) {
    function GetOr(default: T): T {
      match this
      case Some(v) => v
      case None => default
    }
  }
}

/** The machine integers of the gateway and the operations that depend on their width. */
module BoundedInts {
  const U64_LIMIT: int := 0x1_0000_0000_0000_0000
  const U64_MAX: int := U64_LIMIT - 1
  const U32_LIMIT: int := 0x1_0000_0000

  type u64 = n: int | 0 <= n < U64_LIMIT
  type u32 = n: int | 0 <= n < U32_LIMIT

  function SaturatingAdd(a: u64, b: u64): u64 {
    if a + b < U64_LIMIT then a + b else U64_MAX
  }

  function SaturatingSub(a: u64, b: u64): u64 {
    if a >= b then a - b else 0
  }
}

/** Sequences of numbers in order. */
module Ordered {
  predicate StrictlyIncreasing(q: seq<nat>) {
    forall i, j :: 0 <= i < j < |q| ==> q[i] < q[j]
  }
}

/** Quotients and remainders. */
module Division {
  lemma MultiplesApart(a: int, b: int, w: int)
    requires a < b && w > 0
    ensures a * w + w <= b * w
  {
    var d := b - a - 1;
    assert d * w >= 0;
    assert b * w == a * w + w + d * w;
  }

  /** Quotient and remainder are determined by their defining equation. */
  lemma SameDivision(q1: int, r1: int, q2: int, r2: int, w: int)
    requires q1 * w + r1 == q2 * w + r2 && 0 <= r1 < w && 0 <= r2 < w
    ensures q1 == q2 && r1 == r2
  {
    if q1 < q2 {
      MultiplesApart(q1, q2, w);
    } else if q2 < q1 {
      MultiplesApart(q2, q1, w);
    }
  }

  lemma DivisionUnique(x: int, q: int, r: int, w: int)
    requires w > 0 && x == q * w + r && 0 <= r < w
    ensures x % w == r && x / w == q
  {
    SameDivision(x / w, x % w, q, r, w);
  }
}

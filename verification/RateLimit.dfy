/**
 * The fixed-window limiters: one Redis counter with a time to live, moved by atomic scripts.
 * Instants are milliseconds.
 */
module RateLimit {
  import opened Wrappers

  const WINDOW: nat := 60_000

  /** A Redis counter key; `expiresAt` is absent while no expiry is set. */
  datatype Key = Absent | Counter(count: nat, expiresAt: Option<nat>) {
    /** The key as a script at `now` finds it. */
    function At(now: nat): Key {
      if Counter? && expiresAt.Some? && now >= expiresAt.value then Absent else this
    }

    function Count(): nat {
      if Counter? then count else 0
    }

    function Expiry(): Option<nat> {
      if Counter? then expiresAt else None
    }
  }

  predicate TokensAllowed(key: Key, now: nat, limit: nat, tokens: nat) {
    key.At(now).Count() + tokens <= limit
  }

  /** INCRBY keeps the expiry; a counter that equals its increment has just begun, and gets 60 seconds. */
  function AfterTokens(key: Key, now: nat, limit: nat, tokens: nat): Key {
    var cur := key.At(now);
    if !TokensAllowed(key, now, limit, tokens) then cur
    else
      var new_ := cur.Count() + tokens;
      Counter(new_, if new_ == tokens then Some(now + WINDOW) else cur.Expiry())
  }

  class RateLimiter {
    var key: Key

    constructor ()
      ensures key == Absent
    {
      key := Absent;
    }

    /** Token limiter. */
    method RateLimitTpm(now: nat, limit: nat, tokens: nat) returns (allowed: bool)
      modifies this
      ensures allowed == TokensAllowed(old(key), now, limit, tokens)
      ensures key == AfterTokens(old(key), now, limit, tokens)
    {
      key := key.At(now);
      var cur := key.Count();
      if cur + tokens > limit {
        return false;
      }
      key := Counter(cur + tokens, key.Expiry());
      if key.count == tokens {
        key := Counter(key.count, Some(now + WINDOW));
      }
      return true;
    }

    /** Request limiter: the token limiter with one token a request. */
    method RateLimitRpm(now: nat, limit: nat) returns (allowed: bool)
      modifies this
      ensures allowed == TokensAllowed(old(key), now, limit, 1)
      ensures key == AfterTokens(old(key), now, limit, 1)
    {
      key := key.At(now);
      var cur := key.Count();
      if cur >= limit {
        return false;
      }
      key := Counter(cur + 1, key.Expiry());
      if key.count == 1 {
        key := Counter(key.count, Some(now + WINDOW));
      }
      return true;
    }
  }

  // ---- Runs ----

  /** A request at an instant; the limit may change from request to request. */
  datatype Request = Request(now: nat, limit: nat, tokens: nat)

  function KeyAfter(rs: seq<Request>): Key {
    if rs == [] then Absent
    else
      var r := rs[|rs| - 1];
      AfterTokens(KeyAfter(rs[..|rs| - 1]), r.now, r.limit, r.tokens)
  }

  /** Whether the last request of a run is admitted. */
  predicate LastAdmitted(rs: seq<Request>)
    requires rs != []
  {
    var r := rs[|rs| - 1];
    TokensAllowed(KeyAfter(rs[..|rs| - 1]), r.now, r.limit, r.tokens)
  }

  /** The tokens admitted at instants in [from, to). */
  function Admitted(rs: seq<Request>, from: nat, to: nat): nat {
    if rs == [] then 0
    else
      var r := rs[|rs| - 1];
      Admitted(rs[..|rs| - 1], from, to) + if from <= r.now < to && LastAdmitted(rs) then r.tokens else 0
  }

  predicate InOrder(rs: seq<Request>) {
    forall i, j :: 0 <= i < j < |rs| ==> rs[i].now <= rs[j].now
  }

  predicate LimitedBy(rs: seq<Request>, limit: nat) {
    forall i :: 0 <= i < |rs| ==> rs[i].limit <= limit
  }

  /** A window of positive use: when it began, and what has been admitted in it. */
  datatype Window = Window(begun: nat, tokens: nat)

  /** The latest window of a run. */
  function LatestWindow(rs: seq<Request>): Option<Window> {
    if rs == [] then None
    else
      var init, r := rs[..|rs| - 1], rs[|rs| - 1];
      var before := LatestWindow(init);
      if r.tokens == 0 || !LastAdmitted(rs) then before
      else if KeyAfter(init).At(r.now).Count() == 0 || before.None? then Some(Window(r.now, r.tokens))
      else Some(before.value.(tokens := before.value.tokens + r.tokens))
  }

  function LastInstant(rs: seq<Request>): nat {
    if rs == [] then 0 else rs[|rs| - 1].now
  }

  /** The key holds the latest window, or that window is over. */
  ghost predicate KeyHolds(rs: seq<Request>, limit: nat) {
    var key, w := KeyAfter(rs), LatestWindow(rs);
    && (key.Counter? ==> key.expiresAt.Some?)
    && (key.Count() > 0 ==> w.Some? && key.expiresAt == Some(w.value.begun + WINDOW) && key.count == w.value.tokens)
    && (w.Some? ==>
          && 0 < w.value.tokens <= limit
          && w.value.begun <= LastInstant(rs)
          && (key.Count() == 0 ==> w.value.begun + WINDOW <= LastInstant(rs)))
  }

  lemma InOrderPrefix(rs: seq<Request>, limit: nat)
    requires rs != [] && InOrder(rs) && LimitedBy(rs, limit)
    ensures InOrder(rs[..|rs| - 1]) && LimitedBy(rs[..|rs| - 1], limit)
    ensures LastInstant(rs[..|rs| - 1]) <= LastInstant(rs)
  {
  }

  /** A counter never lacks its expiry, and one that counts is the admitted total of a running window. */
  lemma {:induction false} KeyInvariant(rs: seq<Request>, limit: nat)
    requires InOrder(rs) && LimitedBy(rs, limit)
    ensures KeyHolds(rs, limit)
    decreases |rs|
  {
    if rs != [] {
      InOrderPrefix(rs, limit);
      KeyInvariant(rs[..|rs| - 1], limit);
      hide InOrder;
    }
  }

  lemma {:induction false} NothingBefore(rs: seq<Request>, from: nat, to: nat)
    requires InOrder(rs) && LastInstant(rs) < from
    ensures Admitted(rs, from, to) == 0
    decreases |rs|
  {
    if rs != [] {
      InOrderPrefix(rs, MaxLimit(rs));
      NothingBefore(rs[..|rs| - 1], from, to);
    }
  }

  function MaxLimit(rs: seq<Request>): (m: nat)
    ensures LimitedBy(rs, m)
  {
    if rs == [] then 0
    else
      var m := MaxLimit(rs[..|rs| - 1]);
      if rs[|rs| - 1].limit > m then rs[|rs| - 1].limit else m
  }

  /** What an interval of one window length has seen, by where the latest window began. */
  ghost predicate IntervalBound(rs: seq<Request>, limit: nat, from: nat) {
    var seen, w := Admitted(rs, from, from + WINDOW), LatestWindow(rs);
    match w
    case None => seen == 0
    case Some(win) =>
      if win.begun < from then seen <= win.tokens - 1
      else if win.begun < from + WINDOW then seen <= limit - 1 + win.tokens
      else seen <= 2 * limit - 1
  }

  lemma {:induction false} IntervalInvariant(rs: seq<Request>, limit: nat, from: nat)
    requires InOrder(rs) && LimitedBy(rs, limit)
    ensures IntervalBound(rs, limit, from)
    decreases |rs|
  {
    if rs != [] {
      var init := rs[..|rs| - 1];
      InOrderPrefix(rs, limit);
      KeyInvariant(init, limit);
      KeyInvariant(rs, limit);
      IntervalInvariant(init, limit, from);
      if LastInstant(rs) < from {
        NothingBefore(rs, from, from + WINDOW);
      }
      hide InOrder, LimitedBy;
    }
  }

  /**
   * In every run of the limiter with limits up to `limit`, any half-open 60-second interval admits
   * at most 2 * limit - 1 tokens, and nothing at all when the limit is zero.
   */
  lemma IntervalAdmitsAtMostTwiceLessOne(rs: seq<Request>, limit: nat, from: nat)
    requires InOrder(rs) && LimitedBy(rs, limit)
    ensures Admitted(rs, from, from + 60_000) <= if limit == 0 then 0 else 2 * limit - 1
  {
    KeyInvariant(rs, limit);
    IntervalInvariant(rs, limit, from);
  }

  /** The bound is reached, for every positive limit. */
  lemma BoundIsReached(limit: nat)
    requires limit > 0
    ensures var rs := [Request(0, limit, 1), Request(59_999, limit, limit - 1), Request(60_000, limit, limit)];
            InOrder(rs) && LimitedBy(rs, limit) && Admitted(rs, 59_999, 119_999) == 2 * limit - 1
  {
    var one := [Request(0, limit, 1)];
    var two := one + [Request(WINDOW - 1, limit, limit - 1)];
    var three := two + [Request(WINDOW, limit, limit)];
    assert three[..2] == two && two[..1] == one && one[..0] == [];
    assert three == [Request(0, limit, 1), Request(WINDOW - 1, limit, limit - 1), Request(WINDOW, limit, limit)];
    assert KeyAfter(one) == Counter(1, Some(WINDOW));
    assert Admitted(one, WINDOW - 1, WINDOW - 1 + WINDOW) == 0;
    assert KeyAfter(two).Count() == limit && LastAdmitted(two);
    assert LastAdmitted(three);
  }

  lemma {:induction false} AdmittedMonotone(rs: seq<Request>, from: nat, later: nat, to: nat)
    requires from <= later
    ensures Admitted(rs, later, to) <= Admitted(rs, from, to)
    decreases |rs|
  {
    if rs != [] {
      AdmittedMonotone(rs[..|rs| - 1], from, later, to);
    }
  }

  lemma AdmittedLast(rs: seq<Request>, from: nat, to: nat)
    requires rs != []
    ensures Admitted(rs, from, to) ==
            Admitted(rs[..|rs| - 1], from, to)
            + if from <= rs[|rs| - 1].now < to && LastAdmitted(rs) then rs[|rs| - 1].tokens else 0
  {
  }

  lemma NothingSinceWindow(rs: seq<Request>, limit: nat, from: nat, to: nat)
    requires InOrder(rs) && LimitedBy(rs, limit)
    requires LatestWindow(rs).Some? ==> LatestWindow(rs).value.begun + WINDOW <= from
    ensures Admitted(rs, from, to) == 0
    decreases |rs|, 1
  {
    WindowHasAll(rs, limit, to);
    AdmittedMonotone(rs, if LatestWindow(rs).None? then 0 else LatestWindow(rs).value.begun + WINDOW, from, to);
  }

  /** Everything admitted from the beginning of the latest window on, and nothing after its end. */
  lemma {:induction false} WindowHasAll(rs: seq<Request>, limit: nat, to: nat)
    requires InOrder(rs) && LimitedBy(rs, limit)
    ensures match LatestWindow(rs)
            case None => Admitted(rs, 0, to) == 0
            case Some(w) =>
              && Admitted(rs, w.begun, w.begun + WINDOW) == w.tokens
              && Admitted(rs, w.begun + WINDOW, to) == 0
    decreases |rs|, 0
  {
    if rs != [] {
      var init, r := rs[..|rs| - 1], rs[|rs| - 1];
      InOrderPrefix(rs, limit);
      KeyInvariant(init, limit);
      WindowHasAll(init, limit, to);
      hide InOrder, LimitedBy, KeyAfter, AfterTokens, Admitted, LastAdmitted;
      var after := LatestWindow(rs);
      if after.None? {
        AdmittedLast(rs, 0, to);
      } else {
        AdmittedLast(rs, after.value.begun, after.value.begun + WINDOW);
        AdmittedLast(rs, after.value.begun + WINDOW, to);
      }
      if LatestWindow(init).None? || KeyAfter(init).At(r.now).Count() == 0 {
        NothingSinceWindow(init, limit, r.now, r.now + WINDOW);
        NothingSinceWindow(init, limit, r.now + WINDOW, to);
      }
    }
  }

  /** A window stays the latest, with its use, or a later one begins after its end. */
  lemma {:induction false} EarlierWindow(rs: seq<Request>, limit: nat, n: nat)
    requires InOrder(rs) && LimitedBy(rs, limit) && n <= |rs| && LatestWindow(rs[..n]).Some?
    ensures LatestWindow(rs).Some?
    ensures var w, latest := LatestWindow(rs[..n]).value, LatestWindow(rs).value;
            && Admitted(rs, w.begun, w.begun + WINDOW) <= limit
            && (latest.begun == w.begun || w.begun + WINDOW <= latest.begun)
    decreases |rs|
  {
    KeyInvariant(rs, limit);
    WindowHasAll(rs, limit, 0);
    if n < |rs| {
      var init, r := rs[..|rs| - 1], rs[|rs| - 1];
      assert init[..n] == rs[..n];
      InOrderPrefix(rs, limit);
      EarlierWindow(init, limit, n);
      KeyInvariant(init, limit);
      NextWindow(rs, limit);
      var w := LatestWindow(rs[..n]).value;
      hide InOrder, LimitedBy, KeyAfter, AfterTokens, LatestWindow, Admitted, LastAdmitted;
      AdmittedLast(rs, w.begun, w.begun + WINDOW);
    } else {
      assert rs[..n] == rs;
    }
  }

  /** One more request: it adds nothing, or to the latest window, or it begins one after that is over. */
  lemma NextWindow(rs: seq<Request>, limit: nat)
    requires rs != [] && InOrder(rs) && LimitedBy(rs, limit) && LatestWindow(rs[..|rs| - 1]).Some?
    ensures var before, r := LatestWindow(rs[..|rs| - 1]).value, rs[|rs| - 1];
            && LatestWindow(rs).Some?
            && before.begun <= r.now
            && (LatestWindow(rs).value.begun == before.begun
                || (before.begun + WINDOW <= r.now && LatestWindow(rs).value.begun == r.now))
  {
    InOrderPrefix(rs, limit);
    KeyInvariant(rs[..|rs| - 1], limit);
    hide InOrder, LimitedBy, KeyAfter, AfterTokens, LastAdmitted;
  }

  /**
   * Each window admits at most the limit: in every run, each window that was ever the latest admits at
   * most the limit within its 60 seconds; and while the latest one is in use, the key counts exactly
   * what it has admitted and expires at its end.
   */
  lemma WindowAdmitsAtMostLimit(rs: seq<Request>, limit: nat, n: nat)
    requires InOrder(rs) && LimitedBy(rs, limit) && n <= |rs| && LatestWindow(rs[..n]).Some?
    ensures var w := LatestWindow(rs[..n]).value;
            && Admitted(rs, w.begun, w.begun + 60_000) <= limit
            && (n == |rs| && KeyAfter(rs).Count() > 0 ==>
                  KeyAfter(rs) == Counter(Admitted(rs, w.begun, w.begun + 60_000), Some(w.begun + 60_000)))
  {
    EarlierWindow(rs, limit, n);
    KeyInvariant(rs, limit);
    WindowHasAll(rs, limit, 0);
    assert n == |rs| ==> rs[..n] == rs;
    hide InOrder, LimitedBy, LatestWindow, KeyAfter, Admitted;
  }

  /** The tokens admitted in the 60 seconds from `from`. */
  function AdmittedInMinute(rs: seq<Request>, from: nat): nat {
    Admitted(rs, from, from + 60_000)
  }

  ghost predicate EveryMinuteWithin(limit: nat, bound: nat) {
    forall rs, from: nat :: InOrder(rs) && LimitedBy(rs, limit) ==> AdmittedInMinute(rs, from) <= bound
  }

  /** The bound on every interval, exactly; so each admits at most the limit only for limits up to one. */
  lemma EveryMinuteWithinIff(limit: nat, bound: nat)
    ensures EveryMinuteWithin(limit, bound) <==> (if limit == 0 then 0 else 2 * limit - 1) <= bound
    ensures EveryMinuteWithin(limit, limit) <==> limit <= 1
  {
    forall rs, from: nat | InOrder(rs) && LimitedBy(rs, limit)
      ensures AdmittedInMinute(rs, from) <= if limit == 0 then 0 else 2 * limit - 1
    {
      IntervalAdmitsAtMostTwiceLessOne(rs, limit, from);
    }
    if limit > 0 {
      BoundIsReached(limit);
      var rs := [Request(0, limit, 1), Request(WINDOW - 1, limit, limit - 1), Request(WINDOW, limit, limit)];
      assert AdmittedInMinute(rs, WINDOW - 1) == 2 * limit - 1;
    }
    hide InOrder, LimitedBy, AdmittedInMinute;
  }

  /** What the window running at `now` has admitted; nothing once its 60 seconds are over. */
  function UsedAt(rs: seq<Request>, now: nat): nat {
    match LatestWindow(rs)
    case Some(w) => if now < w.begun + 60_000 then Admitted(rs, w.begun, w.begun + 60_000) else 0
    case None => 0
  }

  /** In every run the next request is admitted exactly when the running window has room for its tokens. */
  lemma AdmittedIffRoom(rs: seq<Request>, now: nat, limit: nat, tokens: nat)
    requires InOrder(rs) && LastInstant(rs) <= now
    ensures TokensAllowed(KeyAfter(rs), now, limit, tokens) <==> UsedAt(rs, now) + tokens <= limit
  {
    KeyInvariant(rs, MaxLimit(rs));
    WindowHasAll(rs, MaxLimit(rs), 0);
    hide InOrder, LimitedBy, KeyAfter, LatestWindow, Admitted, LastInstant;
  }
}

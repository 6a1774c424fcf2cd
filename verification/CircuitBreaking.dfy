/** The per-endpoint circuit breaker. Instants are nanoseconds of a monotonic clock. */
module CircuitBreaking {
  import opened Wrappers
  import opened BoundedInts

  const NANOS_PER_SEC: nat := 1_000_000_000

  datatype Status = Closed | Open | HalfOpen

  datatype Limits = Limits(threshold: u32, cooldownSecs: u64)

  function ElapsedSecs(since: nat, now: nat): nat {
    if now >= since then (now - since) / NANOS_PER_SEC else 0
  }

  /** The state of a breaker as a value. */
  datatype Breaker = Breaker(
    enabled: bool, status: Status, failureCount: u32, lastFailure: Option<nat>, halfOpenInFlight: bool)
  {
    predicate CooledDown(lim: Limits, now: nat) {
      lastFailure.Some? && ElapsedSecs(lastFailure.value, now) >= lim.cooldownSecs
    }

    /** Whether the endpoint can receive traffic, without claiming anything. */
    predicate Ready(lim: Limits, now: nat) {
      && enabled
      && match status
         case Closed => true
         case HalfOpen => !halfOpenInFlight
         case Open => CooledDown(lim, now)
    }

    /** The state after asking for traffic: a ready breaker that is not closed grants its one trial. */
    function Claim(lim: Limits, now: nat): Breaker {
      if !Ready(lim, now) || status.Closed? then this
      else if status.HalfOpen? then this.(halfOpenInFlight := true)
      else this.(status := HalfOpen, failureCount := 0, halfOpenInFlight := true)
    }

    function Switch(on: bool): Breaker {
      if on && !enabled then Breaker(true, Closed, 0, None, false) else this.(enabled := on)
    }

    function Succeed(): Breaker {
      this.(failureCount := 0, status := Closed, halfOpenInFlight := false)
    }

    /** The failure counter wraps at 32 bits. */
    function Fail(lim: Limits, now: nat): Breaker {
      var count := (failureCount + 1) % U32_LIMIT;
      this.(failureCount := count, lastFailure := Some(now), halfOpenInFlight := false,
            status := if status.HalfOpen? || count >= lim.threshold then Open else status)
    }
  }

  function NewBreaker(enabled: bool): Breaker {
    Breaker(enabled, Closed, 0, None, false)
  }

  class CircuitBreaker {
    const threshold: u32
    const cooldownSecs: u64
    var enabled: bool
    var status: Status
    var failureCount: u32
    var lastFailure: Option<nat>
    var halfOpenInFlight: bool

    ghost function View(): Breaker
      reads this
    {
      Breaker(enabled, status, failureCount, lastFailure, halfOpenInFlight)
    }

    ghost function Config(): Limits {
      Limits(threshold, cooldownSecs)
    }

    constructor (enabled: bool, threshold: u32, cooldownSecs: u64)
      ensures View() == NewBreaker(enabled) && Config() == Limits(threshold, cooldownSecs)
    {
      this.enabled := enabled;
      this.threshold := threshold;
      this.cooldownSecs := cooldownSecs;
      status := Closed;
      failureCount := 0;
      lastFailure := None;
      halfOpenInFlight := false;
    }

    /** Availability, claiming the trial of a breaker that is not closed. */
    method IsAvailable(now: nat) returns (ok: bool)
      modifies this
      ensures ok == old(View()).Ready(Config(), now)
      ensures View() == old(View()).Claim(Config(), now)
    {
      if !enabled {
        return false;
      }
      match status {
        case Closed =>
          return true;
        case HalfOpen =>
          if halfOpenInFlight {
            return false;
          } else {
            halfOpenInFlight := true;
            return true;
          }
        case Open =>
          if lastFailure.Some? && ElapsedSecs(lastFailure.value, now) >= cooldownSecs {
            status := HalfOpen;
            failureCount := 0;
            halfOpenInFlight := true;
            return true;
          } else {
            return false;
          }
      }
    }

    method IsAvailableReadonly(now: nat) returns (ok: bool)
      ensures ok == View().Ready(Config(), now)
    {
      if !enabled {
        return false;
      }
      match status {
        case Closed => return true;
        case HalfOpen => return !halfOpenInFlight;
        case Open => return lastFailure.Some? && ElapsedSecs(lastFailure.value, now) >= cooldownSecs;
      }
    }

    method SetEnabled(on: bool)
      modifies this
      ensures View() == old(View()).Switch(on)
    {
      if on && !enabled {
        status := Closed;
        failureCount := 0;
        lastFailure := None;
        halfOpenInFlight := false;
      }
      enabled := on;
    }

    method RecordSuccess()
      modifies this
      ensures View() == old(View()).Succeed()
    {
      failureCount := 0;
      status := Closed;
      halfOpenInFlight := false;
    }

    method RecordFailure(now: nat)
      modifies this
      ensures View() == old(View()).Fail(Config(), now)
    {
      failureCount := (failureCount + 1) % U32_LIMIT;
      lastFailure := Some(now);
      halfOpenInFlight := false;
      if status == HalfOpen || failureCount >= threshold {
        status := Open;
      }
    }
  }
}

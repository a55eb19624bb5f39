/** Bounded retry of reads: how often they are sent, what comes back, how long they sleep. */
module Retries {
  import opened Options
  import opened Failures

  datatype Policy = Policy(maxAttempts: nat, base: real, maximum: real)

  const PROMOTION_BASE := 1.0
  const PROMOTION_MAXIMUM := 15.0

  predicate ValidPolicy(p: Policy) {
    0.0 <= p.base && 0.0 <= p.maximum
  }

  function Pow2(n: nat): nat {
    if n == 0 then 1 else 2 * Pow2(n - 1)
  }

  function Min(a: real, b: real): real {
    if a <= b then a else b
  }

  function Ceiling(p: Policy, attempt: nat): real {
    Min(p.maximum, p.base * (Pow2(attempt) as real))
  }

  /** Server Retry-After first, otherwise a jittered share of the exponential ceiling. */
  function Delay(p: Policy, attempt: nat, retryAfter: Option<real>, jitter: real): real {
    Chosen(retryAfter, p.maximum, jitter, Ceiling(p, attempt))
  }

  function Chosen(retryAfter: Option<real>, maximum: real, jitter: real, ceiling: real): real {
    if retryAfter.Some? && retryAfter.value >= 0.0 then Min(retryAfter.value, maximum)
    else jitter * ceiling
  }

  lemma JitteredBounds(retryAfter: Option<real>, maximum: real, jitter: real, ceiling: real)
    requires 0.0 <= jitter <= 1.0 && 0.0 <= ceiling <= maximum
    ensures 0.0 <= Chosen(retryAfter, maximum, jitter, ceiling) <= maximum
    ensures retryAfter.Some? && 0.0 <= retryAfter.value <= maximum ==>
              Chosen(retryAfter, maximum, jitter, ceiling) == retryAfter.value
    ensures retryAfter.Some? && maximum < retryAfter.value ==> Chosen(retryAfter, maximum, jitter, ceiling) == maximum
    ensures retryAfter.None? || retryAfter.value < 0.0 ==>
              && (jitter == 0.0 ==> Chosen(retryAfter, maximum, jitter, ceiling) == 0.0)
              && (jitter == 1.0 ==> Chosen(retryAfter, maximum, jitter, ceiling) == ceiling)
    ensures retryAfter.None? ==> Chosen(retryAfter, maximum, jitter, ceiling) <= ceiling
  {
    Share(jitter, ceiling);
  }

  lemma Product(a: real, b: real)
    requires 0.0 <= a && 0.0 <= b
    ensures 0.0 <= a * b
  {
  }

  lemma Share(part: real, whole: real)
    requires 0.0 <= part <= 1.0 && 0.0 <= whole
    ensures 0.0 <= part * whole <= whole
  {
    Product(part, whole);
    Product(1.0 - part, whole);
    assert (1.0 - part) * whole == whole - part * whole;
  }

  lemma CeilingBounds(p: Policy, attempt: nat)
    requires ValidPolicy(p)
    ensures 0.0 <= Ceiling(p, attempt) <= p.maximum
    ensures Ceiling(p, attempt) <= p.base * (Pow2(attempt) as real)
  {
    Product(p.base, Pow2(attempt) as real);
  }

  /** The ceiling is the smaller of the maximum and the base doubled once an attempt. */
  lemma CeilingIsTheSmaller(p: Policy, attempt: nat)
    ensures Ceiling(p, attempt) == p.maximum || Ceiling(p, attempt) == p.base * (Pow2(attempt) as real)
    ensures Ceiling(p, attempt) <= p.maximum && Ceiling(p, attempt) <= p.base * (Pow2(attempt) as real)
  {
  }

  lemma DelayBounds(p: Policy, attempt: nat, retryAfter: Option<real>, jitter: real)
    requires ValidPolicy(p) && 0.0 <= jitter <= 1.0
    ensures 0.0 <= Delay(p, attempt, retryAfter, jitter) <= p.maximum
    // a Retry-After is honoured up to the maximum, and jitter spans everything up to the ceiling
    ensures retryAfter.Some? && 0.0 <= retryAfter.value ==>
              Delay(p, attempt, retryAfter, jitter) ==
                if retryAfter.value <= p.maximum then retryAfter.value else p.maximum
    ensures retryAfter.None? || retryAfter.value < 0.0 ==>
              && (jitter == 0.0 ==> Delay(p, attempt, retryAfter, jitter) == 0.0)
              && (jitter == 1.0 ==> Delay(p, attempt, retryAfter, jitter) == Ceiling(p, attempt))
    ensures retryAfter.None? ==> Delay(p, attempt, retryAfter, jitter) <= Ceiling(p, attempt)
  {
    CeilingBounds(p, attempt);
    JitteredBounds(retryAfter, p.maximum, jitter, Ceiling(p, attempt));
  }

  /** The longest `sleeps` delays in a row can take when no server dictates them. */
  function SleepCeiling(p: Policy, sleeps: nat): real {
    if sleeps == 0 then 0.0 else SleepCeiling(p, sleeps - 1) + Ceiling(p, sleeps - 1)
  }

  lemma Distribute(a: real, b: real, c: real)
    ensures a * (b + c) == a * b + a * c
  {
  }

  /** Whatever the attempts, each sleep is at most the maximum. */
  lemma {:induction false} SleepCeilingLinear(p: Policy, sleeps: nat)
    requires ValidPolicy(p)
    ensures 0.0 <= SleepCeiling(p, sleeps) <= sleeps as real * p.maximum
  {
    if sleeps != 0 {
      SleepCeilingLinear(p, sleeps - 1);
      CeilingBounds(p, sleeps - 1);
      LinearStep(sleeps - 1, SleepCeiling(p, sleeps - 1), Ceiling(p, sleeps - 1), p.maximum);
    }
  }

  /** Together the exponential ceilings stay below one further doubling of the base. */
  lemma {:induction false} SleepCeilingExponential(p: Policy, sleeps: nat)
    requires ValidPolicy(p)
    ensures SleepCeiling(p, sleeps) <= p.base * ((Pow2(sleeps) - 1) as real)
  {
    if sleeps != 0 {
      var power: int := Pow2(sleeps - 1);
      SleepCeilingExponential(p, sleeps - 1);
      CeilingBounds(p, sleeps - 1);
      Distribute(p.base, (power - 1) as real, power as real);
      assert (Pow2(sleeps) - 1) as real == (power - 1) as real + power as real;
    }
  }

  lemma {:induction false} SleepCeilingMonotone(p: Policy, fewer: nat, more: nat)
    requires ValidPolicy(p) && fewer <= more
    ensures SleepCeiling(p, fewer) <= SleepCeiling(p, more)
    decreases more
  {
    if fewer < more {
      SleepCeilingMonotone(p, fewer, more - 1);
      CeilingBounds(p, more - 1);
    }
  }

  function PromotionPolicy(attempts: nat): Policy {
    Policy(attempts, PROMOTION_BASE, PROMOTION_MAXIMUM)
  }

  /** Ten attempts are the most a configuration allows, and they sleep at most 90 seconds. */
  lemma PromotionSleepsAtMostNinetySeconds(attempts: nat)
    requires 1 <= attempts <= 10
    ensures SleepCeiling(PromotionPolicy(attempts), attempts - 1) <= 90.0
  {
    var p := PromotionPolicy(attempts);
    SleepCeilingMonotone(p, attempts - 1, 9);
    assert Pow2(0) == 1 && Pow2(1) == 2 && Pow2(2) == 4 && Pow2(3) == 8;
    assert SleepCeiling(p, 4) == 15.0 by {
      assert SleepCeiling(p, 1) == 1.0;
      assert SleepCeiling(p, 2) == 3.0;
      assert SleepCeiling(p, 3) == 7.0;
    }
    assert SleepCeiling(p, 6) <= 45.0;
    assert SleepCeiling(p, 8) <= 75.0;
  }

  // ----- the loops -----

  /** A loop that made this many calls slept between them. */
  function Sleeps(calls: nat): nat {
    if calls == 0 then 0 else calls - 1
  }

  datatype Reply<+T> = Answer(value: T) | Raised(error: Failure, retryAfter: Option<real>)

  /** Transient service responses, an eventually consistent not-found, and transport errors. */
  predicate Retryable(f: Failure) {
    || f == Transport
    || (f.Service? && f.status in {429, 500, 502, 503, 504})
    || f == Service(404, "NotAuthorizedOrNotFound")
  }

  /** Retry-After is taken only from a service response. */
  function HeaderOf(error: Failure, retryAfter: Option<real>): Option<real> {
    if error.Service? then retryAfter else None
  }

  /** The translation of an exception: the Retry-After of a retryable one, nothing for any other. */
  function RetryableException(error: Failure, retryAfter: Option<real>): (r: Option<Option<real>>)
    ensures r == if Retryable(error) then Some(HeaderOf(error, retryAfter)) else None
  {
    match error
    case Service(status, code) =>
      if status != 429 && status != 500 && status != 502 && status != 503 && status != 504
         && !(status == 404 && code == "NotAuthorizedOrNotFound")
      then None
      else Some(retryAfter)
    case Transport => Some(None)
    case _ => None
  }

  /** What the Retry-After of the first `calls` replies adds up to, each counted up to the maximum. */
  function Asked<T>(operation: nat -> Reply<T>, p: Policy, calls: nat): real {
    if calls == 0 then 0.0
    else
      var reply := operation(calls - 1);
      var header := HeaderIn(reply);
      Asked(operation, p, calls - 1)
      + if header.Some? && 0.0 <= header.value then Min(header.value, p.maximum) else 0.0
  }

  predicate ShouldRetry<T>(reply: Reply<T>) {
    reply.Raised? && Retryable(reply.error)
  }

  predicate NoHeaders<T>(operation: nat -> Reply<T>, calls: nat) {
    forall i | 0 <= i < calls :: operation(i).Raised? ==> operation(i).retryAfter.None?
  }

  function Outcome<T>(reply: Reply<T>): Result<T, Failure> {
    match reply
    case Answer(value) => Ok(value)
    case Raised(error, _) => Err(error)
  }

  /** Sleep for the delay of this attempt, with whatever jitter. */
  method Pause(p: Policy, attempt: nat, retryAfter: Option<real>) returns (delay: real)
    requires ValidPolicy(p)
    ensures 0.0 <= delay <= p.maximum
    ensures retryAfter.Some? && 0.0 <= retryAfter.value ==> delay == Min(retryAfter.value, p.maximum)
    ensures retryAfter.None? ==> delay <= Ceiling(p, attempt)
  {
    var jitter: real :| 0.0 <= jitter <= 1.0;
    DelayBounds(p, attempt, retryAfter, jitter);
    return Delay(p, attempt, retryAfter, jitter);
  }

  lemma LinearStep(sleeps: nat, slept: real, delay: real, maximum: real)
    requires 0.0 <= slept <= sleeps as real * maximum && 0.0 <= delay <= maximum
    ensures 0.0 <= slept + delay <= (sleeps + 1) as real * maximum
  {
    Distribute(maximum, sleeps as real, 1.0);
  }

  /**
   The time the sleeps after the first replies took: at most the maximum each,
   at least what the replies asked for, and where they asked for nothing at most
   the exponential ceilings.
   */
  predicate SleptWithin<T>(operation: nat -> Reply<T>, p: Policy, sleeps: nat, slept: real) {
    && 0.0 <= slept <= sleeps as real * p.maximum
    && Asked(operation, p, sleeps) <= slept
    && (NoHeaders(operation, sleeps) ==> slept <= SleepCeiling(p, sleeps))
  }

  /** The header a reply brings. */
  function HeaderIn<T>(reply: Reply<T>): Option<real> {
    if reply.Raised? then HeaderOf(reply.error, reply.retryAfter) else None
  }

  lemma OneMoreSleep<T>(operation: nat -> Reply<T>, p: Policy, sleeps: nat, slept: real, delay: real)
    requires SleptWithin(operation, p, sleeps, slept) && 0.0 <= delay <= p.maximum
    requires var header := HeaderIn(operation(sleeps));
             && (header.Some? && 0.0 <= header.value ==> delay == Min(header.value, p.maximum))
             && (header.None? ==> delay <= Ceiling(p, sleeps))
    ensures SleptWithin(operation, p, sleeps + 1, slept + delay)
  {
    LinearStep(sleeps, slept, delay, p.maximum);
    if NoHeaders(operation, sleeps + 1) {
      assert NoHeaders(operation, sleeps);
    }
  }

  method RetryReadSync<T>(operation: nat -> Reply<T>, p: Policy)
    returns (r: Result<T, Failure>, calls: nat, slept: real)
    requires ValidPolicy(p)
    ensures calls <= p.maxAttempts && (calls == 0 <==> p.maxAttempts == 0)
    ensures r == if calls == 0 then Err(NoAttempts) else Outcome(operation(calls - 1))
    ensures forall i | 0 <= i < calls - 1 :: ShouldRetry(operation(i))
    ensures 0 < calls && ShouldRetry(operation(calls - 1)) ==> calls == p.maxAttempts
    ensures SleptWithin(operation, p, Sleeps(calls), slept)
  {
    calls, slept := 0, 0.0;
    for attempt := 0 to p.maxAttempts
      invariant forall i | 0 <= i < attempt :: ShouldRetry(operation(i))
      invariant attempt < p.maxAttempts || p.maxAttempts == 0
      invariant SleptWithin(operation, p, attempt, slept)
    {
      calls := attempt + 1;
      match operation(attempt)
      case Answer(value) =>
        return Ok(value), calls, slept;
      case Raised(error, retryAfter) =>
        var retryable := RetryableException(error, retryAfter);
        if retryable.None? || attempt + 1 >= p.maxAttempts {
          return Err(error), calls, slept;
        }
        var delay := Pause(p, attempt, retryable.value);
        OneMoreSleep(operation, p, attempt, slept, delay);
        slept := slept + delay;
    }
    return Err(NoAttempts), 0, 0.0;
  }

  /** Repeat a read until it shows an accepted value; only the last attempt may return another. */
  method RetryReadUntilSync<T>(operation: nat -> Reply<T>, accepted: T -> bool, p: Policy)
    returns (r: Result<T, Failure>, calls: nat, slept: real)
    requires ValidPolicy(p)
    ensures calls <= p.maxAttempts && (calls == 0 <==> p.maxAttempts == 0)
    ensures r == if calls == 0 then Err(NoAttempts) else Outcome(operation(calls - 1))
    ensures forall i | 0 <= i < calls - 1 ::
              ShouldRetry(operation(i)) || (operation(i).Answer? && !accepted(operation(i).value))
    ensures r.Ok? && !accepted(r.value) ==> calls == p.maxAttempts
    ensures 0 < calls && ShouldRetry(operation(calls - 1)) ==> calls == p.maxAttempts
    ensures SleptWithin(operation, p, Sleeps(calls), slept)
  {
    calls, slept := 0, 0.0;
    for attempt := 0 to p.maxAttempts
      invariant forall i | 0 <= i < attempt ::
        ShouldRetry(operation(i)) || (operation(i).Answer? && !accepted(operation(i).value))
      invariant attempt < p.maxAttempts || p.maxAttempts == 0
      invariant SleptWithin(operation, p, attempt, slept)
    {
      calls := attempt + 1;
      var reply := operation(attempt);
      var header: Option<real> := None;
      if reply.Raised? {
        var retryable := RetryableException(reply.error, reply.retryAfter);
        if retryable.None? || attempt + 1 >= p.maxAttempts {
          return Err(reply.error), calls, slept;
        }
        header := retryable.value;
      } else if accepted(reply.value) || attempt + 1 >= p.maxAttempts {
        return Ok(reply.value), calls, slept;
      }
      var delay := Pause(p, attempt, header);
      OneMoreSleep(operation, p, attempt, slept, delay);
      slept := slept + delay;
    }
    return Err(NoAttempts), 0, 0.0;
  }
}

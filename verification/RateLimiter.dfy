/** nse_dashboard/infrastructure/brokers/base.py: the token bucket and the reconnect loop. */
module RateLimiting {
  import opened Values
  import opened Numbers

  // ----- one locked section of `acquire`

  /** Tokens earned over a stretch of time. */
  function Earned(rate: real, elapsed: real): real { elapsed * rate }

  lemma EarnedFacts(rate: real, a: real, b: real)
    requires rate > 0.0
    ensures Earned(rate, a) + Earned(rate, b) == Earned(rate, a + b)
    ensures Earned(rate, 0.0) == 0.0
    ensures 0.0 <= a ==> 0.0 <= Earned(rate, a)
    ensures a <= b ==> Earned(rate, a) <= Earned(rate, b)
  {
    assert a * rate + b * rate == (a + b) * rate;
    if 0.0 <= a {
      MulMono(0.0, a, rate);
    }
    if a <= b {
      MulMono(a, b, rate);
    }
  }

  datatype Bucket = Bucket(rate: real, capacity: real, tokens: real, updated: real)
  {
    ghost predicate Valid() { rate > 0.0 && capacity >= 1.0 && 0.0 <= tokens <= capacity }

    /** A clock that steps back earns nothing. */
    function Refilled(now: real): Bucket {
      this.(tokens := Min(capacity, tokens + Earned(rate, Max(0.0, now - updated))), updated := now)
    }

    predicate Grants(now: real) { Refilled(now).tokens >= 1.0 }

    function Attempted(now: real): Bucket {
      var b := Refilled(now);
      if b.tokens >= 1.0 then b.(tokens := b.tokens - 1.0) else b
    }

    /** How long a refused caller sleeps. */
    function WaitFor(): real
      requires rate != 0.0
    {
      (1.0 - tokens) / rate
    }

    /** Tokens stay between zero and the capacity, whatever the clock does. */
    lemma AttemptedValid(now: real)
      requires Valid()
      ensures Attempted(now).Valid()
      ensures Attempted(now).rate == rate && Attempted(now).capacity == capacity && Attempted(now).updated == now
    {
      EarnedFacts(rate, Max(0.0, now - updated), 0.0);
    }

    function Spent(now: real): real { if Grants(now) then 1.0 else 0.0 }

    /** What is left and what was spent is what was there and what was earned, up to the capacity. */
    lemma Balance(now: real)
      requires Valid()
      ensures Attempted(now).tokens + Spent(now) == Min(capacity, tokens + Earned(rate, Max(0.0, now - updated)))
    {
    }

    lemma FullBalance(now: real)
      requires Valid()
      ensures Attempted(now).tokens + Spent(now) <= capacity
      ensures tokens == capacity ==> Attempted(now).tokens + Spent(now) == capacity
    {
      EarnedFacts(rate, Max(0.0, now - updated), 0.0);
    }

    /** A refused caller that sleeps at least `WaitFor` finds a token, if nobody took one meanwhile. */
    lemma WaitSuffices(now: real, later: real)
      requires Valid() && !Grants(now)
      requires later - now >= Attempted(now).WaitFor()
      ensures Attempted(now).Grants(later)
    {
      var b := Attempted(now);
      AttemptedValid(now);
      WaitEarns(b.tokens, b.rate);
      EarnedFacts(b.rate, b.WaitFor(), Max(0.0, later - now));
    }

    /** It finds none sooner. */
    lemma WaitIsLeast(now: real, later: real)
      requires Valid() && !Grants(now) && now <= later
      ensures Attempted(now).Grants(later) <==> later - now >= Attempted(now).WaitFor()
    {
      var b := Attempted(now);
      AttemptedValid(now);
      if later - now >= b.WaitFor() {
        WaitSuffices(now, later);
      } else {
        WaitEarns(b.tokens, b.rate);
        MulStrict(later - now, b.WaitFor(), b.rate);
        assert Earned(b.rate, later - now) < Earned(b.rate, b.WaitFor()) == 1.0 - b.tokens;
        assert Max(0.0, later - b.updated) == later - now;
      }
    }

    static lemma WaitEarns(tokens: real, rate: real)
      requires rate > 0.0
      ensures Earned(rate, (1.0 - tokens) / rate) == 1.0 - tokens
    {
    }
  }

  /** `time.monotonic` and `time.sleep`: readings never step back and a sleep lasts at least as long as asked. */
  class Clock {
    var now: real

    constructor (start: real)
      ensures now == start
    {
      now := start;
    }

    method Read() returns (reading: real)
      modifies this
      ensures reading == now >= old(now)
    {
      var passed :| passed >= 0.0;
      now := now + passed;
      reading := now;
    }

    method Sleep(seconds: real)
      requires seconds >= 0.0
      modifies this
      ensures now >= old(now) + seconds
    {
      var late :| late >= 0.0;
      now := now + seconds + late;
    }
  }

  datatype InvalidLimit = NotPositive

  class RateLimiter {
    const rate: real
    const capacity: real
    var tokens: real
    var updated: real

    ghost function State(): Bucket
      reads this
    {
      Bucket(rate, capacity, tokens, updated)
    }

    /** Raises for a rate or burst that is not positive. */
    static method Create(ratePerSecond: real, burst: int, clock: Clock) returns (r: Result<RateLimiter, InvalidLimit>)
      modifies clock
      ensures r.Ok? <==> ratePerSecond > 0.0 && burst >= 1
      ensures r.Ok? ==>
                fresh(r.value) && r.value.State() == Bucket(ratePerSecond, burst as real, burst as real, clock.now)
      ensures r.Ok? ==> r.value.State().Valid()
      ensures clock.now >= old(clock.now)
    {
      if ratePerSecond <= 0.0 || burst < 1 {
        return Err(NotPositive);
      }
      var limiter := new RateLimiter(ratePerSecond, burst, clock);
      r := Ok(limiter);
    }

    constructor (ratePerSecond: real, burst: int, clock: Clock)
      requires ratePerSecond > 0.0 && burst >= 1
      modifies clock
      ensures State() == Bucket(ratePerSecond, burst as real, burst as real, clock.now) && State().Valid()
      ensures clock.now >= old(clock.now)
    {
      rate, capacity, tokens := ratePerSecond, burst as real, burst as real;
      var reading := clock.Read();
      updated := reading;
    }

    /** The locked section: None when a token was taken, otherwise how long to sleep. */
    method Attempt(now: real) returns (waitFor: Option<real>)
      requires State().Valid()
      modifies this`tokens, this`updated
      ensures State() == old(State()).Attempted(now) && State().Valid()
      ensures waitFor.None? <==> old(State()).Grants(now)
      ensures waitFor.Some? ==> waitFor.value == State().WaitFor() > 0.0
    {
      ghost var before := State();
      before.AttemptedValid(now);
      tokens := Min(capacity, tokens + Earned(rate, Max(0.0, now - updated)));
      updated := now;
      if tokens >= 1.0 {
        tokens := tokens - 1.0;
        return None;
      }
      waitFor := Some((1.0 - tokens) / rate);
      DivStrict(0.0, 1.0 - tokens, rate);
    }

    /** `acquire` with no other caller: it returns after at most one sleep, and after none exactly when a token
        is there at once. */
    method Acquire(clock: Clock) returns (sleeps: nat)
      requires State().Valid()
      modifies this`tokens, this`updated, clock
      ensures State().Valid() && sleeps <= 1
      ensures clock.now >= old(clock.now) && updated == clock.now
      ensures sleeps == 0 ==> old(State()).Grants(clock.now) && State() == old(State()).Attempted(clock.now)
      ensures sleeps == 1 ==> exists first :: old(clock.now) <= first < clock.now && !old(State()).Grants(first)
                                && State() == old(State()).Attempted(first).Attempted(clock.now)
    {
      sleeps := 0;
      ghost var first := clock.now;
      while true
        invariant State().Valid() && clock.now >= old(clock.now) && sleeps <= 1
        invariant sleeps == 0 ==> State() == old(State())
        invariant sleeps == 1 ==>
                    old(clock.now) <= first && !old(State()).Grants(first) && State() == old(State()).Attempted(first)
        invariant sleeps == 1 ==> clock.now >= first + State().WaitFor() && first < clock.now
        decreases 1 - sleeps
      {
        var now := clock.Read();
        if sleeps == 1 {
          old(State()).WaitSuffices(first, now);
        }
        var waitFor := Attempt(now);
        if waitFor.None? {
          return;
        }
        first := now;
        clock.Sleep(waitFor.value);
        sleeps := sleeps + 1;
      }
    }
  }

  // ----- all attempts of all callers, in the order they take the lock

  ghost predicate Monotone(times: seq<real>) {
    forall i, j :: 0 <= i <= j < |times| ==> times[i] <= times[j]
  }

  function After(b: Bucket, times: seq<real>): Bucket {
    if times == [] then b else After(b, times[..|times| - 1]).Attempted(times[|times| - 1])
  }

  predicate GrantedAt(b: Bucket, times: seq<real>, i: nat)
    requires i < |times|
  {
    After(b, times[..i]).Grants(times[i])
  }

  /** Grants among the attempts from `i` up to, not including, `j`. */
  function GrantCount(b: Bucket, times: seq<real>, i: nat, j: nat): nat
    requires i <= j <= |times|
  {
    if i == j then 0 else GrantCount(b, times, i, j - 1) + if GrantedAt(b, times, j - 1) then 1 else 0
  }

  /** How far the clock has moved forward from attempt `i` to attempt `j`; steps back count for nothing. */
  function Advance(times: seq<real>, i: nat, j: nat): (r: real)
    requires i <= j < |times|
    ensures r >= 0.0
  {
    if i == j then 0.0 else Advance(times, i, j - 1) + Max(0.0, times[j] - times[j - 1])
  }

  lemma {:induction false} AdvanceIsDuration(times: seq<real>, i: nat, j: nat)
    requires i <= j < |times|
    ensures times[j] - times[i] <= Advance(times, i, j)
    ensures Monotone(times) ==> Advance(times, i, j) == times[j] - times[i]
  {
    if i < j {
      AdvanceIsDuration(times, i, j - 1);
    }
  }

  /** What the window from attempt `i` to attempt `j` may spend. */
  function Allowance(b: Bucket, times: seq<real>, i: nat, j: nat): real
    requires i <= j < |times|
  {
    b.capacity + Earned(b.rate, Advance(times, i, j))
  }

  lemma {:induction false} AfterValid(b: Bucket, times: seq<real>)
    requires b.Valid()
    ensures After(b, times).Valid() && After(b, times).rate == b.rate && After(b, times).capacity == b.capacity
    ensures times != [] ==> After(b, times).updated == times[|times| - 1]
  {
    if times != [] {
      AfterValid(b, times[..|times| - 1]);
      After(b, times[..|times| - 1]).AttemptedValid(times[|times| - 1]);
    }
  }

  lemma AllowanceGrows(b: Bucket, times: seq<real>, i: nat, j: nat)
    requires b.Valid() && i < j < |times|
    ensures Allowance(b, times, i, j) ==
              Allowance(b, times, i, j - 1) + Earned(b.rate, Max(0.0, times[j] - times[j - 1]))
    ensures Allowance(b, times, j, j) == b.capacity
  {
    EarnedFacts(b.rate, Advance(times, i, j - 1), Max(0.0, times[j] - times[j - 1]));
  }

  /** Tokens left after attempt `j` and spent by it. */
  function Total(b: Bucket, times: seq<real>, j: nat): real
    requires j < |times|
  {
    After(b, times[..j + 1]).tokens + if GrantedAt(b, times, j) then 1.0 else 0.0
  }

  lemma NextTotal(b: Bucket, times: seq<real>, j: nat)
    requires b.Valid() && 0 < j < |times|
    ensures Total(b, times, j) ==
            Min(b.capacity, After(b, times[..j]).tokens + Earned(b.rate, Max(0.0, times[j] - times[j - 1])))
  {
    assert times[..j + 1][..j] == times[..j] && times[..j + 1][j] == times[j];
    AfterValid(b, times[..j]);
    assert times[..j][j - 1] == times[j - 1];
    After(b, times[..j]).Balance(times[j]);
  }

  lemma TotalCapped(b: Bucket, times: seq<real>, j: nat)
    requires b.Valid() && j < |times|
    ensures Total(b, times, j) <= b.capacity
    ensures j == 0 && b.tokens == b.capacity ==> Total(b, times, j) == b.capacity
  {
    assert times[..j + 1][..j] == times[..j] && times[..j + 1][j] == times[j];
    AfterValid(b, times[..j]);
    After(b, times[..j]).FullBalance(times[j]);
  }

  lemma CountGrows(b: Bucket, times: seq<real>, i: nat, j: nat)
    requires b.Valid() && i <= j < |times|
    ensures GrantCount(b, times, i, j + 1) as real + After(b, times[..j + 1]).tokens ==
              GrantCount(b, times, i, j) as real + Total(b, times, j)
  {
  }

  /** In every window the grants and the tokens left stay within the allowance. */
  lemma {:induction false} WindowSpend(b: Bucket, times: seq<real>, i: nat, j: nat)
    requires b.Valid() && i <= j < |times|
    ensures GrantCount(b, times, i, j + 1) as real + After(b, times[..j + 1]).tokens <= Allowance(b, times, i, j)
  {
    CountGrows(b, times, i, j);
    if i == j {
      TotalCapped(b, times, j);
      EarnedFacts(b.rate, 0.0, 0.0);
    } else {
      WindowSpend(b, times, i, j - 1);
      NextTotal(b, times, j);
      AllowanceGrows(b, times, i, j);
    }
  }

  lemma MonotoneAllowance(b: Bucket, times: seq<real>, i: nat, j: nat)
    requires Monotone(times) && i <= j < |times|
    ensures Allowance(b, times, i, j) == b.capacity + Earned(b.rate, times[j] - times[i])
  {
    AdvanceIsDuration(times, i, j);
  }

  lemma AnyWindowBound(b: Bucket, times: seq<real>, i: nat, j: nat)
    requires b.Valid() && i <= j < |times|
    ensures GrantCount(b, times, i, j + 1) as real <= Allowance(b, times, i, j)
  {
    WindowSpend(b, times, i, j);
    AfterValid(b, times[..j + 1]);
  }

  /** A number of grants that capacity and rate allow in some time. */
  ghost predicate WithinRate(b: Bucket, grants: nat, duration: real) {
    grants as real <= b.capacity + duration * b.rate
  }

  lemma RateFromEarned(b: Bucket, grants: nat, duration: real)
    ensures grants as real <= b.capacity + Earned(b.rate, duration) <==> WithinRate(b, grants, duration)
  {
  }

  /** Whatever the clock does, any window of attempts sees at most capacity + rate * forward movement of the clock
      grants. With a monotone clock the forward movement is the duration of the window. */
  lemma WindowBound(b: Bucket, times: seq<real>, i: nat, j: nat)
    requires b.Valid() && i <= j < |times|
    ensures GrantCount(b, times, i, j + 1) as real <= Allowance(b, times, i, j)
    ensures Monotone(times) ==> WithinRate(b, GrantCount(b, times, i, j + 1), times[j] - times[i])
  {
    AnyWindowBound(b, times, i, j);
    if Monotone(times) {
      MonotoneAllowance(b, times, i, j);
      RateFromEarned(b, GrantCount(b, times, i, j + 1), times[j] - times[i]);
    }
  }

  /** From a full bucket, some window always has exactly spent its allowance down to the tokens left. */
  lemma {:induction false} TightWindow(b: Bucket, times: seq<real>, j: nat) returns (i: nat)
    requires b.Valid() && b.tokens == b.capacity && j < |times|
    ensures i <= j
    ensures GrantCount(b, times, i, j + 1) as real + After(b, times[..j + 1]).tokens == Allowance(b, times, i, j)
  {
    TotalCapped(b, times, j);
    if Total(b, times, j) == b.capacity {
      i := j;
      EarnedFacts(b.rate, 0.0, 0.0);
    } else {
      i := TightWindow(b, times, j - 1);
      NextTotal(b, times, j);
      AllowanceGrows(b, times, i, j);
    }
    CountGrows(b, times, i, j);
  }

  /** The limiter is exact for every clock: an attempt is granted if and only if no window ending at it would exceed its
      allowance. */
  lemma GrantedExactly(b: Bucket, times: seq<real>, j: nat)
    requires b.Valid() && b.tokens == b.capacity && j < |times|
    ensures GrantedAt(b, times, j) <==>
            forall i :: 0 <= i <= j ==> GrantCount(b, times, i, j) as real + 1.0 <= Allowance(b, times, i, j)
  {
    AfterValid(b, times[..j + 1]);
    if GrantedAt(b, times, j) {
      forall i | 0 <= i <= j ensures GrantCount(b, times, i, j) as real + 1.0 <= Allowance(b, times, i, j) {
        WindowSpend(b, times, i, j);
        CountGrows(b, times, i, j);
        TotalWhenGranted(b, times, j);
      }
    } else {
      var i := TightWindow(b, times, j);
      CountGrows(b, times, i, j);
      TotalWhenGranted(b, times, j);
    }
  }

  lemma TotalWhenGranted(b: Bucket, times: seq<real>, j: nat)
    requires b.Valid() && j < |times|
    ensures GrantedAt(b, times, j) <==> Total(b, times, j) >= 1.0
  {
    assert times[..j + 1][..j] == times[..j] && times[..j + 1][j] == times[j];
  }

  /** With a clock that steps back the duration is no bound: the time after the step is credited twice. */
  lemma BackwardClockOverspends() returns (b: Bucket, times: seq<real>)
    ensures b.Valid() && |times| == 3 && times[0] == times[2]
    ensures GrantCount(b, times, 0, 3) as real > b.capacity + Earned(b.rate, times[2] - times[0])
  {
    b, times := Bucket(1.0, 1.0, 1.0, 10.0), [] + [10.0] + [0.0] + [10.0];
    var empty, early := Bucket(1.0, 1.0, 0.0, 10.0), Bucket(1.0, 1.0, 0.0, 0.0);
    AfterOneMore(b, [], 10.0);
    AfterOneMore(b, [] + [10.0], 0.0);
    assert After(b, []) == b && b.Attempted(10.0) == empty && empty.Attempted(0.0) == early;
    assert times[..0] == [] && times[..1] == [] + [10.0] && times[..2] == [] + [10.0] + [0.0];
    assert GrantedAt(b, times, 0) && GrantedAt(b, times, 2);
    assert GrantCount(b, times, 0, 1) == 1;
  }

  lemma AfterOneMore(b: Bucket, times: seq<real>, now: real)
    ensures After(b, times + [now]) == After(b, times).Attempted(now)
  {
    assert (times + [now])[..|times|] == times;
  }

  // ----- `_with_reconnect`

  datatype ReconnectPolicy = ReconnectPolicy(maxAttempts: nat, initialDelay: real, maxDelay: real, multiplier: real)
  {
    /** `__post_init__` refuses every other policy. */
    ghost predicate Valid() { maxAttempts >= 1 && initialDelay >= 0.0 && maxDelay >= 0.0 && multiplier >= 1.0 }

    /** The delay slept before retry `k`, counting from zero: exponential, capped from the first retry on but
        not on the initial delay itself. */
    function Delay(k: nat): real {
      if k == 0 then initialDelay else Min(maxDelay, Scaled(k))
    }

    function Scaled(k: nat): real { initialDelay * Pow(multiplier, k) }

    lemma DelayStep(k: nat)
      requires Valid()
      ensures Delay(0) == initialDelay && Min(maxDelay, Delay(k) * multiplier) == Delay(k + 1)
    {
      assert Scaled(k + 1) == Scaled(k) * multiplier by {
        assert Pow(multiplier, k + 1) == multiplier * Pow(multiplier, k);
        Reorder(initialDelay, multiplier, Pow(multiplier, k));
      }
      if k == 0 {
        assert Scaled(0) == initialDelay;
      } else if Scaled(k) > maxDelay {
        MulMono(1.0, multiplier, maxDelay);
        MulMono(maxDelay, Scaled(k), multiplier);
      }
    }
  }

  lemma Reorder(x: real, y: real, z: real)
    ensures x * (y * z) == (x * z) * y
  {
  }

  /** What one try of the operation does: it returns, or raises an exception that is retryable or not. */
  datatype Try = Returned(value: int) | Retryable | Fatal

  /** `outcomes[k]` is what the operation would do on try `k`. The call ends at the first try that is not
      retryable, or at the last allowed one, and sleeps the scheduled delays in between. */
  method WithReconnect(policy: ReconnectPolicy, outcomes: seq<Try>) returns (last: Try, tries: nat, delays: seq<real>)
    requires policy.Valid() && |outcomes| == policy.maxAttempts
    ensures 1 <= tries <= policy.maxAttempts && last == outcomes[tries - 1]
    ensures forall k :: 0 <= k < tries - 1 ==> outcomes[k].Retryable?
    ensures last.Retryable? ==> tries == policy.maxAttempts
    ensures |delays| == tries - 1 && forall k :: 0 <= k < |delays| ==> delays[k] == policy.Delay(k)
  {
    var delay := policy.initialDelay;
    delays := [];
    for attempt := 1 to policy.maxAttempts + 1
      invariant |delays| == attempt - 1 && delay == policy.Delay(attempt - 1)
      invariant forall k :: 0 <= k < attempt - 1 ==> outcomes[k].Retryable?
      invariant forall k :: 0 <= k < |delays| ==> delays[k] == policy.Delay(k)
      invariant attempt <= policy.maxAttempts
    {
      last, tries := outcomes[attempt - 1], attempt;
      if !last.Retryable? || attempt == policy.maxAttempts {
        return;
      }
      delays := delays + [delay];
      policy.DelayStep(attempt - 1);
      delay := Min(policy.maxDelay, delay * policy.multiplier);
    }
    assert false;
  }

  /** From the first retry on the delays never shrink and never exceed the maximum. */
  lemma {:induction false} DelaysGrow(policy: ReconnectPolicy, j: nat, k: nat)
    requires policy.Valid() && 1 <= j <= k
    ensures policy.Delay(j) <= policy.Delay(k) <= policy.maxDelay
  {
    if j < k {
      DelaysGrow(policy, j, k - 1);
      policy.DelayStep(k - 1);
      DelayNonnegative(policy, k - 1);
      MulMono(1.0, policy.multiplier, policy.Delay(k - 1));
    }
  }

  lemma DelayNonnegative(policy: ReconnectPolicy, k: nat)
    requires policy.Valid()
    ensures policy.Delay(k) >= 0.0
  {
    PowPositive(policy.multiplier, k);
    MulMono(0.0, policy.initialDelay, Pow(policy.multiplier, k));
  }
}

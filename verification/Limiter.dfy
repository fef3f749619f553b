/**
 * Integer token bucket (`crates/aequora-admission/src/limiter.rs`).
 *
 * All amounts are in millionths of a token. Arithmetic is 128-bit and saturating in the source;
 * `RefillIsExact` shows that no operation ever reaches the ceiling.
 */
module Limiter {
  import opened Base

  const TOKEN_SCALE := 1_000_000

  datatype RateLimit = RateLimit(tokensPerSecond: u32, burst: u32) {
    predicate Valid() {
      tokensPerSecond != 0 && burst != 0
    }
  }

  datatype Bucket = Bucket(policy: RateLimit, available: nat, updatedAtMs: u64)

  datatype Outcome = Granted | RateLimited(retryAfterMs: u64)

  function Required(tokens: u32): nat {
    SatMul(Max(tokens, 1), TOKEN_SCALE, U128_MAX)
  }

  function Refilled(b: Bucket, nowMs: u64): Bucket {
    var elapsed := SatSub(nowMs, b.updatedAtMs);
    var added := SatMul(SatMul(elapsed, b.policy.tokensPerSecond, U128_MAX), 1_000, U128_MAX);
    var maximum := SatMul(b.policy.burst, TOKEN_SCALE, U128_MAX);
    Bucket(b.policy, Min(SatAdd(b.available, added, U128_MAX), maximum), Max(nowMs, b.updatedAtMs))
  }

  function Take(b: Bucket, nowMs: u64, tokens: u32): (Bucket, Outcome)
    requires b.policy.Valid()
  {
    var full := Refilled(b, nowMs);
    var required := Required(tokens);
    if full.available >= required then
      (full.(available := full.available - required), Granted)
    else
      var missing := SatSub(required, full.available);
      var perMs := SatMul(b.policy.tokensPerSecond, 1_000, U128_MAX);
      (full, RateLimited(Max(Min(DivCeil(missing, perMs), U64_MAX), 1)))
  }

  class TokenBucket {
    const policy: RateLimit
    var available: nat
    var updatedAtMs: u64

    ghost predicate Valid()
      reads this
    {
      policy.Valid()
    }

    function Value(): Bucket
      reads this
    {
      Bucket(policy, available, updatedAtMs)
    }

    constructor (policy: RateLimit, nowMs: u64)
      requires policy.Valid()
      ensures Valid() && Value() == FullBucket(policy, nowMs)
    {
      this.policy := policy;
      available := SatMul(policy.burst, TOKEN_SCALE, U128_MAX);
      updatedAtMs := nowMs;
    }

    /** `TokenBucket::new`: a zero rate or burst is refused. */
    static method Create(policy: RateLimit, nowMs: u64) returns (r: Option<TokenBucket>)
      ensures r.Some? <==> policy.Valid()
      ensures r.Some? ==> fresh(r.value) && r.value.Valid() && r.value.Value() == FullBucket(policy, nowMs)
    {
      if policy.tokensPerSecond == 0 || policy.burst == 0 {
        return None;
      }
      var bucket := new TokenBucket(policy, nowMs);
      return Some(bucket);
    }

    method Refill(nowMs: u64)
      modifies this
      ensures Value() == Refilled(old(Value()), nowMs)
    {
      var elapsed := SatSub(nowMs, updatedAtMs);
      if nowMs > updatedAtMs {
        updatedAtMs := nowMs;
      }
      var added := SatMul(SatMul(elapsed, policy.tokensPerSecond, U128_MAX), 1_000, U128_MAX);
      var maximum := SatMul(policy.burst, TOKEN_SCALE, U128_MAX);
      available := Min(SatAdd(available, added, U128_MAX), maximum);
    }

    method TryTake(nowMs: u64, tokens: u32) returns (outcome: Outcome)
      requires Valid()
      modifies this
      ensures Valid()
      ensures (Value(), outcome) == Take(old(Value()), nowMs, tokens)
    {
      Refill(nowMs);
      var required := Required(tokens);
      if available >= required {
        available := available - required;
        return Granted;
      }
      var missing := SatSub(required, available);
      var perMs := SatMul(policy.tokensPerSecond, 1_000, U128_MAX);
      var retry := Min(DivCeil(missing, perMs), U64_MAX);
      return RateLimited(Max(retry, 1));
    }
  }

  function FullBucket(policy: RateLimit, nowMs: u64): Bucket {
    Bucket(policy, SatMul(policy.burst, TOKEN_SCALE, U128_MAX), nowMs)
  }

  predicate WithinBurst(b: Bucket) {
    b.policy.Valid() && b.available <= b.policy.burst * TOKEN_SCALE
  }

  // ---------------------------------------------------------------------------------------------
  // Exact arithmetic
  // ---------------------------------------------------------------------------------------------

  /** Nothing saturates: a refill adds exactly rate x elapsed, capped at the burst. */
  lemma RefillIsExact(b: Bucket, nowMs: u64)
    requires WithinBurst(b)
    ensures WithinBurst(Refilled(b, nowMs))
    ensures Refilled(b, nowMs).available
            == Min(b.available + SatSub(nowMs, b.updatedAtMs) * (b.policy.tokensPerSecond * 1_000),
                   b.policy.burst * TOKEN_SCALE)
  {
    var elapsed := SatSub(nowMs, b.updatedAtMs);
    var rate: nat := b.policy.tokensPerSecond;
    MulMonotone(elapsed, rate, U64_MAX, U32_MAX);
    assert elapsed * rate * 1_000 == elapsed * (rate * 1_000);
  }

  // ---------------------------------------------------------------------------------------------
  // Runs
  // ---------------------------------------------------------------------------------------------

  datatype Call = Call(nowMs: u64, tokens: u32)

  function Run(b: Bucket, calls: seq<Call>): (r: Bucket)
    requires b.policy.Valid()
    ensures r.policy == b.policy
    decreases |calls|
  {
    if calls == [] then b else Run(Take(b, calls[0].nowMs, calls[0].tokens).0, calls[1..])
  }

  /** Tokens handed out by a run; a request for zero tokens is charged as one. */
  function TokensGranted(b: Bucket, calls: seq<Call>): nat
    requires b.policy.Valid()
    decreases |calls|
  {
    if calls == [] then 0
    else
      var (next, outcome) := Take(b, calls[0].nowMs, calls[0].tokens);
      (if outcome.Granted? then Max(calls[0].tokens, 1) else 0) + TokensGranted(next, calls[1..])
  }

  function LatestTime(start: u64, calls: seq<Call>): u64
    decreases |calls|
  {
    if calls == [] then start else LatestTime(Max(start, calls[0].nowMs), calls[1..])
  }

  /** The accounting behind the rate bound, from any state and for any window of calls. */
  lemma {:induction false} WindowAccounting(b: Bucket, calls: seq<Call>)
    requires WithinBurst(b)
    decreases |calls|
    ensures WithinBurst(Run(b, calls))
    ensures Run(b, calls).updatedAtMs == LatestTime(b.updatedAtMs, calls) >= b.updatedAtMs
    ensures TokensGranted(b, calls) * TOKEN_SCALE + Run(b, calls).available
            <= b.available
               + (LatestTime(b.updatedAtMs, calls) - b.updatedAtMs) * (b.policy.tokensPerSecond * 1_000)
  {
    if calls == [] {
    } else {
      var call := calls[0];
      var (next, outcome) := Take(b, call.nowMs, call.tokens);
      RefillIsExact(b, call.nowMs);
      WindowAccounting(next, calls[1..]);
      var perMs := b.policy.tokensPerSecond * 1_000;
      var first := next.updatedAtMs - b.updatedAtMs;
      var rest := LatestTime(next.updatedAtMs, calls[1..]) - next.updatedAtMs;
      assert (first + rest) * perMs == first * perMs + rest * perMs;
    }
  }

  lemma ScaleDown(granted: nat, burst: nat, delta: nat, rate: nat)
    requires granted * TOKEN_SCALE <= burst * TOKEN_SCALE + delta * (rate * 1_000)
    ensures granted * 1_000 <= burst * 1_000 + rate * delta
  {
    assert delta * (rate * 1_000) == (rate * delta) * 1_000;
  }

  /**
   * In every window of every run, whatever the clock does, the tokens granted never exceed the
   * burst plus rate x (latest time - time of the window's first state), in seconds.
   */
  lemma GrantsAreRateBounded(policy: RateLimit, startMs: u64, before: seq<Call>, window: seq<Call>)
    requires policy.Valid()
    ensures var b := Run(FullBucket(policy, startMs), before);
            && b.updatedAtMs == LatestTime(startMs, before)
            && TokensGranted(b, window) * 1_000
               <= policy.burst * 1_000
                  + policy.tokensPerSecond * (LatestTime(b.updatedAtMs, window) - b.updatedAtMs)
  {
    WindowAccounting(FullBucket(policy, startMs), before);
    var b := Run(FullBucket(policy, startMs), before);
    WindowAccounting(b, window);
    var granted: nat := TokensGranted(b, window);
    var delta: nat := LatestTime(b.updatedAtMs, window) - b.updatedAtMs;
    var rate: nat := policy.tokensPerSecond;
    ScaleDown(granted, policy.burst, delta, rate);
  }

  /** What a run would charge if every call were granted. */
  function Charge(calls: seq<Call>): nat {
    if calls == [] then 0 else Max(calls[0].tokens, 1) + Charge(calls[1..])
  }

  /** Calls whose total is within what the bucket holds are all granted, whatever the clock does. */
  lemma {:induction false} AvailableIsServed(b: Bucket, calls: seq<Call>)
    requires WithinBurst(b) && Charge(calls) * TOKEN_SCALE <= b.available
    ensures TokensGranted(b, calls) == Charge(calls)
    decreases |calls|
  {
    if calls == [] {
    } else {
      RefillIsExact(b, calls[0].nowMs);
      AvailableIsServed(Take(b, calls[0].nowMs, calls[0].tokens).0, calls[1..]);
    }
  }

  /** A new bucket serves a whole burst. */
  lemma BurstIsServed(policy: RateLimit, startMs: u64, calls: seq<Call>)
    requires policy.Valid() && Charge(calls) <= policy.burst
    ensures TokensGranted(FullBucket(policy, startMs), calls) == Charge(calls)
  {
    AvailableIsServed(FullBucket(policy, startMs), calls);
  }

  /**
   * The retry hint of a refusal is measured from the bucket's own clock: the same request is
   * granted at time `t`, with nothing else taken, exactly when `t` reaches that clock plus the hint.
   */
  lemma RefusalHint(b: Bucket, nowMs: u64, tokens: u32, t: u64)
    requires WithinBurst(b) && Max(tokens, 1) <= b.policy.burst
    requires Take(b, nowMs, tokens).1.RateLimited?
    ensures var (after, outcome) := Take(b, nowMs, tokens);
            && after.updatedAtMs == Max(nowMs, b.updatedAtMs)
            && (Take(after, t, tokens).1.Granted?
                <==> t >= after.updatedAtMs + outcome.retryAfterMs)
  {
    var (after, outcome) := Take(b, nowMs, tokens);
    RefillIsExact(b, nowMs);
    RefillIsExact(after, t);
    var perMs := b.policy.tokensPerSecond * 1_000;
    var missing := Required(tokens) - after.available;
    var wait := SatSub(t, after.updatedAtMs);
    DivCeilIsLeast(missing, perMs, wait);
    DivCeilIsLeast(missing, perMs, missing);
    MulMonotone(missing, 1, missing, perMs);
    DivCeilIsLeast(missing, perMs, 0);
  }

  predicate GrantedAt(b: Bucket, nowMs: u64, tokens: u32)
    requires b.policy.Valid()
  {
    Take(b, nowMs, tokens).1.Granted?
  }

  /** From `nowMs` on, the request is granted exactly after waiting at least `wait`. */
  ghost predicate LeastWait(b: Bucket, nowMs: u64, tokens: u32, wait: nat)
    requires b.policy.Valid()
  {
    forall t: u64 :: t >= nowMs ==> (GrantedAt(b, t, tokens) <==> t - nowMs >= wait)
  }

  /** Not even the last representable time would bring the tokens that the bucket lacks. */
  predicate NeverEnough(b: Bucket, nowMs: u64, tokens: u32) {
    b.available + (U64_MAX - nowMs) * (b.policy.tokensPerSecond * 1_000) < Max(tokens, 1) * TOKEN_SCALE
  }

  lemma HintIsRepresentable(b: Bucket, nowMs: u64, tokens: u32)
    requires WithinBurst(b) && nowMs < b.updatedAtMs && Take(b, nowMs, tokens).1.RateLimited?
    ensures nowMs + Take(b, nowMs, tokens).1.retryAfterMs <= U64_MAX <==> !NeverEnough(b, nowMs, tokens)
  {
    RefillIsExact(b, nowMs);
    var missing := Required(tokens) - b.available;
    var perMs := b.policy.tokensPerSecond * 1_000;
    DivCeilIsLeast(missing, perMs, U64_MAX - nowMs);
    DivCeilIsLeast(missing, perMs, missing);
    MulMonotone(missing, 1, missing, perMs);
    DivCeilIsLeast(missing, perMs, 0);
  }

  /**
   * The hint is the least wait after which the request is granted, counted from the caller's own
   * time, if and only if the caller's time is not behind the bucket's clock, or no representable
   * time would do anyway.
   */
  lemma RetryHintIsExact(b: Bucket, nowMs: u64, tokens: u32)
    requires WithinBurst(b) && Max(tokens, 1) <= b.policy.burst
    requires Take(b, nowMs, tokens).1.RateLimited?
    ensures var (after, outcome) := Take(b, nowMs, tokens);
            LeastWait(after, nowMs, tokens, outcome.retryAfterMs)
            <==> nowMs >= b.updatedAtMs || NeverEnough(b, nowMs, tokens)
  {
    var (after, outcome) := Take(b, nowMs, tokens);
    forall t: u64
      ensures GrantedAt(after, t, tokens) <==> t >= after.updatedAtMs + outcome.retryAfterMs
    {
      RefusalHint(b, nowMs, tokens, t);
    }
    RefusalHint(b, nowMs, tokens, nowMs);
    if nowMs < b.updatedAtMs {
      HintIsRepresentable(b, nowMs, tokens);
      if !NeverEnough(b, nowMs, tokens) {
        assert !GrantedAt(after, nowMs + outcome.retryAfterMs, tokens);
      }
    }
  }

  /** One token a second: emptied at time 10, the bucket tells a caller at time 0 to wait too little. */
  lemma HintMisleadsBehindTheClock()
    ensures var b := Take(FullBucket(RateLimit(1, 1), 10), 10, 1).0;
            var (after, outcome) := Take(b, 0, 1);
            outcome == RateLimited(1_000) && !LeastWait(after, 0, 1, 1_000)
  {
    var b := Take(FullBucket(RateLimit(1, 1), 10), 10, 1).0;
    assert b == Bucket(RateLimit(1, 1), 0, 10);
    RetryHintIsExact(b, 0, 1);
  }

  /** A request beyond the burst is refused in every state, at every time. */
  lemma BeyondBurstNeverGranted(b: Bucket, nowMs: u64, tokens: u32)
    requires WithinBurst(b) && tokens > b.policy.burst
    ensures Take(b, nowMs, tokens).1.RateLimited?
  {
    RefillIsExact(b, nowMs);
  }
}

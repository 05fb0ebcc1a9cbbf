/** The token-bucket rate limiter: a capped count of tokens, refilled by
    whole refill intervals of elapsed time, taken one at a time. Fields and
    arithmetic are `uint32_t`; every reading of the millisecond clock is a
    value the caller passes in. */
module TokenBucket {
  import opened CTypes

  /** Refill interval of the one-argument constructor. */
  const DefaultRefillMs: uint32 := 20

  /** Arduino's `min`. */
  function Min(a: uint32, b: uint32): uint32 {
    if a < b then a else b
  }

  /** Whole refill intervals in the time since the last request, as the
      `uint32_t` arithmetic of _refill_tokens computes them: the clock
      difference wraps, so a clock that passed 2^32 - 1 still counts up. */
  function Intervals(refillMs: uint32, last: uint32, now: uint32): (n: uint32)
    requires refillMs > 0
    ensures n <= Sub32(now, last)
  {
    DivAtMost(Sub32(now, last), refillMs);
    Sub32(now, last) / refillMs
  }

  /** The count _refill_tokens leaves: the old count plus the intervals,
      summed in `uint32_t`, capped at the bucket size. */
  function Refilled(tokens: uint32, size: uint32, refillMs: uint32, last: uint32, now: uint32): (r: uint32)
    requires refillMs > 0
    ensures r <= size
  {
    Min(Add32(tokens, Intervals(refillMs, last, now)), size)
  }

  /** Without a wrap of the sum, a refill adds exactly
      floor(((now - last) mod 2^32) / interval), up to the cap. */
  lemma RefillAddsIntervals(tokens: uint32, size: uint32, refillMs: uint32, last: uint32, now: uint32)
    requires refillMs > 0
    requires tokens + ((now - last) % Uint32Modulus) / refillMs < Uint32Modulus
    ensures var sum := tokens + ((now - last) % Uint32Modulus) / refillMs;
      Refilled(tokens, size, refillMs, last, now) == if sum < size then sum else size
  {
    Sub32Mod(now, last);
  }

  /** Given the cap and no wrap of the sum, a refill never lowers the count. */
  lemma RefillNeverLowers(tokens: uint32, size: uint32, refillMs: uint32, last: uint32, now: uint32)
    requires refillMs > 0 && tokens <= size
    requires tokens + Intervals(refillMs, last, now) < Uint32Modulus
    ensures tokens <= Refilled(tokens, size, refillMs, last, now)
  {
  }

  /** A whole interval after the last request an empty bucket of non-zero
      size holds a token; within the interval it stays empty. */
  lemma RefillAfterInterval(size: uint32, refillMs: uint32, last: uint32, now: uint32)
    requires refillMs > 0
    ensures Sub32(now, last) < refillMs ==> Refilled(0, size, refillMs, last, now) == 0
    ensures size > 0 && Sub32(now, last) >= refillMs ==> Refilled(0, size, refillMs, last, now) >= 1
  {
    var e := Sub32(now, last);
    if e >= refillMs {
      DivAtLeastOne(e, refillMs);
    } else {
      DivBelow(e, refillMs);
    }
  }

  lemma DivBelow(e: nat, d: nat)
    requires 0 < d && e < d
    ensures e / d == 0
  {
  }

  lemma DivAtLeastOne(e: nat, d: nat)
    requires 0 < d <= e
    ensures e / d >= 1
  {
  }

  /** The sum is `uint32_t` too: with a 1 ms interval, one token and 2^32 - 1
      ms elapsed, it wraps to 0 and the refill empties the bucket. */
  lemma RefillSumWraps()
    ensures Refilled(1, 0xFFFF_FFFF, 1, 0, 0xFFFF_FFFF) == 0
  {
  }

  /** request_token's busy wait ends within the clock readings `clock`:
      some refill, the first one starting from `tokens` and every later one
      from an empty bucket, yields a token, and one more reading is left for
      the final `millis()`. */
  predicate Arrives(tokens: uint32, size: uint32, refillMs: uint32, last: uint32, clock: seq<uint32>)
    requires refillMs > 0
    decreases |clock|
  {
    |clock| >= 2 &&
    (Refilled(tokens, size, refillMs, last, clock[0]) > 0 || Arrives(0, size, refillMs, last, clock[1..]))
  }

  /** How many refills request_token performs: the readings up to and
      including the first refill that yields a token. */
  function Spins(tokens: uint32, size: uint32, refillMs: uint32, last: uint32, clock: seq<uint32>): (n: nat)
    requires refillMs > 0 && Arrives(tokens, size, refillMs, last, clock)
    ensures 1 <= n < |clock|
    ensures Refilled(if n == 1 then tokens else 0, size, refillMs, last, clock[n - 1]) > 0
    decreases |clock|
  {
    if Refilled(tokens, size, refillMs, last, clock[0]) > 0 then 1
    else
      var n' := Spins(0, size, refillMs, last, clock[1..]);
      assert clock[n'] == clock[1..][n' - 1];
      1 + n'
  }

  /** No refill before the last one yields a token: the wait ends at the
      first reading that can end it. */
  lemma {:induction false} SpinsFirst(tokens: uint32, size: uint32, refillMs: uint32, last: uint32, clock: seq<uint32>, j: nat)
    requires refillMs > 0 && Arrives(tokens, size, refillMs, last, clock)
    requires j < Spins(tokens, size, refillMs, last, clock) - 1
    ensures Refilled(if j == 0 then tokens else 0, size, refillMs, last, clock[j]) == 0
    decreases |clock|
  {
    if j > 0 {
      assert clock[1..][j - 1] == clock[j];
      SpinsFirst(0, size, refillMs, last, clock[1..], j - 1);
    }
  }

  /** One refill of the wait: either it yields a token and the wait is over,
      or the wait goes on over the remaining readings from an empty bucket. */
  lemma SpinsStep(tokens: uint32, size: uint32, refillMs: uint32, last: uint32, clock: seq<uint32>)
    requires refillMs > 0 && Arrives(tokens, size, refillMs, last, clock)
    ensures Refilled(tokens, size, refillMs, last, clock[0]) > 0 ==> Spins(tokens, size, refillMs, last, clock) == 1
    ensures Refilled(tokens, size, refillMs, last, clock[0]) == 0 ==>
      Arrives(0, size, refillMs, last, clock[1..]) &&
      Spins(tokens, size, refillMs, last, clock) == 1 + Spins(0, size, refillMs, last, clock[1..])
  {
  }

  /** The wait ends by the first reading a whole interval after the last
      request, provided the bucket can hold a token and the first refill
      does not wrap. */
  lemma {:induction false} ArrivesAfterInterval(tokens: uint32, size: uint32, refillMs: uint32, last: uint32, clock: seq<uint32>, k: nat)
    requires refillMs > 0 && size > 0 && k + 1 < |clock|
    requires tokens <= size && tokens + Intervals(refillMs, last, clock[0]) < Uint32Modulus
    requires Sub32(clock[k], last) >= refillMs
    ensures Arrives(tokens, size, refillMs, last, clock)
    decreases k
  {
    if k == 0 {
      DivAtLeastOne(Sub32(clock[0], last), refillMs);
    } else if Refilled(tokens, size, refillMs, last, clock[0]) == 0 {
      assert clock[1..][k - 1] == clock[k];
      ArrivesAfterInterval(0, size, refillMs, last, clock[1..], k - 1);
    }
  }

  /** A clock that stays within the interval never ends the wait of an
      empty bucket: a new bucket, which starts empty, blocks its first
      request until a whole interval has passed. */
  lemma {:induction false} EmptyBucketWaits(size: uint32, refillMs: uint32, last: uint32, clock: seq<uint32>)
    requires refillMs > 0
    requires forall j :: 0 <= j < |clock| ==> Sub32(clock[j], last) < refillMs
    ensures !Arrives(0, size, refillMs, last, clock)
    decreases |clock|
  {
    if |clock| >= 2 {
      RefillAfterInterval(size, refillMs, last, clock[0]);
      assert forall j :: 0 <= j < |clock[1..]| ==> clock[1..][j] == clock[j + 1];
      EmptyBucketWaits(size, refillMs, last, clock[1..]);
    }
  }

  /** A bucket of size 0 never holds a token, so request_token would spin
      forever, whatever the clock reads. */
  lemma {:induction false} ZeroSizeNeverArrives(tokens: uint32, refillMs: uint32, last: uint32, clock: seq<uint32>)
    requires refillMs > 0
    ensures !Arrives(tokens, 0, refillMs, last, clock)
    decreases |clock|
  {
    if |clock| >= 2 {
      ZeroSizeNeverArrives(0, refillMs, last, clock[1..]);
    }
  }

  class Bucket {
    const bucketSize: uint32
    const tokenRefillMs: uint32
    var availableTokens: uint32
    var lastRequestTime: uint32

    /** The count never exceeds the capacity. */
    ghost predicate Valid()
      reads this
    {
      availableTokens <= bucketSize
    }

    /** Bucket(bucket_size): the default 20 ms interval, no tokens, the
        last request at construction time `now`. */
    constructor (bucketSize: uint32, now: uint32)
      ensures Valid()
      ensures this.bucketSize == bucketSize && tokenRefillMs == DefaultRefillMs
      ensures availableTokens == 0 && lastRequestTime == now
    {
      this.bucketSize := bucketSize;
      tokenRefillMs := DefaultRefillMs;
      availableTokens := 0;
      lastRequestTime := now;
    }

    /** Bucket(bucket_size, token_refill_ms). */
    constructor WithRefill(bucketSize: uint32, tokenRefillMs: uint32, now: uint32)
      ensures Valid()
      ensures this.bucketSize == bucketSize && this.tokenRefillMs == tokenRefillMs
      ensures availableTokens == 0 && lastRequestTime == now
    {
      this.bucketSize := bucketSize;
      this.tokenRefillMs := tokenRefillMs;
      availableTokens := 0;
      lastRequestTime := now;
    }

    /** _refill_tokens at clock reading `now`. The interval must be non-zero
        (the source divides by it); the last request time is not updated. */
    method RefillTokens(now: uint32)
      requires tokenRefillMs > 0
      modifies this`availableTokens
      ensures Valid()
      ensures availableTokens == Refilled(old(availableTokens), bucketSize, tokenRefillMs, lastRequestTime, now)
      ensures lastRequestTime == old(lastRequestTime)
    {
      var elapsedTime := Sub32(now, lastRequestTime);
      var tokensToAdd := elapsedTime / tokenRefillMs;
      DivAtMost(elapsedTime, tokenRefillMs);
      availableTokens := Min(Add32(availableTokens, tokensToAdd), bucketSize);
    }

    /** One more refill of the busy wait, from an empty bucket, at the first
        of the remaining readings `rest`. */
    method Poll(rest: seq<uint32>)
      requires Valid() && tokenRefillMs > 0 && availableTokens == 0
      requires Arrives(0, bucketSize, tokenRefillMs, lastRequestTime, rest)
      modifies this`availableTokens
      ensures Valid() && lastRequestTime == old(lastRequestTime)
      ensures availableTokens == Refilled(0, bucketSize, tokenRefillMs, lastRequestTime, rest[0])
      ensures availableTokens > 0 ==> Spins(0, bucketSize, tokenRefillMs, lastRequestTime, rest) == 1
      ensures availableTokens == 0 ==>
        Arrives(0, bucketSize, tokenRefillMs, lastRequestTime, rest[1..]) &&
        Spins(0, bucketSize, tokenRefillMs, lastRequestTime, rest) ==
          1 + Spins(0, bucketSize, tokenRefillMs, lastRequestTime, rest[1..])
    {
      SpinsStep(0, bucketSize, tokenRefillMs, lastRequestTime, rest);
      RefillTokens(rest[0]);
    }

    /** The busy wait of request_token: refill at each clock reading in turn
        until the bucket holds a token. `polls` is the number of refills. */
    method AwaitToken(clock: seq<uint32>) returns (polls: nat)
      requires Valid() && tokenRefillMs > 0
      requires Arrives(availableTokens, bucketSize, tokenRefillMs, lastRequestTime, clock)
      modifies this`availableTokens
      ensures Valid() && lastRequestTime == old(lastRequestTime)
      ensures polls == Spins(old(availableTokens), bucketSize, tokenRefillMs, lastRequestTime, clock)
      ensures availableTokens ==
        Refilled(if polls == 1 then old(availableTokens) else 0, bucketSize, tokenRefillMs, lastRequestTime, clock[polls - 1])
      ensures availableTokens > 0
    {
      ghost var last, size, ms := lastRequestTime, bucketSize, tokenRefillMs;
      ghost var total := Spins(availableTokens, size, ms, last, clock);
      ghost var from := availableTokens;
      SpinsStep(availableTokens, size, ms, last, clock);
      RefillTokens(clock[0]);
      polls := 1;
      while availableTokens <= 0
        invariant 1 <= polls < |clock| && lastRequestTime == last
        invariant from == if polls == 1 then old(availableTokens) else 0
        invariant availableTokens == Refilled(from, size, ms, last, clock[polls - 1])
        invariant availableTokens == 0 ==>
          Arrives(0, size, ms, last, clock[polls..]) && total == polls + Spins(0, size, ms, last, clock[polls..])
        invariant availableTokens > 0 ==> total == polls
        decreases |clock| - polls
      {
        var rest := clock[polls..];
        from := 0;
        Poll(rest);
        assert rest[1..] == clock[polls + 1..];
        polls := polls + 1;
      }
    }

    /** request_token with the clock readings its `millis()` calls return,
        in order: wait for a token, then record the reading after the last
        refill as the request time and take one token. */
    method RequestToken(clock: seq<uint32>) returns (polls: nat)
      requires Valid() && tokenRefillMs > 0
      requires Arrives(availableTokens, bucketSize, tokenRefillMs, lastRequestTime, clock)
      modifies this`availableTokens, this`lastRequestTime
      ensures Valid()
      ensures polls == Spins(old(availableTokens), bucketSize, tokenRefillMs, old(lastRequestTime), clock)
      ensures lastRequestTime == clock[polls]
      ensures availableTokens ==
        Refilled(if polls == 1 then old(availableTokens) else 0, bucketSize, tokenRefillMs, old(lastRequestTime), clock[polls - 1]) - 1
    {
      polls := AwaitToken(clock);
      lastRequestTime := clock[polls];
      availableTokens := availableTokens - 1;
    }
  }
}

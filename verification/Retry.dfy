/** The retry middleware: a bounded loop over an unknown inner service, with saturating exponential backoff. */
module Retry {
  import opened Basics

  const U64_MAX: nat := 0xFFFF_FFFF_FFFF_FFFF

  function Pow2(n: nat): nat {
    if n == 0 then 1 else 2 * Pow2(n - 1)
  }

  function Min(a: nat, b: nat): nat {
    if a <= b then a else b
  }

  function SaturatingPow2(n: nat): nat {
    Min(Pow2(n), U64_MAX)
  }

  function SaturatingMul(a: nat, b: nat): nat {
    Min(a * b, U64_MAX)
  }

  function SaturatingAdd(a: nat, b: nat): nat {
    Min(a + b, U64_MAX)
  }

  /** A span of time in nanoseconds. */
  type Duration = nat

  const NANOS_PER_MILLI: nat := 1_000_000

  datatype BackoffStrategy = Fixed(delay: Duration) | Exponential(base: Duration, jitter: bool)

  function FromMillis(ms: nat): Duration {
    ms * NANOS_PER_MILLI
  }

  /** `as_millis() as u64`: what is left of a duration in whole milliseconds, cut to 64 bits. */
  function Millis(d: Duration): nat {
    d / NANOS_PER_MILLI % (U64_MAX + 1)
  }

  /** nanos is the clock sample that the jitter is drawn from. */
  function ComputeDelay(strategy: BackoffStrategy, attempt: nat, nanos: nat): Duration {
    match strategy
    case Fixed(delay) => delay
    case Exponential(base, jitter) =>
      var multiplier := SaturatingPow2(attempt);
      var delayMs := SaturatingMul(Millis(base), multiplier);
      FromMillis(if jitter then SaturatingAdd(delayMs, if delayMs > 0 then nanos % delayMs else 0) else delayMs)
  }

  /** The exact product, saturated once. */
  ghost function Doubling(baseMs: nat, attempt: nat): nat {
    Min(baseMs * Pow2(attempt), U64_MAX)
  }

  lemma {:induction false} Pow2Positive(n: nat)
    ensures Pow2(n) >= 1
  {
    if n > 0 {
      Pow2Positive(n - 1);
    }
  }

  lemma MulGrows(a: nat, b: nat, c: nat)
    requires b <= c
    ensures a * b <= a * c
    ensures a >= 1 ==> a * b >= b
  {
  }

  /** Saturating the power first and the product after loses nothing: once the base is cut to 64 bits of whole
      milliseconds, the delay is the exact product, saturated. */
  lemma DelayIsCappedProduct(base: Duration, attempt: nat, nanos: nat)
    ensures ComputeDelay(Exponential(base, false), attempt, nanos) == FromMillis(Doubling(Millis(base), attempt))
  {
    var b := Millis(base);
    Pow2Positive(attempt);
    if Pow2(attempt) > U64_MAX && b >= 1 {
      MulGrows(b, U64_MAX, Pow2(attempt));
    }
  }

  /** The base in nanoseconds times p is its whole milliseconds times p, and p times what is cut off. */
  lemma BaseTimes(base: Duration, p: nat)
    ensures base * p == FromMillis(base / NANOS_PER_MILLI * p) + base % NANOS_PER_MILLI * p
  {
    var ms, rest := base / NANOS_PER_MILLI, base % NANOS_PER_MILLI;
    TimesSum(ms, rest, p);
  }

  lemma TimesSum(ms: nat, rest: nat, p: nat)
    ensures (ms * NANOS_PER_MILLI + rest) * p == FromMillis(ms * p) + rest * p
  {
  }

  /** A product of ms, with what its cut-off rest adds, against the product cut of what is left of ms. */
  lemma CutCompares(ms: nat, rest: nat, product: nat, restProduct: nat, cut: nat)
    requires product >= ms && (restProduct == 0 <==> rest == 0) && (ms <= U64_MAX ==> cut == product)
    ensures FromMillis(Min(cut, U64_MAX)) == FromMillis(product) + restProduct <==> rest == 0 && product <= U64_MAX
    ensures FromMillis(Min(cut, U64_MAX)) == Min(FromMillis(product) + restProduct, FromMillis(U64_MAX))
            <==> (rest == 0 && ms <= U64_MAX) || cut >= U64_MAX
  {
  }

  lemma CappedMeets(base: Duration, p: nat)
    requires p >= 1
    ensures var delay, ms := FromMillis(Min(Millis(base) * p, U64_MAX)), base / NANOS_PER_MILLI;
            && (delay == base * p <==> base % NANOS_PER_MILLI == 0 && ms * p <= U64_MAX)
            && (delay == Min(base * p, FromMillis(U64_MAX))
                <==> (base % NANOS_PER_MILLI == 0 && ms <= U64_MAX) || Millis(base) * p >= U64_MAX)
  {
    var ms, rest := base / NANOS_PER_MILLI, base % NANOS_PER_MILLI;
    BaseTimes(base, p);
    MulGrows(rest, 1, p);
    MulGrows(ms, 1, p);
    assert ms <= U64_MAX ==> Millis(base) == ms;
    CutCompares(ms, rest, ms * p, rest * p, Millis(base) * p);
  }

  /** The documented delay is base * 2^attempt. It is met exactly by bases of whole milliseconds for which it fits 64
      bits of them; when it may saturate there, also by the longer bases whose cut base saturates. */
  lemma DelayMeetsDocument(base: Duration, attempt: nat, nanos: nat)
    ensures ComputeDelay(Exponential(base, false), attempt, nanos) == base * Pow2(attempt)
            <==> base % NANOS_PER_MILLI == 0 && base / NANOS_PER_MILLI * Pow2(attempt) <= U64_MAX
    ensures ComputeDelay(Exponential(base, false), attempt, nanos) == Min(base * Pow2(attempt), FromMillis(U64_MAX))
            <==> || (base % NANOS_PER_MILLI == 0 && base / NANOS_PER_MILLI <= U64_MAX)
                 || Millis(base) * Pow2(attempt) >= U64_MAX
  {
    DelayIsCappedProduct(base, attempt, nanos);
    Pow2Positive(attempt);
    CappedMeets(base, Pow2(attempt));
  }

  /** Exactly the bases that are cut to nothing never wait, whatever the attempt. */
  lemma NoWaitIff(base: Duration, jitter: bool, attempt: nat, nanos: nat)
    ensures ComputeDelay(Exponential(base, jitter), attempt, nanos) == 0 <==> Millis(base) == 0
  {
    Pow2Positive(attempt);
    if Millis(base) >= 1 {
      MulGrows(Millis(base), 1, SaturatingPow2(attempt));
    }
  }

  /** A base below one millisecond is such, and so is one of 2^64 milliseconds; the document promises both a wait. */
  lemma CutBasesDoNotWait(base: Duration, jitter: bool, attempt: nat, nanos: nat)
    requires 0 < base < NANOS_PER_MILLI || base == FromMillis(U64_MAX + 1)
    ensures ComputeDelay(Exponential(base, jitter), attempt, nanos) == 0 < base * Pow2(attempt)
  {
    NoWaitIff(base, jitter, attempt, nanos);
    Pow2Positive(attempt);
    MulGrows(base, 1, Pow2(attempt));
  }

  lemma DoublingDoubles(baseMs: nat, attempt: nat)
    ensures Doubling(baseMs, attempt + 1) == Min(2 * Doubling(baseMs, attempt), U64_MAX)
  {
    assert baseMs * Pow2(attempt + 1) == 2 * (baseMs * Pow2(attempt));
  }

  lemma JitterBounds(base: Duration, attempt: nat, nanos: nat)
    ensures var d, j := ComputeDelay(Exponential(base, false), attempt, nanos),
                        ComputeDelay(Exponential(base, true), attempt, nanos);
            d <= j <= FromMillis(U64_MAX) && (d == 0 ==> j == 0) && (d > 0 ==> j < 2 * d)
  {
    DelayIsCappedProduct(base, attempt, nanos);
  }

  /** The jitter of a wait takes every whole number of milliseconds below it: a smaller clock sample is added whole. */
  lemma JitterReaches(base: Duration, attempt: nat, extra: nat)
    requires extra < Doubling(Millis(base), attempt)
    ensures ComputeDelay(Exponential(base, true), attempt, extra)
            == FromMillis(Min(Doubling(Millis(base), attempt) + extra, U64_MAX))
  {
    var d := Doubling(Millis(base), attempt);
    DelayIsCappedProduct(base, attempt, extra);
    assert SaturatingMul(Millis(base), SaturatingPow2(attempt)) == d;
    SmallRest(extra, d);
  }

  lemma SmallRest(n: nat, d: nat)
    requires n < d
    ensures n % d == n
  {
  }

  /** Whatever the clock samples, a later attempt never waits less than an earlier one. */
  lemma {:induction false} JitteredDelaysNeverDecrease(base: Duration, i: nat, j: nat, early: nat, late: nat)
    requires i <= j && (i == j ==> early == late)
    ensures ComputeDelay(Exponential(base, true), i, early) <= ComputeDelay(Exponential(base, true), j, late)
    decreases j - i
  {
    if i < j {
      JitterBounds(base, i, early);
      JitterBounds(base, i + 1, late);
      DelayIsCappedProduct(base, i, early);
      DelayIsCappedProduct(base, i + 1, late);
      DoublingDoubles(Millis(base), i);
      JitteredDelaysNeverDecrease(base, i + 1, j, late, late);
    }
  }

  // ---- The loop ---------------------------------------------------------------------------------

  /** The inner service's errors, and the error that the loop falls back on. */
  datatype Failure<+E> = Inner(error: E) | LoopExited

  /** The service's answer to each call of the same request. */
  type Service<!Req, V, E> = (nat, Req) -> Result<V, E>

  ghost predicate Stops<V, E>(r: Result<V, E>, retryable: E -> bool) {
    r.Ok? || !retryable(r.error)
  }

  /** The calls are the first k, k being the first call that stops the loop, capped by maxAttempts. */
  ghost predicate StopsFirstAt<Req, V, E>(inner: Service<Req, V, E>, request: Req, retryable: E -> bool,
                                          maxAttempts: nat, k: nat) {
    && 1 <= k <= maxAttempts
    && (forall i :: 0 <= i < k - 1 ==> !Stops(inner(i, request), retryable))
    && (k == maxAttempts || Stops(inner(k - 1, request), retryable))
  }

  /** The sleeps are the delays of attempts 0, 1, 2, ... */
  ghost predicate Delayed(sleeps: seq<Duration>, strategy: BackoffStrategy, clock: nat -> nat) {
    forall i :: 0 <= i < |sleeps| ==> sleeps[i] == ComputeDelay(strategy, i, clock(i))
  }

  method ProcessRequest<Req, V, E>(inner: Service<Req, V, E>, request: Req, retryable: E -> bool,
                                   backoff: BackoffStrategy, clock: nat -> nat, maxAttempts: nat)
    returns (r: Result<V, Failure<E>>, calls: nat, sleeps: seq<Duration>)
    ensures maxAttempts == 0 ==> calls == 0 && sleeps == [] && r == Err(LoopExited)
    ensures maxAttempts >= 1 ==>
              && StopsFirstAt(inner, request, retryable, maxAttempts, calls)
              && |sleeps| == calls - 1 && Delayed(sleeps, backoff, clock)
              && match inner(calls - 1, request)
                 case Ok(response) => r == Ok(response)
                 case Err(e) => r == Err(Inner(e))
  {
    var lastError: Option<E> := None;
    calls, sleeps := 0, [];
    for attempt := 0 to maxAttempts
      invariant calls == attempt && (attempt == 0 || attempt < maxAttempts)
      invariant forall i :: 0 <= i < attempt ==> !Stops(inner(i, request), retryable)
      invariant |sleeps| == attempt && Delayed(sleeps, backoff, clock)
      invariant lastError.None? <==> attempt == 0
    {
      var answer := inner(attempt, request);
      calls := calls + 1;
      if answer.Ok? {
        return Ok(answer.value), calls, sleeps;
      }
      var isLastAttempt := attempt + 1 >= maxAttempts;
      if isLastAttempt || !retryable(answer.error) {
        return Err(Inner(answer.error)), calls, sleeps;
      }
      sleeps := sleeps + [ComputeDelay(backoff, attempt, clock(attempt))];
      lastError := Some(answer.error);
    }
    r := if lastError.Some? then Err(Inner(lastError.value)) else Err(LoopExited);
  }

  ghost function Sum(s: seq<Duration>): Duration {
    if s == [] then 0 else Sum(s[..|s| - 1]) + s[|s| - 1]
  }

  /** A fixed strategy sleeps its delay between any two attempts. */
  lemma {:induction false} FixedSleep(delay: Duration, clock: nat -> nat, sleeps: seq<Duration>)
    requires Delayed(sleeps, Fixed(delay), clock)
    ensures Sum(sleeps) == |sleeps| * delay
  {
    if sleeps != [] {
      FixedSleep(delay, clock, sleeps[..|sleeps| - 1]);
    }
  }

  /** Unsaturated and without jitter, n attempts sleep ms * (2^(n-1) - 1) milliseconds in total, ms being the
      whole milliseconds of the base. */
  lemma {:induction false} TotalSleep(base: Duration, clock: nat -> nat, sleeps: seq<Duration>, n: nat)
    requires var ms := base / NANOS_PER_MILLI; n >= 1 && ms <= U64_MAX && (n >= 2 ==> ms * Pow2(n - 2) <= U64_MAX)
    requires |sleeps| == n - 1 && Delayed(sleeps, Exponential(base, false), clock)
    ensures Sum(sleeps) == base / NANOS_PER_MILLI * (Pow2(n - 1) - 1) * NANOS_PER_MILLI
  {
    if n >= 2 {
      var ms, p := base / NANOS_PER_MILLI, Pow2(n - 2);
      assert sleeps[n - 2] == FromMillis(ms * p) by { DelayIsCappedProduct(base, n - 2, clock(n - 2)); }
      if n >= 3 {
        Distribute(ms, Pow2(n - 3));
      }
      TotalSleep(base, clock, sleeps[..n - 2], n - 1);
      Distribute(ms, p);
    }
  }

  lemma Distribute(ms: nat, p: nat)
    ensures ms * p <= ms * (2 * p)
    ensures ms * (2 * p - 1) == ms * (p - 1) + ms * p
  {
  }
}

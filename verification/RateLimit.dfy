/** The token-bucket rate limiter. Times are seconds; the clock is a parameter of each call. */
module RateLimit {
  const DEFAULT_CAPACITY: nat := 100
  const DEFAULT_REFILL_RATE: real := 10.0
  const MIN_REFILL_RATE: real := 0.001

  /** What a bucket may hold, and what it gains over a time span. */
  datatype Limits = Limits(capacity: nat, gain: real -> real) {
    ghost predicate Valid() {
      && capacity >= 1
      && (forall t :: t >= 0.0 ==> gain(t) >= 0.0)
      && (forall t, u {:trigger Plus(t, u)} :: gain(Plus(t, u)) == gain(t) + gain(u))
    }
  }

  /** Addition of time spans, named so that additivity is applied where it is asked for. */
  function Plus(t: real, u: real): real {
    t + u
  }

  /** The limits of the code: the gain is the time span times the refill rate. */
  function AtRate(capacity: nat, rate: real): Limits {
    Limits(capacity, (t: real) => t * rate)
  }

  lemma AtRateIsValid(capacity: nat, rate: real)
    requires capacity >= 1 && rate >= MIN_REFILL_RATE
    ensures AtRate(capacity, rate).Valid()
  {
    var gain := AtRate(capacity, rate).gain;
    forall t | t >= 0.0 ensures gain(t) >= 0.0 {
    }
    forall t, u ensures gain(Plus(t, u)) == gain(t) + gain(u) {
    }
  }

  datatype Bucket = Bucket(tokens: real, lastRefill: real) {
    ghost predicate Valid(limits: Limits) {
      0.0 <= tokens <= limits.capacity as real
    }
  }

  /** `Instant::duration_since`, which is zero when the instants are reversed. */
  function Elapsed(since: real, now: real): real {
    if now <= since then 0.0 else now - since
  }

  function Min(a: real, b: real): real {
    if a <= b then a else b
  }

  ghost function Refill(limits: Limits, b: Bucket, now: real): Bucket {
    Bucket(Min(b.tokens + limits.gain(Elapsed(b.lastRefill, now)), limits.capacity as real), now)
  }

  ghost predicate Grants(limits: Limits, b: Bucket, now: real) {
    Refill(limits, b, now).tokens >= 1.0
  }

  /** The bucket after a request at time now that is granted or not. */
  ghost function Take(limits: Limits, b: Bucket, now: real, granted: bool): Bucket {
    var r := Refill(limits, b, now);
    if granted then r.(tokens := r.tokens - 1.0) else r
  }

  /** Tokens at a rate, since the last refill; none when the clock has gone back. */
  ghost function Gained(rate: real, since: real, now: real): real {
    if now <= since then 0.0 else rate * (now - since)
  }

  // ---- The limiter itself -------------------------------------------------------------------

  class RateLimiterBuilder {
    var capacity: nat
    var refillRate: real

    ghost predicate Valid()
      reads this
    {
      capacity >= 1 && refillRate >= MIN_REFILL_RATE
    }

    constructor ()
      ensures Valid() && capacity == DEFAULT_CAPACITY && refillRate == DEFAULT_REFILL_RATE
    {
      capacity, refillRate := DEFAULT_CAPACITY, DEFAULT_REFILL_RATE;
    }

    method Capacity(capacity: nat)
      requires Valid()
      modifies this
      ensures Valid() && refillRate == old(refillRate)
      ensures this.capacity == if capacity == 0 then 1 else capacity
    {
      this.capacity := if capacity < 1 then 1 else capacity;
    }

    method RefillRate(rate: real)
      requires Valid()
      modifies this
      ensures Valid() && capacity == old(capacity)
      ensures refillRate >= rate && (refillRate == rate || refillRate == MIN_REFILL_RATE)
    {
      refillRate := if rate < MIN_REFILL_RATE then MIN_REFILL_RATE else rate;
    }

    method Build(now: real) returns (limiter: RateLimiter)
      requires Valid()
      ensures fresh(limiter) && limiter.Valid() && limiter.capacity == capacity && limiter.refillRate == refillRate
      ensures limiter.state == Full(AtRate(capacity, refillRate), now)
    {
      limiter := new RateLimiter(capacity, refillRate, now);
    }
  }

  function Full(limits: Limits, now: real): Bucket {
    Bucket(limits.capacity as real, now)
  }

  class RateLimiter {
    const capacity: nat
    const refillRate: real
    var state: Bucket

    ghost predicate Valid()
      reads this
    {
      capacity >= 1 && refillRate >= MIN_REFILL_RATE && state.Valid(AtRate(capacity, refillRate))
    }

    constructor (capacity: nat, refillRate: real, now: real)
      requires capacity >= 1 && refillRate >= MIN_REFILL_RATE
      ensures Valid() && this.capacity == capacity && this.refillRate == refillRate
      ensures state == Full(AtRate(capacity, refillRate), now)
    {
      this.capacity, this.refillRate := capacity, refillRate;
      state := Bucket(capacity as real, now);
    }

    method TryAcquire(now: real) returns (ok: bool)
      requires Valid()
      modifies this
      ensures Valid()
      ensures var limits := AtRate(capacity, refillRate);
              ok == Grants(limits, old(state), now) && state == Take(limits, old(state), now, ok)
      ensures var held := old(state).tokens + Gained(refillRate, old(state).lastRefill, now);
              && (ok <==> held >= 1.0) && state.lastRefill == now
              && state.tokens == (if held <= capacity as real then held else capacity as real) - if ok then 1.0 else 0.0
    {
      AtRateIsValid(capacity, refillRate);
      RefillStaysValid(AtRate(capacity, refillRate), state, now);
      RefillAtRate(capacity, refillRate, state, now);
      var elapsed := Elapsed(state.lastRefill, now);
      var newTokens := state.tokens + elapsed * refillRate;
      state := Bucket(Min(newTokens, capacity as real), now);
      if state.tokens >= 1.0 {
        state := state.(tokens := state.tokens - 1.0);
        return true;
      }
      return false;
    }

    method AvailableTokens(now: real) returns (n: nat)
      requires Valid()
      modifies this
      ensures Valid() && state == Refill(AtRate(capacity, refillRate), old(state), now)
      ensures n <= capacity && n as real <= state.tokens < n as real + 1.0
      ensures n >= 1 <==> Grants(AtRate(capacity, refillRate), old(state), now)
      ensures var held := old(state).tokens + Gained(refillRate, old(state).lastRefill, now);
              state == Bucket(if held <= capacity as real then held else capacity as real, now)
    {
      AtRateIsValid(capacity, refillRate);
      RefillStaysValid(AtRate(capacity, refillRate), state, now);
      RefillAtRate(capacity, refillRate, state, now);
      var elapsed := Elapsed(state.lastRefill, now);
      var newTokens := state.tokens + elapsed * refillRate;
      state := Bucket(Min(newTokens, capacity as real), now);
      n := state.tokens.Floor;
    }
  }

  lemma RefillAtRate(capacity: nat, rate: real, b: Bucket, now: real)
    ensures var held := b.tokens + Gained(rate, b.lastRefill, now);
            && Refill(AtRate(capacity, rate), b, now) == Bucket(Min(held, capacity as real), now)
            && b.tokens + Elapsed(b.lastRefill, now) * rate == held
  {
  }

  lemma RefillStaysValid(limits: Limits, b: Bucket, now: real)
    requires limits.Valid() && b.Valid(limits)
    ensures Refill(limits, b, now).Valid(limits) && limits.gain(Elapsed(b.lastRefill, now)) >= 0.0
  {
  }

  // ---- Runs -----------------------------------------------------------------------------------

  datatype Call = TryAcquire(now: real) | AvailableTokens(now: real)

  ghost predicate Clock(calls: seq<Call>) {
    forall i, j :: 0 <= i < j < |calls| ==> calls[i].now <= calls[j].now
  }

  /** The bucket after a run of calls. */
  ghost function After(limits: Limits, b: Bucket, calls: seq<Call>): Bucket {
    if calls == [] then b else
    var was, c := After(limits, b, calls[..|calls| - 1]), calls[|calls| - 1];
    if c.TryAcquire? then Take(limits, was, c.now, Grants(limits, was, c.now)) else Refill(limits, was, c.now)
  }

  /** The answers to the acquisitions of a run. */
  ghost function Decisions(limits: Limits, b: Bucket, calls: seq<Call>): seq<bool> {
    if calls == [] then [] else
    var was, c := After(limits, b, calls[..|calls| - 1]), calls[|calls| - 1];
    Decisions(limits, b, calls[..|calls| - 1]) + if c.TryAcquire? then [Grants(limits, was, c.now)] else []
  }

  ghost function CountTrue(s: seq<bool>): nat {
    if s == [] then 0 else CountTrue(s[..|s| - 1]) + if s[|s| - 1] then 1 else 0
  }

  lemma {:induction false} AfterStaysValid(limits: Limits, b: Bucket, calls: seq<Call>)
    requires limits.Valid() && b.Valid(limits)
    ensures After(limits, b, calls).Valid(limits)
    ensures calls != [] ==> After(limits, b, calls).lastRefill == calls[|calls| - 1].now
  {
    if calls != [] {
      AfterStaysValid(limits, b, calls[..|calls| - 1]);
      RefillStaysValid(limits, After(limits, b, calls[..|calls| - 1]), calls[|calls| - 1].now);
    }
  }

  // ---- The window bound -----------------------------------------------------------------------

  /** How many acquisitions of the run are granted at times in [from, to]. */
  ghost function GrantedWithin(limits: Limits, b: Bucket, calls: seq<Call>, from: real, to: real): nat {
    if calls == [] then 0 else
    var was, c := After(limits, b, calls[..|calls| - 1]), calls[|calls| - 1];
    GrantedWithin(limits, b, calls[..|calls| - 1], from, to)
    + if c.TryAcquire? && from <= c.now <= to && Grants(limits, was, c.now) then 1 else 0
  }

  /** What one call adds to grants plus tokens. */
  lemma CallBound(limits: Limits, b: Bucket, calls: seq<Call>, from: real, to: real)
    requires calls != []
    ensures var front, c := calls[..|calls| - 1], calls[|calls| - 1];
            var was, now := After(limits, b, front), After(limits, b, calls);
            && now.lastRefill == c.now
            && GrantedWithin(limits, b, calls, from, to) as real + now.tokens
               <= GrantedWithin(limits, b, front, from, to) as real + Refill(limits, was, c.now).tokens
            && (c.now < from ==> GrantedWithin(limits, b, calls, from, to) == GrantedWithin(limits, b, front, from, to))
  {
  }

  /** Grants so far plus tokens left never exceed the capacity plus what the window has refilled. */
  lemma {:induction false} WindowPotential(limits: Limits, b: Bucket, calls: seq<Call>, from: real, to: real)
    requires limits.Valid() && b.Valid(limits) && Clock(calls) && from <= to
    ensures if calls == [] || calls[|calls| - 1].now < from then GrantedWithin(limits, b, calls, from, to) == 0
            else GrantedWithin(limits, b, calls, from, to) as real + After(limits, b, calls).tokens
                 <= limits.capacity as real + limits.gain(calls[|calls| - 1].now - from)
  {
    if calls != [] {
      var front, c := calls[..|calls| - 1], calls[|calls| - 1];
      WindowPotential(limits, b, front, from, to);
      AfterStaysValid(limits, b, front);
      CallBound(limits, b, calls, from, to);
      if front != [] && front[|front| - 1].now >= from {
        StayInWindow(limits, After(limits, b, front), c.now, from);
      } else if c.now >= from {
        EnterWindow(limits, After(limits, b, front), c.now, from);
      }
    }
  }

  lemma StayInWindow(limits: Limits, was: Bucket, now: real, from: real)
    requires limits.Valid() && was.Valid(limits) && from <= was.lastRefill <= now
    ensures Refill(limits, was, now).tokens
            <= was.tokens + limits.gain(now - from) - limits.gain(was.lastRefill - from)
  {
    assert now - from == Plus(was.lastRefill - from, Elapsed(was.lastRefill, now));
  }

  lemma EnterWindow(limits: Limits, was: Bucket, now: real, from: real)
    requires limits.Valid() && was.Valid(limits) && from <= now
    ensures Refill(limits, was, now).tokens <= limits.capacity as real + limits.gain(now - from)
  {
  }

  /** No window of time sees more grants than the capacity plus what is gained during it. */
  lemma {:induction false} WindowBound(limits: Limits, b: Bucket, calls: seq<Call>, from: real, to: real)
    requires limits.Valid() && b.Valid(limits) && Clock(calls) && from <= to
    ensures GrantedWithin(limits, b, calls, from, to) as real <= limits.capacity as real + limits.gain(to - from)
  {
    if calls != [] {
      var c := calls[|calls| - 1];
      if c.now > to {
        WindowBound(limits, b, calls[..|calls| - 1], from, to);
      } else {
        WindowPotential(limits, b, calls, from, to);
        AfterStaysValid(limits, b, calls);
        assert to - from == Plus(c.now - from, to - c.now);
        assert limits.gain(to - c.now) >= 0.0;
      }
    }
    assert limits.gain(to - from) >= 0.0;
  }

  /** The bound at the code's rate: at most capacity + rate * (to - from) grants in [from, to]. */
  lemma RateWindowBound(limits: Limits, rate: real, b: Bucket, calls: seq<Call>, from: real, to: real)
    requires limits.capacity >= 1 && rate >= MIN_REFILL_RATE && limits == AtRate(limits.capacity, rate)
    requires b.Valid(limits) && Clock(calls) && from <= to
    ensures GrantedWithin(limits, b, calls, from, to) as real <= limits.capacity as real + rate * (to - from)
  {
    var bound := limits.gain(to - from);
    assert bound == rate * (to - from);
    assert limits.Valid() by { AtRateIsValid(limits.capacity, rate); }
    WindowBound(limits, b, calls, from, to);
  }

  // ---- Exactly when a request is refused --------------------------------------------------------

  /** Grants up to the last call are the same in every window that reaches it. */
  lemma {:induction false} GrantedUpTo(limits: Limits, b: Bucket, calls: seq<Call>, from: real, to: real, later: real)
    requires Clock(calls) && to <= later && (calls != [] ==> calls[|calls| - 1].now <= to)
    ensures GrantedWithin(limits, b, calls, from, later) == GrantedWithin(limits, b, calls, from, to)
  {
    if calls != [] {
      GrantedUpTo(limits, b, calls[..|calls| - 1], from, to, later);
    }
  }

  ghost predicate RunFrom(start: real, calls: seq<Call>, now: real) {
    Clock(calls) && start <= now && forall i :: 0 <= i < |calls| ==> start <= calls[i].now <= now
  }

  /** The tokens are what has been gained, less what has been granted, since the bucket was last full. */
  lemma {:induction false} LastFull(limits: Limits, start: real, calls: seq<Call>) returns (from: real)
    requires limits.Valid() && RunFrom(start, calls, if calls == [] then start else calls[|calls| - 1].now)
    ensures var b := Full(limits, start);
            var now := After(limits, b, calls);
            && start <= from <= now.lastRefill
            && (calls == [] ==> now.lastRefill == start)
            && (calls != [] ==> now.lastRefill == calls[|calls| - 1].now)
            && now.tokens + GrantedWithin(limits, b, calls, from, now.lastRefill) as real
               >= limits.capacity as real + limits.gain(now.lastRefill - from)
  {
    var b := Full(limits, start);
    from := start;
    if calls == [] {
      assert limits.gain(Plus(0.0, 0.0)) == limits.gain(0.0) + limits.gain(0.0);
    } else {
      var front, c := calls[..|calls| - 1], calls[|calls| - 1];
      from := LastFull(limits, start, front);
      var was := After(limits, b, front);
      if was.tokens + limits.gain(Elapsed(was.lastRefill, c.now)) >= limits.capacity as real {
        from := c.now;
        assert limits.gain(Plus(0.0, 0.0)) == limits.gain(0.0) + limits.gain(0.0);
      } else {
        GrantedUpTo(limits, b, front, from, was.lastRefill, c.now);
        assert c.now - from == Plus(was.lastRefill - from, Elapsed(was.lastRefill, c.now));
      }
    }
  }

  /** One more grant would exceed what the window from `from` to now allows. */
  ghost predicate Exceeds(limits: Limits, start: real, calls: seq<Call>, from: real, now: real, rate: real) {
    && start <= from <= now
    && GrantedWithin(limits, Full(limits, start), calls, from, now) as real + 1.0
       > limits.capacity as real + rate * (now - from)
  }

  /** In any run from a full bucket, a request is refused exactly when one more grant would exceed the capacity plus
      rate * time in some window up to now: the limiter refuses what it must, and nothing else. */
  lemma RefusedIff(limits: Limits, rate: real, start: real, calls: seq<Call>, now: real)
    requires limits.capacity >= 1 && rate >= MIN_REFILL_RATE && limits == AtRate(limits.capacity, rate)
    requires RunFrom(start, calls, now)
    ensures Decisions(limits, Full(limits, start), calls + [TryAcquire(now)])
            == Decisions(limits, Full(limits, start), calls)
               + [forall from :: !Exceeds(limits, start, calls, from, now, rate)]
  {
    RunLast(limits, Full(limits, start), calls, TryAcquire(now));
    if Grants(limits, After(limits, Full(limits, start), calls), now) {
      GrantedExceedsNone(limits, rate, start, calls, now);
    } else {
      AtRateGains(limits, rate);
      RefusedExceeds(limits, rate, start, calls, now);
    }
  }

  lemma GrantedExceedsNone(limits: Limits, rate: real, start: real, calls: seq<Call>, now: real)
    requires limits.capacity >= 1 && rate >= MIN_REFILL_RATE && limits == AtRate(limits.capacity, rate)
    requires RunFrom(start, calls, now) && Grants(limits, After(limits, Full(limits, start), calls), now)
    ensures forall from :: !Exceeds(limits, start, calls, from, now, rate)
  {
    forall from ensures !Exceeds(limits, start, calls, from, now, rate) {
      if start <= from <= now {
        GrantedFits(limits, rate, Full(limits, start), calls, now, from);
      }
    }
  }

  /** The gain over t is that of the rate. */
  ghost predicate GainsAt(limits: Limits, rate: real, t: real) {
    limits.gain(t) == rate * t
  }

  lemma RefusedExceeds(limits: Limits, rate: real, start: real, calls: seq<Call>, now: real)
    requires limits.Valid() && forall t :: GainsAt(limits, rate, t)
    requires RunFrom(start, calls, now) && !Grants(limits, After(limits, Full(limits, start), calls), now)
    ensures exists from :: Exceeds(limits, start, calls, from, now, rate)
  {
    var from := RefusedExhausts(limits, start, calls, now);
    assert GainsAt(limits, rate, now - from);
    GainExceeds(limits, rate, start, calls, from, now);
  }

  lemma GainExceeds(limits: Limits, rate: real, start: real, calls: seq<Call>, from: real, now: real)
    requires start <= from <= now && GainsAt(limits, rate, now - from)
    requires GrantedWithin(limits, Full(limits, start), calls, from, now) as real + 1.0
             > limits.capacity as real + limits.gain(now - from)
    ensures Exceeds(limits, start, calls, from, now, rate)
  {
  }

  lemma GrantedFits(limits: Limits, rate: real, b: Bucket, calls: seq<Call>, now: real, from: real)
    requires limits.capacity >= 1 && rate >= MIN_REFILL_RATE && limits == AtRate(limits.capacity, rate)
    requires b.Valid(limits) && Clock(calls) && from <= now && forall i :: 0 <= i < |calls| ==> calls[i].now <= now
    requires Grants(limits, After(limits, b, calls), now)
    ensures GrantedWithin(limits, b, calls, from, now) as real + 1.0 <= limits.capacity as real + rate * (now - from)
  {
    var longer := calls + [TryAcquire(now)];
    assert longer[..|calls|] == calls;
    RateWindowBound(limits, rate, b, longer, from, now);
  }

  lemma RefusedExhausts(limits: Limits, start: real, calls: seq<Call>, now: real) returns (from: real)
    requires limits.Valid() && RunFrom(start, calls, now)
    requires !Grants(limits, After(limits, Full(limits, start), calls), now)
    ensures start <= from <= now
    ensures GrantedWithin(limits, Full(limits, start), calls, from, now) as real + 1.0
            > limits.capacity as real + limits.gain(now - from)
  {
    var b := Full(limits, start);
    var was := After(limits, b, calls);
    from := LastFull(limits, start, calls);
    GrantedUpTo(limits, b, calls, from, was.lastRefill, now);
    assert now - from == Plus(was.lastRefill - from, Elapsed(was.lastRefill, now));
  }

  lemma AtRateGains(limits: Limits, rate: real)
    requires limits.capacity >= 1 && rate >= MIN_REFILL_RATE && limits == AtRate(limits.capacity, rate)
    ensures limits.Valid() && forall t :: GainsAt(limits, rate, t)
  {
    AtRateIsValid(limits.capacity, rate);
  }

  /** A request that comes 1/rate seconds or more after the call before it is granted, whatever happened before. */
  lemma WaitIsGranted(limits: Limits, rate: real, b: Bucket, calls: seq<Call>, now: real)
    requires limits.capacity >= 1 && rate >= MIN_REFILL_RATE && limits == AtRate(limits.capacity, rate)
    requires b.Valid(limits)
    requires rate * (now - if calls == [] then b.lastRefill else calls[|calls| - 1].now) >= 1.0
    ensures Decisions(limits, b, calls + [TryAcquire(now)]) == Decisions(limits, b, calls) + [true]
  {
    var wait := now - if calls == [] then b.lastRefill else calls[|calls| - 1].now;
    PositiveFactor(rate, wait);
    AtRateGains(limits, rate);
    assert GainsAt(limits, rate, wait);
    WaitGrants(limits, b, calls, now, wait);
  }

  lemma PositiveFactor(rate: real, t: real)
    requires rate > 0.0 && rate * t >= 1.0
    ensures t > 0.0
  {
  }

  lemma WaitGrants(limits: Limits, b: Bucket, calls: seq<Call>, now: real, wait: real)
    requires limits.Valid() && b.Valid(limits) && wait > 0.0 && limits.gain(wait) >= 1.0
    requires wait == now - if calls == [] then b.lastRefill else calls[|calls| - 1].now
    ensures Decisions(limits, b, calls + [TryAcquire(now)]) == Decisions(limits, b, calls) + [true]
  {
    AfterStaysValid(limits, b, calls);
    RunLast(limits, b, calls, TryAcquire(now));
    WaitRefills(limits, After(limits, b, calls), now);
  }

  lemma WaitRefills(limits: Limits, b: Bucket, now: real)
    requires limits.Valid() && b.Valid(limits) && now > b.lastRefill && limits.gain(now - b.lastRefill) >= 1.0
    ensures Grants(limits, b, now)
  {
  }

  // ---- Reading the bucket changes no decision ---------------------------------------------------

  /** Refills compose. */
  lemma RefillTwice(limits: Limits, b: Bucket, t: real, u: real)
    requires limits.Valid() && b.lastRefill <= t <= u
    ensures Refill(limits, Refill(limits, b, t), u) == Refill(limits, b, u)
  {
    assert Elapsed(b.lastRefill, u) == Plus(Elapsed(b.lastRefill, t), Elapsed(t, u));
    assert limits.gain(Elapsed(t, u)) >= 0.0;
    assert limits.gain(Elapsed(b.lastRefill, t)) >= 0.0;
  }

  ghost function Acquisitions(calls: seq<Call>): seq<Call> {
    if calls == [] then [] else
    Acquisitions(calls[..|calls| - 1]) + if calls[|calls| - 1].TryAcquire? then [calls[|calls| - 1]] else []
  }

  /** Two buckets that agree from time t on. */
  ghost predicate AgreeFrom(limits: Limits, a: Bucket, b: Bucket, t: real) {
    && a.lastRefill <= t && b.lastRefill <= t
    && forall u :: t <= u ==> Refill(limits, a, u) == Refill(limits, b, u)
  }

  lemma ReadAgrees(limits: Limits, a: Bucket, b: Bucket, t: real, now: real)
    requires limits.Valid() && AgreeFrom(limits, a, b, t) && t <= now
    ensures AgreeFrom(limits, Refill(limits, a, now), b, now)
  {
    forall u | now <= u ensures Refill(limits, Refill(limits, a, now), u) == Refill(limits, b, u) {
      RefillTwice(limits, a, now, u);
    }
  }

  lemma AcquireAgrees(limits: Limits, a: Bucket, b: Bucket, t: real, now: real)
    requires AgreeFrom(limits, a, b, t) && t <= now
    ensures Grants(limits, a, now) == Grants(limits, b, now)
    ensures AgreeFrom(limits, Take(limits, a, now, Grants(limits, a, now)),
                      Take(limits, b, now, Grants(limits, b, now)), now)
  {
    assert Refill(limits, a, now) == Refill(limits, b, now);
  }

  lemma RunLast(limits: Limits, b: Bucket, calls: seq<Call>, c: Call)
    requires c.TryAcquire?
    ensures var was := After(limits, b, calls);
            && After(limits, b, calls + [c]) == Take(limits, was, c.now, Grants(limits, was, c.now))
            && Decisions(limits, b, calls + [c]) == Decisions(limits, b, calls) + [Grants(limits, was, c.now)]
  {
    assert (calls + [c])[..|calls|] == calls;
  }

  lemma {:induction false} ReadsAgree(limits: Limits, b: Bucket, calls: seq<Call>)
    requires limits.Valid() && Clock(calls) && forall i :: 0 <= i < |calls| ==> b.lastRefill <= calls[i].now
    ensures AgreeFrom(limits, After(limits, b, calls), After(limits, b, Acquisitions(calls)),
                      if calls == [] then b.lastRefill else calls[|calls| - 1].now)
    ensures Decisions(limits, b, calls) == Decisions(limits, b, Acquisitions(calls))
  {
    if calls != [] {
      var front, c := calls[..|calls| - 1], calls[|calls| - 1];
      ReadsAgree(limits, b, front);
      var with, without := After(limits, b, front), After(limits, b, Acquisitions(front));
      var t := if front == [] then b.lastRefill else front[|front| - 1].now;
      if c.TryAcquire? {
        RunLast(limits, b, Acquisitions(front), c);
        AcquireAgrees(limits, with, without, t, c.now);
      } else {
        ReadAgrees(limits, with, without, t, c.now);
        assert Acquisitions(calls) == Acquisitions(front);
        assert After(limits, b, calls) == Refill(limits, with, c.now);
      }
    }
  }

  /** Inserting or removing available_tokens calls anywhere changes no grant decision. */
  lemma ReadsChangeNoDecision(limits: Limits, b: Bucket, calls: seq<Call>, calls': seq<Call>)
    requires limits.Valid() && Clock(calls) && Clock(calls') && Acquisitions(calls) == Acquisitions(calls')
    requires forall i :: 0 <= i < |calls| ==> b.lastRefill <= calls[i].now
    requires forall i :: 0 <= i < |calls'| ==> b.lastRefill <= calls'[i].now
    ensures Decisions(limits, b, calls) == Decisions(limits, b, calls')
  {
    ReadsAgree(limits, b, calls);
    ReadsAgree(limits, b, calls');
  }

  // ---- Granting eagerly is optimal ----------------------------------------------------------------

  /** The bucket of another policy that answers these requests as it likes. */
  ghost function PolicyAfter(limits: Limits, b: Bucket, times: seq<real>, answers: seq<bool>): Bucket
    requires |times| == |answers|
  {
    if times == [] then b else
    var n := |times| - 1;
    Take(limits, PolicyAfter(limits, b, times[..n], answers[..n]), times[n], answers[n])
  }

  /** The policy may deny, but it grants only when the same refill leaves it a whole token. */
  ghost predicate Feasible(limits: Limits, b: Bucket, times: seq<real>, answers: seq<bool>)
    requires |times| == |answers|
  {
    forall n :: 0 <= n < |times| && answers[n] ==>
                  Grants(limits, PolicyAfter(limits, b, times[..n], answers[..n]), times[n])
  }

  ghost function Requests(times: seq<real>): (calls: seq<Call>)
    ensures |calls| == |times|
  {
    seq(|times|, i requires 0 <= i < |times| => TryAcquire(times[i]))
  }

  /** One request keeps the eager limiter's lead: it is behind in tokens by at most what it is ahead in grants. */
  lemma LeadStep(limits: Limits, eager: Bucket, other: Bucket, now: real, answer: bool, lead: nat)
    requires limits.Valid() && eager.lastRefill == other.lastRefill
    requires other.tokens - eager.tokens <= lead as real
    requires answer ==> Grants(limits, other, now)
    ensures var granted := Grants(limits, eager, now);
            var lead' := lead + (if granted then 1 else 0) - (if answer then 1 else 0);
            && lead' >= 0
            && Take(limits, other, now, answer).tokens - Take(limits, eager, now, granted).tokens <= lead' as real
  {
    assert Refill(limits, other, now).tokens - Refill(limits, eager, now).tokens <= lead as real;
  }

  lemma {:induction false} EagerLeads(limits: Limits, b: Bucket, times: seq<real>, answers: seq<bool>)
    requires limits.Valid() && b.Valid(limits) && |times| == |answers| && Feasible(limits, b, times, answers)
    ensures var eager, other := After(limits, b, Requests(times)), PolicyAfter(limits, b, times, answers);
            var lead := CountTrue(Decisions(limits, b, Requests(times))) - CountTrue(answers);
            && lead >= 0 && other.tokens - eager.tokens <= lead as real && eager.lastRefill == other.lastRefill
  {
    if times != [] {
      var n := |times| - 1;
      FeasiblePrefix(limits, b, times, answers, n);
      EagerLeads(limits, b, times[..n], answers[..n]);
      assert Requests(times)[..n] == Requests(times[..n]);
      var was, more := Decisions(limits, b, Requests(times[..n])), Decisions(limits, b, Requests(times));
      var eager, other := After(limits, b, Requests(times[..n])), PolicyAfter(limits, b, times[..n], answers[..n]);
      assert more == was + [Grants(limits, eager, times[n])];
      assert more[..|more| - 1] == was;
      LeadStep(limits, eager, other, times[n], answers[n], CountTrue(was) - CountTrue(answers[..n]));
    }
  }

  lemma FeasiblePrefix(limits: Limits, b: Bucket, times: seq<real>, answers: seq<bool>, k: nat)
    requires |times| == |answers| && Feasible(limits, b, times, answers) && k <= |times|
    ensures Feasible(limits, b, times[..k], answers[..k])
  {
    forall n | 0 <= n < k && answers[..k][n]
      ensures Grants(limits, PolicyAfter(limits, b, times[..k][..n], answers[..k][..n]), times[..k][n])
    {
      assert times[..k][..n] == times[..n] && answers[..k][..n] == answers[..n];
      assert answers[n];
    }
  }

  /** The limiter is maximal: after every prefix of the requests, it has granted at least as many as any
      policy with the same refill, cap and one-token rules. */
  lemma EagerIsMaximal(limits: Limits, start: real, times: seq<real>, answers: seq<bool>, k: nat)
    requires limits.Valid() && |times| == |answers| && Feasible(limits, Full(limits, start), times, answers)
    requires k <= |times|
    ensures CountTrue(answers[..k]) <= CountTrue(Decisions(limits, Full(limits, start), Requests(times[..k])))
  {
    var b := Full(limits, start);
    FeasiblePrefix(limits, b, times, answers, k);
    EagerLeads(limits, b, times[..k], answers[..k]);
  }

  /** A full bucket grants a burst of as many requests as it has capacity, whenever they come. */
  lemma {:induction false} BurstIsGranted(limits: Limits, start: real, times: seq<real>)
    requires limits.Valid() && |times| <= limits.capacity
    ensures Decisions(limits, Full(limits, start), Requests(times)) == seq(|times|, _ => true)
    ensures After(limits, Full(limits, start), Requests(times)).tokens >= (limits.capacity - |times|) as real
  {
    if times != [] {
      var n := |times| - 1;
      assert Requests(times)[..n] == Requests(times[..n]);
      BurstIsGranted(limits, start, times[..n]);
      var was := After(limits, Full(limits, start), Requests(times[..n]));
      assert limits.gain(Elapsed(was.lastRefill, times[n])) >= 0.0;
      assert Refill(limits, was, times[n]).tokens >= (limits.capacity - n) as real;
    }
  }
}

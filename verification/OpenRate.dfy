/** The token bucket of the open API, over real numbers: seconds for times, tokens
    as fractions. A throttled request stores nothing. */
module OpenRate {
  import opened Prelude

  datatype Bucket = Bucket(tokens: real, last: real)
  datatype Settings = Limits(rate: real, burst: real)
  /** Tokens per second and the most the bucket holds. */
  type Limits = l: Settings | l.rate > 0.0 && l.burst >= 1.0 witness Settings.Limits(1.0, 1.0)

  /** ConfigureOpenRateLimit; None is its error. */
  function Configure(perMinute: int, burst: int): (l: Option<Limits>)
    ensures l.Some? <==> 1 <= perMinute <= 1_000_000 && 1 <= burst <= 1_000_000
    ensures l.Some? ==> l.value.rate * 60.0 == perMinute as real && l.value.burst == burst as real
  {
    if 1 <= perMinute <= 1_000_000 && 1 <= burst <= 1_000_000 then Some(Limits(perMinute as real / 60.0, burst as real)) else None
  }

  function Max(a: real, b: real): real { if a < b then b else a }
  function Min(a: real, b: real): real { if a < b then a else b }
  function Ceil(x: real): int { -((-x).Floor) }

  /** consumeOpenRate: what is left and, if there was no whole token, the Retry-After seconds. */
  function Consume(b: Bucket, now: real, l: Limits): (real, int)
  {
    var tokens := Level(b, now, l);
    if tokens < 1.0 then (tokens, Ceil((1.0 - tokens) / l.rate)) else (tokens - 1.0, 0)
  }

  /** The refilled bucket, never above the burst. */
  function Level(b: Bucket, now: real, l: Limits): real {
    Min(l.burst, b.tokens + Max(0.0, now - b.last) * l.rate)
  }

  datatype Answer = Admitted | Throttled(retryAfter: int)

  /** The rate step of AuthenticateOpen. */
  function Request(b: Bucket, now: real, l: Limits): (Bucket, Answer)
  {
    var (remaining, retryAfter) := Consume(b, now, l);
    if retryAfter > 0 then (b, Throttled(retryAfter)) else (Bucket(remaining, now), Admitted)
  }

  predicate Admits(b: Bucket, now: real, l: Limits)
  {
    Request(b, now, l).1.Admitted?
  }

  lemma AdmitsIffWholeToken(b: Bucket, now: real, l: Limits)
    ensures Admits(b, now, l) <==> Level(b, now, l) >= 1.0
  {
    var need := 1.0 - Level(b, now, l);
    if need > 0.0 {
      assert need / l.rate > 0.0;
      assert Ceil(need / l.rate) > 0;
    }
  }

  function After(b: Bucket, times: seq<real>, l: Limits): Bucket
    decreases |times|
  {
    if times == [] then b else After(Request(b, times[0], l).0, times[1..], l)
  }

  function Admissions(b: Bucket, times: seq<real>, l: Limits): nat
    decreases |times|
  {
    if times == [] then 0
    else
      var (b', answer) := Request(b, times[0], l);
      (if answer.Admitted? then 1 else 0) + Admissions(b', times[1..], l)
  }

  predicate Nondecreasing(times: seq<real>) {
    forall i, j :: 0 <= i < j < |times| ==> times[i] <= times[j]
  }

  // ----- the same bucket on a clock that counts refilled tokens, where nothing is multiplied

  function Tick(t: real, l: Limits): real { t * l.rate }

  function TickLevel(tokens: real, mark: real, g: real, burst: real): real { Min(burst, tokens + Max(0.0, g - mark)) }

  lemma Scale(x: real, y: real, r: real)
    requires x <= y && r >= 0.0
    ensures x * r <= y * r
  {}

  lemma Distribute(x: real, y: real, r: real)
    ensures y * r - x * r == (y - x) * r
  {}

  lemma TicksFollowTime(t: real, u: real, l: Limits)
    requires t <= u
    ensures Tick(t, l) <= Tick(u, l)
  {
    Scale(t, u, l.rate);
  }

  lemma LevelInTicks(b: Bucket, t: real, l: Limits)
    ensures Level(b, t, l) == TickLevel(b.tokens, Tick(b.last, l), Tick(t, l), l.burst)
  {
    Distribute(b.last, t, l.rate);
    if t >= b.last { TicksFollowTime(b.last, t, l); } else { TicksFollowTime(t, b.last, l); }
    assert Max(0.0, t - b.last) * l.rate == if t >= b.last then (t - b.last) * l.rate else 0.0;
  }

  /** What one request at tick `g` leaves can only be spent as far as the refill to
      tick `w` allows: an admission uses one token, waiting adds the ticks that pass. */
  lemma CreditFalls(tokens: real, mark: real, g: real, h: real, w: real, burst: real)
    requires g <= h <= w && burst >= 1.0
    ensures var level := TickLevel(tokens, mark, g, burst);
      && TickLevel(tokens, mark, h, burst) - h <= level - g
      && TickLevel(level - 1.0, g, h, burst) - h <= level - 1.0 - g
  {}

  lemma {:induction false} AdmissionsSpendCredit(b: Bucket, times: seq<real>, v: real, l: Limits)
    requires times != [] && Nondecreasing(times) && times[|times| - 1] <= v
    ensures var n := Admissions(b, times, l);
      n == 0 || n as real <= TickLevel(b.tokens, Tick(b.last, l), Tick(times[0], l), l.burst) + Tick(v, l) - Tick(times[0], l)
    decreases |times|
  {
    var t, rest := times[0], times[1..];
    var b' := Request(b, t, l).0;
    AdmitsIffWholeToken(b, t, l);
    LevelInTicks(b, t, l);
    TicksFollowTime(t, v, l);
    if rest != [] {
      AdmissionsSpendCredit(b', rest, v, l);
      TicksFollowTime(t, rest[0], l);
      TicksFollowTime(rest[0], v, l);
      CreditFalls(b.tokens, Tick(b.last, l), Tick(t, l), Tick(rest[0], l), Tick(v, l), l.burst);
    }
  }

  /** The ticks that pass between `t` and `u`, at most `d` seconds apart. */
  lemma TicksIn(t: real, u: real, d: real, l: Limits)
    requires u - t <= d
    ensures Tick(u, l) - Tick(t, l) <= d * l.rate
  {
    Distribute(t, u, l.rate);
    Scale(u - t, d, l.rate);
  }

  lemma StretchBound(b: Bucket, times: seq<real>, d: real, l: Limits)
    requires times != [] && Nondecreasing(times) && times[|times| - 1] - times[0] <= d
    ensures Admissions(b, times, l) == 0 || Admissions(b, times, l) as real <= l.burst + d * l.rate
  {
    var v := times[|times| - 1];
    AdmissionsSpendCredit(b, times, v, l);
    TicksIn(times[0], v, d, l);
    assert TickLevel(b.tokens, Tick(b.last, l), Tick(times[0], l), l.burst) <= l.burst;
  }

  lemma Stretch(times: seq<real>, i: nat, j: nat)
    requires Nondecreasing(times) && i < j <= |times|
    ensures var part := times[i..j]; Nondecreasing(part) && part[0] == times[i] && part[|part| - 1] == times[j - 1]
  {}

  /** Main result. However the requests of a key arrive, in any stretch of a run at
      most burst + d * perMinute / 60 of them are admitted, where d is the length of the stretch. */
  lemma WindowBound(start: Bucket, times: seq<real>, i: nat, j: nat, d: real, l: Limits)
    requires Nondecreasing(times) && i <= j <= |times|
    requires i < j ==> times[j - 1] - times[i] <= d
    requires d >= 0.0
    ensures Admissions(After(start, times[..i], l), times[i..j], l) as real <= l.burst + d * l.rate
  {
    Scale(0.0, d, l.rate);
    if i < j {
      Stretch(times, i, j);
      StretchBound(After(start, times[..i], l), times[i..j], d, l);
    }
  }

  /** A window counts what the run admits: the admissions of a run split at any point. */
  lemma {:induction false} AdmissionsSplit(b: Bucket, times: seq<real>, i: nat, l: Limits)
    requires i <= |times|
    ensures Admissions(b, times, l) == Admissions(b, times[..i], l) + Admissions(After(b, times[..i], l), times[i..], l)
    decreases i
  {
    if i > 0 {
      AdmissionsSplit(Request(b, times[0], l).0, times[1..], i - 1, l);
      assert times[..i][1..] == times[1..][..i - 1] && times[1..][i - 1..] == times[i..];
    } else {
      assert times[0..] == times;
    }
  }

  // ----- what is admitted for sure

  /** `n` requests at one instant. */
  function AtOnce(now: real, n: nat): seq<real> { seq(n, _ => now) }

  /** An admission costs exactly one token of the refilled bucket, whose refill starts anew; a
      throttled request costs nothing. */
  lemma OneTokenEach(b: Bucket, now: real, l: Limits)
    ensures var after := Request(b, now, l).0;
      && (Admits(b, now, l) ==> after.last == now && after.tokens == Level(b, now, l) - 1.0 && Level(after, now, l) == Level(b, now, l) - 1.0)
      && (!Admits(b, now, l) ==> after == b)
  {
    AdmitsIffWholeToken(b, now, l);
    if Admits(b, now, l) { assert Max(0.0, now - now) * l.rate == 0.0; }
  }

  /** Main result. Of any number of requests at one instant exactly as many are admitted as the
      bucket then holds whole tokens. */
  lemma {:induction false} WholeTokensAtOnce(b: Bucket, now: real, n: nat, l: Limits)
    requires Level(b, now, l) >= 0.0
    ensures var whole := Level(b, now, l).Floor; Admissions(b, AtOnce(now, n), l) == if n <= whole then n else whole
    decreases n
  {
    if n > 0 {
      AdmitsIffWholeToken(b, now, l);
      OneTokenEach(b, now, l);
      assert AtOnce(now, n)[1..] == AtOnce(now, n - 1);
      if Admits(b, now, l) {
        var b' := Request(b, now, l).0;
        WholeTokensAtOnce(b', now, n - 1, l);
        assert Level(b', now, l).Floor == Level(b, now, l).Floor - 1;
      } else {
        WholeTokensAtOnce(b, now, n - 1, l);
      }
    }
  }

  /** A bucket left alone for as long as the whole burst takes to refill is full. */
  lemma IdleFills(b: Bucket, now: real, l: Limits)
    requires b.tokens >= 0.0 && now - b.last >= l.burst / l.rate
    ensures Level(b, now, l) == l.burst
  {
    Quotient(l.burst, l.rate);
    Scale(l.burst / l.rate, now - b.last, l.rate);
  }

  /** A key that was idle long enough is admitted for the whole configured burst at once, and the next request is throttled. */
  lemma WholeBurstAtOnce(b: Bucket, now: real, perMinute: int, burst: int)
    requires Configure(perMinute, burst).Some?
    requires var l := Configure(perMinute, burst).value; b.tokens >= 0.0 && now - b.last >= l.burst / l.rate
    ensures 1 <= burst && perMinute >= 1
    ensures var l := Configure(perMinute, burst).value;
      && Admissions(b, AtOnce(now, burst), l) == burst && Admissions(b, AtOnce(now, burst + 1), l) == burst
  {
    var l := Configure(perMinute, burst).value;
    IdleFills(b, now, l);
    WholeTokensAtOnce(b, now, burst, l);
    WholeTokensAtOnce(b, now, burst + 1, l);
  }

  /** Each request comes at least as long after the one before as one token takes to refill. */
  ghost predicate Spaced(times: seq<real>, l: Limits)
  {
    forall i :: 0 < i < |times| ==> ComesAfter(times, i, l)
  }

  predicate ComesAfter(times: seq<real>, i: nat, l: Limits)
    requires 0 < i < |times|
  {
    times[i] - times[i - 1] >= 1.0 / l.rate
  }

  /** Main result. Requests no closer than the time one token takes to refill are all admitted,
      for however long they come, once the first one is. */
  lemma {:induction false} SteadyIsAdmitted(b: Bucket, times: seq<real>, l: Limits)
    requires times != [] && Spaced(times, l) && Admits(b, times[0], l)
    ensures Admissions(b, times, l) == |times|
    decreases |times|
  {
    var rest := times[1..];
    var b' := Request(b, times[0], l).0;
    AdmitsIffWholeToken(b, times[0], l);
    OneTokenEach(b, times[0], l);
    if rest != [] {
      assert ComesAfter(times, 1, l);
      Quotient(1.0, l.rate);
      Scale(1.0 / l.rate, rest[0] - times[0], l.rate);
      AdmitsIffWholeToken(b', rest[0], l);
      forall i | 0 < i < |rest| ensures ComesAfter(rest, i, l) { assert ComesAfter(times, i + 1, l); }
      SteadyIsAdmitted(b', rest, l);
    }
  }

  // ----- Retry-After

  lemma CeilMeaning(x: real, n: int)
    ensures Ceil(x) <= n <==> x <= n as real
  {}

  predicate AdmittedIn(b: Bucket, now: real, m: nat, l: Limits)
  {
    Admits(b, now + m as real, l)
  }

  /** `n` is the least whole number of seconds after which a request is admitted if the key stays idle. */
  ghost predicate IsLeastWait(b: Bucket, now: real, n: int, l: Limits)
  {
    && n >= 0 && AdmittedIn(b, now, n, l)
    && forall m: nat {:trigger AdmittedIn(b, now, m, l)} :: m < n ==> !AdmittedIn(b, now, m, l)
  }

  /** Without a whole token, a request `m` seconds later is admitted once the time
      past the last refill covers what is missing. */
  lemma AdmitsAfter(b: Bucket, now: real, m: nat, l: Limits)
    requires Level(b, now, l) < 1.0
    ensures Admits(b, now + m as real, l) <==>
      m as real >= Max(0.0, b.last - now) + (1.0 - Level(b, now, l)) / l.rate
  {
    AdmitsIffWholeToken(b, now + m as real, l);
    LevelAfter(b, now, m as real, l);
  }

  lemma LevelAfter(b: Bucket, now: real, wait: real, l: Limits)
    requires Level(b, now, l) < 1.0 && wait >= 0.0
    ensures Level(b, now + wait, l) >= 1.0 <==> wait >= Max(0.0, b.last - now) + (1.0 - Level(b, now, l)) / l.rate
  {
    var e, f := Max(0.0, now - b.last), Max(0.0, now + wait - b.last);
    Covers(b.tokens, e, f, l);
    Quotient(1.0 - Level(b, now, l), l.rate);
    Waited(b.last, now, wait, (1.0 - Level(b, now, l)) / l.rate);
  }

  lemma Waited(last: real, now: real, wait: real, need: real)
    requires wait >= 0.0 && need > 0.0
    ensures Max(0.0, now + wait - last) - Max(0.0, now - last) >= need <==> wait >= Max(0.0, last - now) + need
  {}

  /** A bucket without a whole token after `e` seconds has one after `f` if and only if
      the seconds between refill what is missing. */
  lemma Covers(tokens: real, e: real, f: real, l: Limits)
    requires e <= f && Min(l.burst, tokens + e * l.rate) < 1.0
    ensures Min(l.burst, tokens + f * l.rate) >= 1.0 <==> f - e >= (1.0 - Min(l.burst, tokens + e * l.rate)) / l.rate
  {
    var missing := 1.0 - (tokens + e * l.rate);
    Quotient(missing, l.rate);
    Gains(e, f, missing / l.rate, missing, l.rate);
    Distribute(e, f, l.rate);
  }

  lemma Gains(e: real, f: real, need: real, missing: real, r: real)
    requires r > 0.0 && need * r == missing
    ensures (f - e) * r >= missing <==> f - e >= need
  {
    if f - e >= need {
      Scale(need, f - e, r);
    } else {
      StrictScale(f - e, need, r);
    }
  }

  lemma Quotient(x: real, r: real)
    requires x > 0.0 && r > 0.0
    ensures x / r > 0.0 && (x / r) * r == x
  {
    var q := x / r;
    assert q * r == x;
    if q <= 0.0 { Scale(q, 0.0, r); }
  }

  lemma StrictScale(x: real, y: real, r: real)
    requires x < y && r > 0.0
    ensures x * r < y * r
  {}

  /** The Retry-After of a throttled request is right exactly if the clock does not lag
      the last refill by more than the rounding to whole seconds gives away; in
      particular whenever the clock is at or past the last refill. */
  lemma RetryAfterIsLeastWait(b: Bucket, now: real, l: Limits)
    requires Request(b, now, l).1.Throttled?
    ensures var missing := (1.0 - Level(b, now, l)) / l.rate;
      IsLeastWait(b, now, Request(b, now, l).1.retryAfter, l) <==> b.last - now <= Ceil(missing) as real - missing
    ensures now >= b.last ==> IsLeastWait(b, now, Request(b, now, l).1.retryAfter, l)
    ensures Request(b, now, l).1.retryAfter >= 1
  {
    AdmitsIffWholeToken(b, now, l);
    var missing := (1.0 - Level(b, now, l)) / l.rate;
    var n := Request(b, now, l).1.retryAfter;
    assert n == Ceil(missing);
    CeilMeaning(missing, n);
    AdmitsAfter(b, now, n, l);
    forall m: nat | m < n ensures !AdmittedIn(b, now, m, l) {
      AdmitsAfter(b, now, m, l);
      CeilMeaning(missing, m);
    }
  }

  /** A clock that reads a hundred seconds before the last refill: the key is told to come
      back after one second, and then is not admitted. */
  lemma RetryAfterTooShort() returns (b: Bucket, now: real, l: Limits)
    ensures Request(b, now, l).1 == Throttled(1) && !AdmittedIn(b, now, 1, l)
  {
    b, now, l := Bucket(0.0, 100.0), 0.0, Limits(1.0, 1.0);
    assert Level(b, now, l) == 0.0 && Level(b, now + 1.0, l) == 0.0;
    assert Ceil((1.0 - 0.0) / 1.0) == 1;
  }

  // ----- the row

  /** The rate columns of one API key. */
  class KeyRow {
    var tokens: real
    var lastRefill: real

    ghost function View(): Bucket reads this { Bucket(tokens, lastRefill) }

    constructor (tokens: real, lastRefill: real)
      ensures View() == Bucket(tokens, lastRefill)
    {
      this.tokens, this.lastRefill := tokens, lastRefill;
    }

    /** The rate step of AuthenticateOpen; a throttled request writes nothing. */
    method Spend(now: real, l: Limits) returns (answer: Answer)
      modifies this
      ensures (View(), answer) == Request(old(View()), now, l)
    {
      var (remaining, retryAfter) := Consume(Bucket(tokens, lastRefill), now, l);
      if retryAfter > 0 { return Throttled(retryAfter); }
      tokens, lastRefill := remaining, now;
      answer := Admitted;
    }
  }
}

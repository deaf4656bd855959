/** The rate limiter's token bucket, over the reals and whole milliseconds. */
module Bucket {
  /** Tokens at the last refill; last == 0 is a bucket that was never used. */
  datatype State = State(tokens: real, last: int)

  const UNUSED := State(0.0, 0)

  function Refilled(s: State, now: int, rate: real, burst: real): State
  {
    var t := if s.last == 0 then State(burst, now) else s;
    var elapsed := (now - t.last) as real / 1000.0;
    if elapsed > 0.0 then
      var more := t.tokens + elapsed * rate;
      State(if more > burst then burst else more, now)
    else t
  }

  /** ntc_bucket_allow. */
  function Allow(s: State, now: int, rate: real, burst: real): (State, bool)
  {
    var r := Refilled(s, now, rate, burst);
    if r.tokens >= 1.0 then (State(r.tokens - 1.0, r.last), true) else (r, false)
  }

  /** The bucket as the gateway updates it. */
  class Limiter {
    var tokens: real
    var last: int

    ghost function Value(): State reads this { State(tokens, last) }

    constructor ()
      ensures Value() == UNUSED
    {
      tokens, last := 0.0, 0;
    }

    method Admit(now: int, rate: real, burst: real) returns (ok: bool)
      modifies this
      ensures Value() == Allow(old(Value()), now, rate, burst).0 && ok == Allow(old(Value()), now, rate, burst).1
    {
      if last == 0 { tokens, last := burst, now; }
      var elapsed := (now - last) as real / 1000.0;
      if elapsed > 0.0 {
        tokens := tokens + elapsed * rate;
        if tokens > burst { tokens := burst; }
        last := now;
      }
      ok := tokens >= 1.0;
      if ok { tokens := tokens - 1.0; }
    }
  }

  // ---- whole runs ----

  /** The bucket after the first n of the calls at these times. */
  function After(s: State, times: seq<int>, n: nat, rate: real, burst: real): State
    requires n <= |times|
  {
    if n == 0 then s else Allow(After(s, times, n - 1, rate, burst), times[n - 1], rate, burst).0
  }

  /** Whether call number k is admitted. */
  predicate Admitted(s: State, times: seq<int>, k: nat, rate: real, burst: real)
    requires k < |times|
  {
    Allow(After(s, times, k, rate, burst), times[k], rate, burst).1
  }

  /** How many of the calls i, ..., j - 1 are admitted. */
  function Count(s: State, times: seq<int>, i: nat, j: nat, rate: real, burst: real): nat
    requires i <= j <= |times|
    decreases j
  {
    if i == j then 0
    else Count(s, times, i, j - 1, rate, burst) + if Admitted(s, times, j - 1, rate, burst) then 1 else 0
  }

  ghost predicate Ordered(times: seq<int>)
  {
    (forall k :: 0 <= k < |times| ==> 0 < times[k]) && forall i, j :: 0 <= i <= j < |times| ==> times[i] <= times[j]
  }

  /** An unused bucket, or one that last saw a time no later than now. */
  ghost predicate Sound(s: State, now: int, burst: real)
  {
    s == UNUSED || (0 < s.last <= now && 0.0 <= s.tokens <= burst)
  }

  lemma {:induction false} Gain(e: int, rate: real)
    requires e >= 0 && rate >= 0.0
    ensures e as real / 1000.0 * rate >= 0.0 && (e as real / 1000.0 > 0.0 <==> e > 0)
  {
    NonNegative(e as real / 1000.0, rate);
  }

  lemma {:induction false} NonNegative(x: real, y: real)
    requires x >= 0.0 && y >= 0.0
    ensures x * y >= 0.0
  {
  }

  /** One call keeps the tokens between 0 and burst and leaves the bucket at the time of the call. */
  lemma {:induction false} AllowKeeps(s: State, now: int, rate: real, burst: real)
    requires rate >= 0.0 && burst >= 0.0 && now > 0 && Sound(s, now, burst)
    ensures var t := Allow(s, now, rate, burst).0; t.last == now && 0.0 <= t.tokens <= burst
  {
    if s.last != 0 { Gain(now - s.last, rate); }
  }

  lemma {:induction false} RunSound(s: State, times: seq<int>, n: nat, rate: real, burst: real)
    requires rate >= 0.0 && burst >= 0.0 && Ordered(times) && n <= |times|
    requires forall k :: 0 <= k < |times| ==> Sound(s, times[k], burst)
    ensures forall k :: n <= k < |times| ==> Sound(After(s, times, n, rate, burst), times[k], burst)
    ensures n > 0 ==> After(s, times, n, rate, burst).last == times[n - 1]
    decreases n
  {
    if n > 0 {
      RunSound(s, times, n - 1, rate, burst);
      AllowKeeps(After(s, times, n - 1, rate, burst), times[n - 1], rate, burst);
    }
  }

  /** Over every run the tokens stay between 0 and burst. */
  lemma {:induction false} TokensInRange(times: seq<int>, n: nat, rate: real, burst: real)
    requires rate >= 0.0 && burst >= 0.0 && Ordered(times) && n <= |times|
    ensures 0.0 <= After(UNUSED, times, n, rate, burst).tokens <= burst
  {
    if n > 0 {
      RunSound(UNUSED, times, n - 1, rate, burst);
      AllowKeeps(After(UNUSED, times, n - 1, rate, burst), times[n - 1], rate, burst);
    }
  }

  function Refill(from: int, to: int, rate: real): real { (to - from) as real / 1000.0 * rate }

  lemma {:induction false} RefillAdds(a: int, b: int, c: int, rate: real)
    ensures Refill(a, b, rate) + Refill(b, c, rate) == Refill(a, c, rate)
  {
    var x, y := (b - a) as real / 1000.0, (c - b) as real / 1000.0;
    assert (c - a) as real / 1000.0 == x + y;
    assert x * rate + y * rate == (x + y) * rate;
  }

  /** One admitted call costs a token, and time gives back at most rate for each second. */
  lemma {:induction false} Spend(s: State, now: int, rate: real, burst: real)
    requires rate >= 0.0 && burst >= 0.0 && 0 < s.last <= now && 0.0 <= s.tokens <= burst
    ensures var (t, ok) := Allow(s, now, rate, burst);
      t.tokens + (if ok then 1.0 else 0.0) <= s.tokens + Refill(s.last, now, rate)
    ensures var (t, ok) := Allow(s, now, rate, burst); t.tokens + (if ok then 1.0 else 0.0) <= burst
  {
    Gain(now - s.last, rate);
  }

  lemma {:induction false} FirstSpend(s: State, now: int, rate: real, burst: real)
    requires rate >= 0.0 && burst >= 0.0 && now > 0 && Sound(s, now, burst)
    ensures var (t, ok) := Allow(s, now, rate, burst); t.tokens + (if ok then 1.0 else 0.0) <= burst
  {
    if s.last != 0 { Spend(s, now, rate, burst); }
  }

  /** In every window of every run the admitted calls are at most burst + rate * window / 1000. */
  lemma {:induction false} WindowBound(times: seq<int>, i: nat, j: nat, rate: real, burst: real)
    requires rate >= 0.0 && burst >= 0.0 && Ordered(times) && i < j <= |times|
    ensures Count(UNUSED, times, i, j, rate, burst) as real + After(UNUSED, times, j, rate, burst).tokens
      <= burst + Refill(times[i], times[j - 1], rate)
    ensures Count(UNUSED, times, i, j, rate, burst) as real
      <= burst + rate * (times[j - 1] - times[i]) as real / 1000.0
    decreases j
  {
    var s := After(UNUSED, times, j - 1, rate, burst);
    RunSound(UNUSED, times, j - 1, rate, burst);
    TokensInRange(times, j, rate, burst);
    if i == j - 1 {
      FirstSpend(s, times[i], rate, burst);
      assert Count(UNUSED, times, i, i, rate, burst) == 0;
    } else {
      WindowBound(times, i, j - 1, rate, burst);
      Spend(s, times[j - 1], rate, burst);
      RefillAdds(times[i], times[j - 2], times[j - 1], rate);
    }
    Commute((times[j - 1] - times[i]) as real, rate);
  }

  lemma {:induction false} Commute(x: real, rate: real)
    ensures x / 1000.0 * rate == rate * x / 1000.0
  {
  }

  /** Calls spaced at least 1000 / rate milliseconds apart are all admitted. */
  lemma {:induction false} SpacedCallsPass(times: seq<int>, k: nat, rate: real, burst: real)
    requires rate > 0.0 && burst >= 1.0 && Ordered(times) && k < |times|
    requires forall i :: 0 < i < |times| ==> (times[i] - times[i - 1]) as real * rate >= 1000.0
    ensures Admitted(UNUSED, times, k, rate, burst)
  {
    RunSound(UNUSED, times, k, rate, burst);
    var s := After(UNUSED, times, k, rate, burst);
    if k > 0 {
      TokensInRange(times, k, rate, burst);
      Earned(s, times[k], rate, burst);
    }
  }

  lemma {:induction false} Earned(s: State, now: int, rate: real, burst: real)
    requires rate > 0.0 && burst >= 1.0 && 0 < s.last <= now && 0.0 <= s.tokens
    requires (now - s.last) as real * rate >= 1000.0
    ensures Allow(s, now, rate, burst).1
  {
    Enough((now - s.last) as real, rate);
    Gain(now - s.last, rate);
  }

  lemma {:induction false} Enough(x: real, rate: real)
    requires x * rate >= 1000.0
    ensures x / 1000.0 * rate >= 1.0
  {
    assert x / 1000.0 * rate == x * rate / 1000.0;
  }
}

/** Retry delays (`RetryPolicy::delay_for`) over saturating 64-bit arithmetic. */
module Backoff {
  import opened Types

  datatype RetryPolicy = RetryPolicy(maxAttempts: u8, baseDelayMs: u64, maxDelayMs: u64, jitter: bool)

  function Pow2(n: nat): nat { if n == 0 then 1 else 2 * Pow2(n - 1) }

  function SaturatingMul(a: u64, b: u64): u64 { if a * b > U64_MAX then U64_MAX else a * b }

  function SaturatingAdd(a: u64, b: u64): u64 { if a + b > U64_MAX then U64_MAX else a + b }

  function SaturatingSub(a: u64, b: u64): u64 { if a < b then 0 else a - b }

  /** `1u64 << attempt.min(10)`. */
  function Factor(attempt: u8): u64
  {
    var e := Min(attempt, 10);
    Pow2Bound(e);
    Pow2(e)
  }

  function Capped(p: RetryPolicy, attempt: u8): u64 {
    Min(SaturatingMul(p.baseDelayMs, Factor(attempt)), p.maxDelayMs)
  }

  /** `draw` is the value of `rand::random::<u64>()`. */
  function DelayFor(p: RetryPolicy, attempt: u8, draw: u64): u64 {
    var capped := Capped(p, attempt);
    if !p.jitter then
      capped
    else
      var range := capped / 4;
      var extra := if range > 0 then draw % range else 0;
      SaturatingAdd(SaturatingSub(capped, range / 2), extra)
  }

  lemma {:induction false} Pow2Bound(n: nat)
    requires n <= 10
    ensures 1 <= Pow2(n) <= 1024
    ensures Pow2(n) * Pow2(10 - n) == 1024
  {
    if n > 0 {
      Pow2Bound(n - 1);
      assert Pow2(n) * Pow2(10 - n) == Pow2(n - 1) * (2 * Pow2(10 - n));
    } else {
      assert Pow2(2) == 4 && Pow2(4) == 16 && Pow2(6) == 64 && Pow2(8) == 256 && Pow2(10) == 1024;
    }
  }

  lemma {:induction false} Pow2Mono(m: nat, n: nat)
    requires m <= n
    ensures Pow2(m) <= Pow2(n)
  {
    if m < n { Pow2Mono(m, n - 1); }
  }

  /** Without jitter the delay is the capped exponential over unbounded integers:
      neither the shift nor the saturating product is ever visible to a caller. */
  lemma DelayIsCappedExponential(p: RetryPolicy, attempt: u8, draw: u64)
    requires !p.jitter
    ensures DelayFor(p, attempt, draw) == Min(p.maxDelayMs, p.baseDelayMs * Pow2(Min(attempt, 10)))
  {
    Pow2Bound(Min(attempt, 10));
  }

  /** The delay over unbounded integers: the capped exponential, and with jitter a draw from a
      quarter of it, centred on it. Only a jittered delay beyond 64 bits is cut off. */
  function Documented(p: RetryPolicy, attempt: nat, draw: nat): int {
    var capped := Min(p.maxDelayMs, p.baseDelayMs * Pow2(Min(attempt, 10)));
    if !p.jitter then capped
    else if capped < 4 then capped
    else Min(U64_MAX, capped - capped / 4 / 2 + draw % (capped / 4))
  }

  /** That is what the saturating arithmetic computes. */
  lemma DelayIsDocumented(p: RetryPolicy, attempt: u8, draw: u64)
    ensures DelayFor(p, attempt, draw) == Documented(p, attempt, draw)
  {
    Pow2Bound(Min(attempt, 10));
    var capped := Capped(p, attempt);
    assert capped == Min(p.maxDelayMs, p.baseDelayMs * Pow2(Min(attempt, 10)));
    if capped / 4 > 0 { assert draw % (capped / 4) < capped / 4; }
  }

  /** The un-jittered delay never shrinks from one attempt to a later one. */
  lemma DelayIsMonotone(p: RetryPolicy, early: u8, late: u8)
    requires early <= late
    ensures Capped(p, early) <= Capped(p, late)
  {
    Pow2Mono(Min(early, 10), Min(late, 10));
    MulMono(p.baseDelayMs, Factor(early), Factor(late));
  }

  lemma MulMono(a: nat, b: nat, c: nat)
    requires b <= c
    ensures a * b <= a * c
  {
    assert a * c == a * b + a * (c - b);
  }

  /** The jittered delay stays within one eighth of the un-jittered one on either
      side, where the documentation promises a quarter. */
  lemma JitterWithinOneEighth(p: RetryPolicy, attempt: u8, draw: u64)
    ensures 7 * Capped(p, attempt) <= 8 * DelayFor(p, attempt, draw) <= 9 * Capped(p, attempt)
    ensures 8 * DelayFor(p, attempt, draw) <= 9 * p.maxDelayMs
  {
    var capped := Capped(p, attempt);
    var range := capped / 4;
    assert 8 * (range / 2) <= capped;
    if p.jitter && range > 0 {
      assert draw % range < range;
    }
  }
}

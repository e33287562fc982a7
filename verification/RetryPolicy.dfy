/** How long a failed update waits before it is sent again. */
module RetryPolicy {
  import opened UnixClock

  const WEBHOOK_MAX_RESEND_TIMEOUT := 60
  const MAX_RETRY_AFTER := 3600

  /** The part of an update that the retry policy reads and writes. */
  datatype Backoff = Backoff(delay: int, failCount: nat)

  /** What one failure brings in: the peer's retry-after value and the random
      cap drawn for the doubled delay. */
  datatype Failure = Failure(retryAfter: int, maxTimeout: int)

  predicate Drawable(f: Failure) {
    WEBHOOK_MAX_RESEND_TIMEOUT <= f.maxTimeout <= 2 * WEBHOOK_MAX_RESEND_TIMEOUT
  }

  function Clamp(x: int, low: int, high: int): int {
    if x < low then low else if high < x then high else x
  }

  const FRESH := Backoff(1, 0)

  predicate Doubles(b: Backoff, f: Failure) {
    Clamp(f.retryAfter, 0, MAX_RETRY_AFTER) == 0 && b.failCount > 0
  }

  function NextDelay(b: Backoff, f: Failure): int {
    if Doubles(b, f) then Min(f.maxTimeout, b.delay * 2) else b.delay
  }

  function EffectiveDelay(b: Backoff, f: Failure): int {
    if Doubles(b, f) then NextDelay(b, f) else Clamp(f.retryAfter, 0, MAX_RETRY_AFTER)
  }

  function AfterFailure(b: Backoff, f: Failure): Backoff {
    Backoff(NextDelay(b, f), b.failCount + 1)
  }

  function AfterFailures(fs: seq<Failure>): Backoff {
    if fs == [] then FRESH else AfterFailure(AfterFailures(fs[..|fs| - 1]), fs[|fs| - 1])
  }

  /** How many of the failures doubled the delay. */
  function Doublings(fs: seq<Failure>): nat {
    if fs == [] then 0
    else
      var before := fs[..|fs| - 1];
      Doublings(before) + if Doubles(AfterFailures(before), fs[|fs| - 1]) then 1 else 0
  }

  function Pow2(n: nat): nat {
    if n == 0 then 1 else 2 * Pow2(n - 1)
  }

  /** A retry-after answer is obeyed, up to an hour, and leaves the delay alone. Without
      one the first failure is retried at once, and every other one doubles the delay,
      up to the cap that was drawn, and waits for it. */
  lemma RetryAfterObeyed(b: Backoff, f: Failure)
    ensures 0 < f.retryAfter <= 3600 ==> EffectiveDelay(b, f) == f.retryAfter
    ensures 3600 < f.retryAfter ==> EffectiveDelay(b, f) == 3600
    ensures 0 < f.retryAfter || b.failCount == 0 ==> AfterFailure(b, f).delay == b.delay
    ensures f.retryAfter <= 0 && b.failCount == 0 ==> EffectiveDelay(b, f) == 0
    ensures f.retryAfter <= 0 && b.failCount > 0 ==>
              EffectiveDelay(b, f) == AfterFailure(b, f).delay
              == if 2 * b.delay <= f.maxTimeout then 2 * b.delay else f.maxTimeout
    ensures AfterFailure(b, f).failCount == b.failCount + 1
  {
  }

  /** Whatever random caps are drawn, and however retry-after answers are mixed
      in, after j doublings the delay is 2^j up to the caps 60 and 120. */
  lemma {:induction false} BackoffClosedForm(fs: seq<Failure>)
    requires forall f | f in fs :: Drawable(f)
    ensures AfterFailures(fs).failCount == |fs|
    ensures Min(60, Pow2(Doublings(fs))) <= AfterFailures(fs).delay <= Min(120, Pow2(Doublings(fs)))
  {
    if fs != [] {
      var before, f := fs[..|fs| - 1], fs[|fs| - 1];
      assert f in fs;
      BackoffClosedForm(before);
    }
  }

  /** The wait is at most an hour; it is at least a second except for the
      immediate retry after a first failure without retry-after. */
  lemma WaitBounds(fs: seq<Failure>, f: Failure)
    requires forall g | g in fs :: Drawable(g)
    requires Drawable(f)
    ensures 0 <= EffectiveDelay(AfterFailures(fs), f) <= MAX_RETRY_AFTER
    ensures EffectiveDelay(AfterFailures(fs), f) == 0 <==> fs == [] && f.retryAfter <= 0
  {
    BackoffClosedForm(fs);
    PowPositive(Doublings(fs));
  }

  lemma {:induction false} PowPositive(n: nat)
    ensures Pow2(n) >= 1
  {
    if n > 0 { PowPositive(n - 1); }
  }
}

/**
 * The rate-limit rule. After a response whose `x-rate-limit-remaining` header
 * is 0, the exporter waits until five seconds after the instant named by
 * `x-rate-limit-reset` (Unix epoch seconds). The wait is computed in Java
 * `long` milliseconds; one longer than `Integer.MAX_VALUE` is an exception,
 * and only a positive wait sleeps. The caller catches that exception and
 * carries on, so a pause never stops a crawl. The clock is an input.
 */
module RateLimit {
  import opened JavaLang

  const SAFETY_MARGIN_MILLIS: int := 5000

  /** The two rate-limit headers of a response, already parsed as Java numbers. */
  datatype RateHeaders = RateHeaders(remaining: Int32, resetEpochSeconds: Int64)

  /** An HTTP response: its rate-limit headers and its JSON body. */
  datatype Response<B> = Response(headers: RateHeaders, body: B)

  /** What `pauseExecution` does. */
  datatype Pause =
    | Sleep(millis: int)        // Thread.sleep(millis)
    | NoSleep(millis: int)      // the computed wait is not positive: return at once
    | WaitTooLong(millis: int)  // the exception thrown when the wait exceeds Integer.MAX_VALUE

  /** What the gate after a response does. */
  datatype Gate = NotLimited | Paused(pause: Pause)

  /** `(epochDate.getTime() - currentTime.getTime()) + 5000`, each step a `long` operation. */
  function WaitMillis(resetEpochSeconds: Int64, nowMillis: Int64): (w: Int64)
    ensures (w - (resetEpochSeconds * 1000 - nowMillis + SAFETY_MARGIN_MILLIS)) % LONG_MODULUS == 0
  {
    var product := WrapLong(resetEpochSeconds * 1000);
    var difference := WrapLong(product - nowMillis);
    var w := WrapLong(difference + SAFETY_MARGIN_MILLIS);
    CongruentTrans(w, difference + SAFETY_MARGIN_MILLIS, product + SAFETY_MARGIN_MILLIS - nowMillis);
    CongruentTrans(w, product + SAFETY_MARGIN_MILLIS - nowMillis,
                   resetEpochSeconds * 1000 - nowMillis + SAFETY_MARGIN_MILLIS);
    w
  }

  /** Congruence modulo 2^64 is transitive. */
  lemma CongruentTrans(x: int, y: int, z: int)
    requires (x - y) % LONG_MODULUS == 0 && (y - z) % LONG_MODULUS == 0
    ensures (x - z) % LONG_MODULUS == 0
  {
    var a, b := (x - y) / LONG_MODULUS, (y - z) / LONG_MODULUS;
    assert x - y == a * LONG_MODULUS;
    assert y - z == b * LONG_MODULUS;
    assert x - z == (a + b) * LONG_MODULUS;
  }

  /** None of the three `long` operations of the wait overflows. */
  predicate NoOverflow(resetEpochSeconds: Int64, nowMillis: Int64) {
    && LONG_MIN <= resetEpochSeconds * 1000 <= LONG_MAX
    && LONG_MIN <= resetEpochSeconds * 1000 - nowMillis <= LONG_MAX
    && LONG_MIN <= resetEpochSeconds * 1000 - nowMillis + SAFETY_MARGIN_MILLIS <= LONG_MAX
  }

  /** Without overflow, the wait is the exact distance from now to five seconds after the reset. */
  lemma WaitIsDistanceToReset(resetEpochSeconds: Int64, nowMillis: Int64)
    requires NoOverflow(resetEpochSeconds, nowMillis)
    ensures WaitMillis(resetEpochSeconds, nowMillis) == resetEpochSeconds * 1000 - nowMillis + SAFETY_MARGIN_MILLIS
  {
  }

  /**
   * Realistic clocks never overflow: a reset between 1970 and 2^48 seconds
   * (about 8.9 million years) after it, read by a clock not before 1970.
   */
  lemma RealisticClocksDoNotOverflow(resetEpochSeconds: Int64, nowMillis: Int64)
    requires 0 <= resetEpochSeconds <= 0x1_0000_0000_0000 && 0 <= nowMillis
    ensures NoOverflow(resetEpochSeconds, nowMillis)
  {
  }

  /** `pauseExecution(reset)` at clock reading `nowMillis`. */
  function PauseExecution(resetEpochSeconds: Int64, nowMillis: Int64): (p: Pause)
    ensures p.millis == WaitMillis(resetEpochSeconds, nowMillis)
    ensures p.WaitTooLong? <==> p.millis > INT_MAX
    ensures p.Sleep? ==> 0 < p.millis <= INT_MAX
    ensures p.NoSleep? <==> p.millis <= 0
    ensures NoOverflow(resetEpochSeconds, nowMillis) ==>
              (p.Sleep? ==> nowMillis + p.millis == resetEpochSeconds * 1000 + SAFETY_MARGIN_MILLIS)
    ensures NoOverflow(resetEpochSeconds, nowMillis) ==>
              (p.NoSleep? <==> nowMillis >= resetEpochSeconds * 1000 + SAFETY_MARGIN_MILLIS)
  {
    var wait := WaitMillis(resetEpochSeconds, nowMillis);
    if wait > INT_MAX then WaitTooLong(wait)
    else if wait > 0 then Sleep(wait)
    else NoSleep(wait)
  }

  /** The check after a response: pause only when no request is left in the window. */
  function RateLimitGate(headers: RateHeaders, nowMillis: Int64): (g: Gate)
    ensures g.NotLimited? <==> headers.remaining != 0
    ensures g.Paused? ==> g.pause == PauseExecution(headers.resetEpochSeconds, nowMillis)
  {
    if headers.remaining == 0 then Paused(PauseExecution(headers.resetEpochSeconds, nowMillis))
    else NotLimited
  }

  /** How long the calling thread sleeps because of a gate. */
  function SleptMillis(g: Gate): int {
    if g.Paused? && g.pause.Sleep? then g.pause.millis else 0
  }

  /** A response that leaves requests in the window never pauses. */
  lemma RemainingRequestsNeverSleep(headers: RateHeaders, nowMillis: Int64)
    requires headers.remaining > 0
    ensures SleptMillis(RateLimitGate(headers, nowMillis)) == 0
  {
  }

  /** A reset ten seconds from now means a wait of 15000 ms. */
  lemma TenSecondsToReset(resetEpochSeconds: Int64, nowMillis: Int64)
    requires 0 <= nowMillis <= 0x1_0000_0000_0000 && resetEpochSeconds * 1000 == nowMillis + 10_000
    ensures PauseExecution(resetEpochSeconds, nowMillis) == Sleep(15_000)
  {
    WaitIsDistanceToReset(resetEpochSeconds, nowMillis);
  }

  /**
   * A reset ten whole seconds after the current second: the wait is more than
   * 14000 ms and at most 15000 ms, since the clock is already part-way into
   * that second.
   */
  lemma TenSecondsAfterCurrentSecond(nowMillis: Int64)
    requires 0 <= nowMillis <= 0x1_0000_0000_0000
    ensures var reset: Int64 := nowMillis / 1000 + 10;
            var p := PauseExecution(reset, nowMillis);
            p.Sleep? && 14_000 < p.millis <= 15_000
  {
    var reset: Int64 := nowMillis / 1000 + 10;
    RealisticClocksDoNotOverflow(reset, nowMillis);
    WaitIsDistanceToReset(reset, nowMillis);
    assert reset * 1000 == (nowMillis / 1000) * 1000 + 10_000;
  }
}

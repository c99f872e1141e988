/**
 The throughput figure deviceRelease logs when a session ends (mull.c:112-123):
 elapsed whole seconds clamped to at least one, the received byte count turned
 into whole mebibytes clamped to at least one, and their quotient.
 */
module Throughput {

  const MEBIBYTE: nat := 1024 * 1024

  /** `secondsRunning` after the zero guard: the elapsed seconds, or 1 when none elapsed. */
  function Seconds(elapsed: nat): (s: nat)
    ensures s >= 1
    ensures elapsed == 0 ==> s == 1
    ensures elapsed >= 1 ==> s == elapsed
  {
    if elapsed == 0 then 1 else elapsed
  }

  /**
   `bytesRecieved / 1024 / 1024` after the zero guard: the number of whole
   mebibytes received, or 1 when less than one mebibyte was received.
   */
  function Mebibytes(bytes: nat): (m: nat)
    ensures m >= 1
    ensures bytes >= MEBIBYTE ==> m * MEBIBYTE <= bytes < (m + 1) * MEBIBYTE
    ensures bytes < MEBIBYTE ==> m == 1
  {
    var whole := bytes / 1024 / 1024;
    WholeMebibytes(bytes);
    if whole == 0 then 1 else whole
  }

  /** Dividing by 1024 twice is dividing by one mebibyte. */
  lemma WholeMebibytes(bytes: nat)
    ensures bytes / 1024 / 1024 * MEBIBYTE <= bytes < (bytes / 1024 / 1024 + 1) * MEBIBYTE
  {
  }

  /** The speed logged in MiB per second: whole mebibytes over whole seconds, truncated. */
  function Speed(bytes: nat, elapsed: nat): (v: nat)
    ensures v * Seconds(elapsed) <= Mebibytes(bytes) < (v + 1) * Seconds(elapsed)
  {
    Mebibytes(bytes) / Seconds(elapsed)
  }

  /** The logged speed is the largest rate that the received mebibytes sustain over the elapsed seconds. */
  lemma SpeedIsLargestSustainedRate(bytes: nat, elapsed: nat, q: nat)
    ensures q * Seconds(elapsed) <= Mebibytes(bytes) <==> q <= Speed(bytes, elapsed)
  {
    var v, s := Speed(bytes, elapsed), Seconds(elapsed);
    if q <= v {
      MultiplyMonotone(q, v, s);
    } else {
      MultiplyMonotone(v + 1, q, s);
    }
  }

  lemma MultiplyMonotone(a: nat, b: nat, s: nat)
    requires a <= b
    ensures a * s <= b * s
  {
  }

  /** The speed is at least one exactly when the session moved at least one mebibyte per elapsed second. */
  lemma SpeedPositiveIff(bytes: nat, elapsed: nat)
    ensures Speed(bytes, elapsed) >= 1 <==> Mebibytes(bytes) >= Seconds(elapsed)
  {
    SpeedIsLargestSustainedRate(bytes, elapsed, 1);
  }

  /** A session that ends within its first second always reports a positive speed, even with no bytes received. */
  lemma SpeedPositiveWithinOneSecond(bytes: nat, elapsed: nat)
    requires elapsed <= 1
    ensures Speed(bytes, elapsed) == Mebibytes(bytes)
    ensures Speed(bytes, elapsed) >= 1
  {
  }

  /** The clamps rule out a zero divisor and a zero mebibyte count, but not a zero speed. */
  lemma ZeroSpeedWhenSlow()
    ensures Speed(1034, 2) == 0
    ensures Speed(0, 0) == 1
  {
  }
}

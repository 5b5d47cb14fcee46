/** time.Duration arithmetic: 64-bit nanoseconds that wrap. */
module Durations {
  import opened Decimal

  const SECOND := 1_000_000_000

  /** The largest number of whole seconds a Duration can hold. */
  const MAX_SECONDS := 9_223_372_036

  function Wrap64(n: int): (r: int)
    ensures MIN_INT <= r <= MAX_INT
  {
    (n - MIN_INT) % 0x1_0000_0000_0000_0000 + MIN_INT
  }

  /** time.Duration(seconds) * time.Second. */
  function Duration(seconds: int): (d: int)
    ensures MIN_INT <= d <= MAX_INT
  {
    Wrap64(seconds * SECOND)
  }

  /** int64(d.Seconds()): truncated toward zero. */
  function Seconds(d: int): int {
    if d >= 0 then d / SECOND else -((-d) / SECOND)
  }

  /** time.Until saturates. */
  function Until(time: int, now: int): (d: int)
    ensures MIN_INT <= d <= MAX_INT
  {
    if time - now > MAX_INT then MAX_INT else if time - now < MIN_INT then MIN_INT else time - now
  }

  lemma DurationExact(seconds: int)
    requires -MAX_SECONDS <= seconds <= MAX_SECONDS
    ensures Duration(seconds) == seconds * SECOND && Seconds(Duration(seconds)) == seconds
  {
  }

  /** Converting seconds to a Duration and back is the identity exactly on the representable seconds. */
  lemma SecondsRoundTrip(seconds: int)
    ensures Seconds(Duration(seconds)) == seconds <==> -MAX_SECONDS <= seconds <= MAX_SECONDS
  {
    if -MAX_SECONDS <= seconds <= MAX_SECONDS {
      DurationExact(seconds);
    } else {
      var d := Duration(seconds);
      assert -MAX_SECONDS <= Seconds(d) <= MAX_SECONDS;
    }
  }
}

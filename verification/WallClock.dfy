/** A system clock read in whole seconds or in microseconds and set in whole seconds,
    without drift: its reading is real time plus an offset. Times are microseconds. */
module WallClock {

  const SECOND: int := 1_000_000

  /** Integer division of C, towards zero. */
  function TruncDiv(a: int, b: int): int
    requires b > 0
  {
    if a >= 0 then a / b else -(-a / b)
  }

  /** `time(NULL)` of a clock that reads this many microseconds. */
  function Seconds(reading: int): (s: int)
    ensures s * SECOND <= reading < (s + 1) * SECOND
  {
    reading / SECOND
  }

  /** The offset after setting the seconds and keeping the microseconds. */
  function OffsetAfterSet(offset: int, now: int, seconds: int): (r: int)
    ensures seconds * SECOND <= now + r < (seconds + 1) * SECOND
    ensures (now + r) % SECOND == (now + offset) % SECOND
  {
    seconds * SECOND + (now + offset) % SECOND - now
  }

  class Clock {
    var offset: int

    function Reading(now: int): int
      reads this
    {
      now + offset
    }

    /** `gettimeofday`, then `settimeofday` with new seconds and the old microseconds. */
    method SetSeconds(now: int, seconds: int)
      modifies this
      ensures Reading(now) / SECOND == seconds
      ensures Reading(now) % SECOND == old(Reading(now)) % SECOND
      ensures offset == OffsetAfterSet(old(offset), now, seconds)
    {
      var usec := Reading(now) % SECOND;
      offset := seconds * SECOND + usec - now;
    }
  }
}

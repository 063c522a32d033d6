/** The `DateTime` helper class: conversion between epoch milliseconds and a
    UTC date-time. A date-time is modelled as whole seconds since the Unix
    epoch, which is all that `utcfromtimestamp` keeps of `ms // 1000`. */
module DateTime {

  /** A UTC date-time with whole-second resolution. */
  datatype UtcDateTime = UtcDateTime(epochSeconds: int)

  /** `fromMillis`: Python's `ms // 1000` floors, and so does Dafny's `/` by a
      positive divisor, so negative milliseconds round towards the past. */
  function FromMillis(ms: int): (dt: UtcDateTime)
    ensures dt.epochSeconds * 1000 <= ms < dt.epochSeconds * 1000 + 1000
  {
    UtcDateTime(ms / 1000)
  }

  /** `toMillis`: `timegm` of the time tuple, times 1000. */
  function ToMillis(dt: UtcDateTime): (ms: int)
    ensures ms % 1000 == 0
    ensures ms / 1000 == dt.epochSeconds
  {
    dt.epochSeconds * 1000
  }

  /** Converting back and forth truncates to whole seconds: the result is the
      largest multiple of 1000 not above `ms`. */
  lemma MillisRoundTrip(ms: int)
    ensures ToMillis(FromMillis(ms)) == ms - ms % 1000
    ensures ToMillis(FromMillis(ms)) <= ms < ToMillis(FromMillis(ms)) + 1000
  {
  }

  /** A date-time survives the trip through milliseconds unchanged. */
  lemma DateTimeRoundTrip(dt: UtcDateTime)
    ensures FromMillis(ToMillis(dt)) == dt
  {
  }

  /** A whole-second value, such as the one the tests use, round-trips exactly. */
  lemma WholeSecondMillisRoundTrip(ms: int)
    requires ms % 1000 == 0
    ensures ToMillis(FromMillis(ms)) == ms
  {
    MillisRoundTrip(ms);
  }

  lemma TestTimestampRoundTrip()
    ensures ToMillis(FromMillis(1464586777000)) == 1464586777000
  {
    WholeSecondMillisRoundTrip(1464586777000);
  }
}

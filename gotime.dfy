// The part of Go's time.Time that the tar header uses: an instant as whole
// Unix seconds plus a nanosecond offset, and the zero Time that marks a field
// as unset. Time zones and monotonic clock readings play no part here.
module GoTime {
  import opened GoTypes
  import opened Wrappers

  const NanosPerSecond: int := 1_000_000_000

  /** t.Nanosecond(): the offset within the second, always in [0, 1e9). */
  type Nanos = n: int | 0 <= n < 1_000_000_000

  /** A set time: t.Unix() and t.Nanosecond(). */
  datatype Instant = Instant(secs: Int64, nanos: Nanos)

  /** A Go time.Time; None is the zero value time.Time{}. */
  type Time = Option<Instant>

  /** (time.Time{}).Unix(): January 1 of year 1, 00:00:00 UTC. */
  const ZeroUnixSecs: int := -62135596800

  /** t.IsZero(): the zero value, or a time constructed to fall exactly on it. */
  predicate IsZero(t: Time)
  {
    t.None? || t.value == Instant(ZeroUnixSecs, 0)
  }

  /** time.Unix(sec, nsec) for |nsec| < 1e9: a negative nanosecond count
      borrows one second. Go's seconds counter is an int64 and wraps. */
  function UnixTime(sec: Int64, nsec: int): (t: Instant)
    requires -NanosPerSecond < nsec < NanosPerSecond
  {
    if nsec < 0 then Instant(Wrap64(sec - 1), nsec + NanosPerSecond) else Instant(sec, nsec)
  }

  /** Unless the seconds counter wraps, time.Unix(sec, nsec) is the instant
      sec seconds plus nsec nanoseconds after the epoch. */
  lemma UnixTimeValue(sec: Int64, nsec: int)
    requires -NanosPerSecond < nsec < NanosPerSecond
    ensures var t := UnixTime(sec, nsec);
      MinInt64 < sec || 0 <= nsec ==>
        t.secs as int * NanosPerSecond + t.nanos == sec as int * NanosPerSecond + nsec
  {
  }
}

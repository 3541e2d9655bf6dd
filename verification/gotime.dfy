/**
  Go's time.Time and time.Duration, reduced to integers.

  An instant is the number of nanoseconds since Go's zero time (January 1,
  year 1, 00:00:00 UTC), so the zero value of time.Time is 0. A Duration is a
  number of nanoseconds. The 64-bit width of both is not modelled.
 */
module GoTime {

  type Time = int
  type Duration = int

  const Second: Duration := 1_000_000_000
  const Minute: Duration := 60 * Second
  const Hour: Duration := 60 * Minute
  const SecondsPerDay := 86400

  /** The zero time.Time; IsZero() holds exactly of it. */
  const ZeroTime: Time := 0

  /** 1970-01-01 00:00:00 UTC, which lies 719162 days after the zero time. */
  const UnixEpoch: Time := 719162 * SecondsPerDay * Second

  /** January 1 of year 0 (a leap year) and of year 10000. */
  const YearZero: Time := -366 * SecondsPerDay * Second
  const YearTenThousand: Time := 3652059 * SecondsPerDay * Second

  predicate IsZero(t: Time) {
    t == ZeroTime
  }

  /** Go's integer `/`: division truncated toward zero. */
  function Quo(a: int, b: int): (q: int)
    requires b > 0
    ensures a >= 0 ==> 0 <= q
    ensures a <= 0 ==> q <= 0
  {
    if a >= 0 then a / b else -((-a) / b)
  }

  /** t.Unix(): whole seconds since the Unix epoch, rounded down. */
  function Unix(t: Time): (sec: int)
    ensures sec * Second <= t - UnixEpoch < (sec + 1) * Second
  {
    (t - UnixEpoch) / Second
  }

  /** time.Unix(sec, 0): the instant `sec` whole seconds after the Unix epoch. */
  function FromUnix(sec: int): (t: Time)
    ensures Unix(t) == sec
  {
    UnixEpoch + sec * Second
  }

  /** Instants whose year is 0 through 9999: the ones encoding/json can write and read (RFC 3339). */
  predicate JsonTime(t: Time) {
    YearZero <= t < YearTenThousand
  }
}

/**
  Wall-clock values of the session table. A date ("%Y-%m-%d") is a day number and a
  time ("%H:%M:%S") is a number of seconds since midnight. The strings are zero-padded,
  so the table's lexicographic ORDER BY agrees with the numeric order used here.
 */
module TimeOfDay {

  /** A time of day, 00:00:00 .. 23:59:59, in seconds. */
  type Secs = s: int | 0 <= s < 86400

  /** "00:00:00" */
  const Midnight: Secs := 0

  /** "23:59:59" */
  const LastSecond: Secs := 86399

  /** The moment a line is processed (now_dt), split into its calendar day and time of day. */
  datatype Instant = Instant(day: int, secs: Secs)

  /**
    secs_between: the seconds from `a` to `b` within one day, never negative.
    A time before `a` gives 0, so the result always lies in [0, 86399].
   */
  function SecsBetween(a: Secs, b: Secs): (r: int)
    ensures 0 <= r <= LastSecond
    ensures a <= b ==> a + r == b
    ensures b < a ==> r == 0
  {
    if b < a then 0 else b - a
  }

  /** A whole day as split_if_needed books it: 00:00:00 to 23:59:59 is 86399 seconds, not 86400. */
  lemma FullDayIs86399()
    ensures SecsBetween(Midnight, LastSecond) == 86399
  {
  }
}

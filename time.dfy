/**
 * The part of `java.time.Instant` the ping schedule relies on: an instant is
 * a count of epoch seconds plus a nanosecond adjustment, it is confined to
 * the range -1000000000-01-01T00:00:00Z .. 1000000000-12-31T23:59:59.999999999Z,
 * it is ordered by (seconds, nanos), and `Instant.ofEpochSecond` throws a
 * `DateTimeException` for a second outside that range.
 */
module Time {
  import opened KotlinLong

  /** `Instant.MIN.epochSecond` and `Instant.MAX.epochSecond`. */
  const MinSecond: int := -31557014167219200
  const MaxSecond: int := 31556889864403199
  const NanosPerSecond: int := 1_000_000_000

  datatype Instant = Instant(epochSecond: int, nano: int) {
    /** Every `Instant` object satisfies this. */
    predicate Valid() {
      MinSecond <= epochSecond <= MaxSecond && 0 <= nano < NanosPerSecond
    }

    /** `this.isBefore(other)`, which is also `this < other` in Kotlin. */
    predicate IsBefore(other: Instant) {
      epochSecond < other.epochSecond || (epochSecond == other.epochSecond && nano < other.nano)
    }
  }

  /** The outcome of a call that may throw `DateTimeException`. */
  datatype Result<T> = Ok(value: T) | DateTimeException

  /** `Instant.ofEpochSecond(sec)`: a whole second, or an exception when it lies outside the range. */
  function OfEpochSecond(sec: Long): (r: Result<Instant>)
    ensures r.Ok? <==> MinSecond <= sec <= MaxSecond
    ensures r.Ok? ==> r.value.Valid() && r.value.epochSecond == sec && r.value.nano == 0
  {
    if MinSecond <= sec <= MaxSecond then Ok(Instant(sec, 0)) else DateTimeException
  }
}

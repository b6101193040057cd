/**
 * Wall-clock thresholds of the trading day, compared as `(hour, minute)` tuples.
 */
module Clock {

  /** A wall-clock reading, as the `(now.hour, now.minute)` pair the engine compares. */
  datatype Time = Time(hour: nat, minute: nat)

  predicate WellFormed(t: Time) {
    t.hour < 24 && t.minute < 60
  }

  const T1000 := Time(10, 0)
  const T1530 := Time(15, 30)
  const T1545 := Time(15, 45)

  function MinuteOfDay(t: Time): nat {
    t.hour * 60 + t.minute
  }

  /** `time_ge(t)`: the lexicographic tuple comparison `(hour, minute) >= t`. */
  predicate TimeGe(now: Time, t: Time) {
    now.hour > t.hour || (now.hour == t.hour && now.minute >= t.minute)
  }

  /** On well-formed readings the tuple comparison is the comparison of minutes since midnight. */
  lemma TimeGeIsMinuteOrder(now: Time, t: Time)
    requires WellFormed(now) && WellFormed(t)
    ensures TimeGe(now, t) <==> MinuteOfDay(now) >= MinuteOfDay(t)
  {
    if now.hour > t.hour {
      assert now.hour * 60 >= t.hour * 60 + 60;
    } else if now.hour < t.hour {
      assert t.hour * 60 >= now.hour * 60 + 60;
    }
  }

  /** Once a threshold is reached, every later reading of the same day has reached it too. */
  lemma TimeGeMonotone(earlier: Time, later: Time, t: Time)
    requires TimeGe(later, earlier) && TimeGe(earlier, t)
    ensures TimeGe(later, t)
  {
  }

  /** The three snapshot thresholds are reached in the order 10:00, 15:30, 15:45. */
  lemma ThresholdsOrdered(now: Time)
    ensures TimeGe(now, T1545) ==> TimeGe(now, T1530)
    ensures TimeGe(now, T1530) ==> TimeGe(now, T1000)
  {
  }
}

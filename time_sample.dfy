/** The clock source: one wall-clock reading, taken fresh at every repaint.
    The program reads it from the host clock; here it is a plain value that
    the callers pass in. */
module TimeSample {

  /** A reading as the host's local time reports it: hour, minute and second. */
  datatype Time = Time(hour: int, minute: int, second: int)

  /** The ranges a local-time reading always lies in. */
  predicate Valid(t: Time) {
    0 <= t.hour < 24 && 0 <= t.minute < 60 && 0 <= t.second < 60
  }

  /** The number of seconds since midnight, the reading's position in the day. */
  function SecondOfDay(t: Time): int {
    3600 * t.hour + 60 * t.minute + t.second
  }

  /** The hour on the 12-hour dial, `hour % 12` as Java computes it on `int`:
      the quotient is truncated toward zero, so the remainder carries the sign
      of the hour (unlike Dafny's `%`, which is never negative). */
  function DialHour(t: Time): (r: int)
    ensures t.hour >= 0 ==> 0 <= r < 12
    ensures t.hour <= 0 ==> -12 < r <= 0
    ensures (t.hour - r) % 12 == 0
  {
    if t.hour < 0 then -((-t.hour) % 12) else t.hour % 12
  }

  /** The reading one second later, wrapping at midnight: the next sample the
      one-second repaint takes when it fires on time. */
  function Advance(t: Time): (r: Time)
    requires Valid(t)
    ensures Valid(r)
  {
    if t.second < 59 then Time(t.hour, t.minute, t.second + 1)
    else if t.minute < 59 then Time(t.hour, t.minute + 1, 0)
    else if t.hour < 23 then Time(t.hour + 1, 0, 0)
    else Time(0, 0, 0)
  }

  /** One second later is one more second of the day, wrapping to 0 after
      23:59:59. */
  lemma AdvanceCountsSecond(t: Time)
    requires Valid(t)
    ensures SecondOfDay(Advance(t)) ==
      if SecondOfDay(t) == 86399 then 0 else SecondOfDay(t) + 1
  {
    assert t.second < 59 || t.minute < 59 || t.hour < 23 <==> SecondOfDay(t) < 86399;
  }

  /** The reading after `n` firings of the one-second repaint timer, each on
      time: `n` seconds later in the day. */
  function AfterTicks(t: Time, n: nat): (r: Time)
    requires Valid(t)
    ensures Valid(r)
    decreases n
  {
    if n == 0 then t else Advance(AfterTicks(t, n - 1))
  }

  /** After `n` ticks the reading is `n` seconds later in the day. */
  lemma {:induction false} TicksCountSeconds(t: Time, n: nat)
    requires Valid(t)
    ensures SecondOfDay(AfterTicks(t, n)) == (SecondOfDay(t) + n) % 86400
    decreases n
  {
    if n > 0 {
      TicksCountSeconds(t, n - 1);
      CountStep(t, n);
    }
  }

  /** A proof step for TicksCountSeconds: one more tick, from the count after
      `n - 1` ticks to the count after `n`. */
  lemma CountStep(t: Time, n: nat)
    requires Valid(t) && n > 0
    requires SecondOfDay(AfterTicks(t, n - 1)) == (SecondOfDay(t) + (n - 1)) % 86400
    ensures SecondOfDay(AfterTicks(t, n)) == (SecondOfDay(t) + n) % 86400
  {
    var before := AfterTicks(t, n - 1);
    assert AfterTicks(t, n) == Advance(before);
    AdvanceCountsSecond(before);
    DaySecondStep(SecondOfDay(t) + (n - 1), SecondOfDay(before));
  }

  /** Ticking `a` times and then `b` times is ticking `a + b` times: the
      sequence of samples does not depend on where one starts counting. */
  lemma {:induction false} TicksCompose(t: Time, a: nat, b: nat)
    requires Valid(t)
    ensures AfterTicks(AfterTicks(t, a), b) == AfterTicks(t, a + b)
    decreases b
  {
    if b > 0 {
      TicksCompose(t, a, b - 1);
      ComposeStep(t, a, b);
    }
  }

  /** A proof step for TicksCompose: the inductive case, kept apart so that
      only one unfolding of AfterTicks is in view. */
  lemma ComposeStep(t: Time, a: nat, b: nat)
    requires Valid(t) && b > 0
    requires AfterTicks(AfterTicks(t, a), b - 1) == AfterTicks(t, a + (b - 1))
    ensures AfterTicks(AfterTicks(t, a), b) == AfterTicks(t, a + b)
  {
  }

  /** A proof step for CountStep: one more second of the day, modulo 86400. */
  lemma DaySecondStep(x: int, y: int)
    requires y == x % 86400
    ensures (if y == 86399 then 0 else y + 1) == (x + 1) % 86400
  {
  }
}

/** The angular mapping: a wall-clock reading becomes three hand angles, in
    degrees, measured clockwise from the 12 o'clock direction. The program
    computes them in `double`; here they are exact reals. */
module HandAngles {
  import opened TimeSample

  /** The second hand: 6 degrees per second (a full turn in 60 seconds). */
  function SecondAngle(t: Time): (r: real)
    ensures 0 <= t.second < 60 <==> 0.0 <= r < 360.0
    ensures (r / 6.0).Floor == t.second
  {
    (t.second * 6) as real
  }

  /** The minute hand: 6 degrees per minute, plus a sixtieth of the second
      hand's angle, so that it creeps forward as the seconds pass. */
  function MinuteAngle(t: Time): (r: real)
    ensures 0 <= t.second < 60 ==> (6 * t.minute) as real <= r < (6 * t.minute + 6) as real
    ensures Valid(t) ==> 0.0 <= r < 360.0
  {
    (t.minute * 6) as real + SecondAngle(t) / 60.0
  }

  /** The hour hand: 30 degrees per hour of the 12-hour dial, plus a twelfth
      of the minute hand's angle. */
  function HourAngle(t: Time): (r: real)
    ensures 0 <= t.minute < 60 && 0 <= t.second < 60 ==>
      (30 * DialHour(t)) as real <= r < (30 * DialHour(t) + 30) as real
    ensures Valid(t) ==> 0.0 <= r < 360.0
  {
    (DialHour(t) * 30) as real + MinuteAngle(t) / 12.0
  }

  /** The three angles of one reading. */
  datatype Angles = Angles(hour: real, minute: real, second: real)

  function AnglesOf(t: Time): (r: Angles)
    ensures Valid(t) ==>
      0.0 <= r.hour < 360.0 && 0.0 <= r.minute < 360.0 && 0.0 <= r.second < 360.0
  {
    Angles(HourAngle(t), MinuteAngle(t), SecondAngle(t))
  }

  /** Reading a dial the way a person does: the hour is the 30-degree sector
      the hour hand is in, the minute the 6-degree sector of the minute hand,
      the second the 6-degree sector of the second hand. */
  function ReadClock(a: Angles): Time {
    Time((a.hour / 30.0).Floor, (a.minute / 6.0).Floor, (a.second / 6.0).Floor)
  }

  /** The hour hand's angle in 1/120 of a degree: the seconds elapsed since
      the hour hand last pointed at 12. */
  function SecondsPastTwelve(t: Time): int {
    3600 * DialHour(t) + 60 * t.minute + t.second
  }

  /** The dial shows every reading unambiguously: reading the three hands
      gives back the reading, on the 12-hour dial. */
  lemma ReadClockInvertsAngles(t: Time)
    requires Valid(t)
    ensures ReadClock(AnglesOf(t)) == Time(DialHour(t), t.minute, t.second)
  {
  }

  /** The minute hand is ahead of the whole minutes by exactly a sixtieth of
      the second hand, which is less than one minute's 6 degrees. */
  lemma MinuteLeadsBySecondSixtieth(t: Time)
    requires 0 <= t.second < 60
    ensures MinuteAngle(t) - (6 * t.minute) as real == SecondAngle(t) / 60.0
    ensures 0.0 <= SecondAngle(t) / 60.0 < 6.0
  {
  }

  /** The hour hand is ahead of the whole dial hours by exactly a twelfth of
      the minute hand, which is less than one hour's 30 degrees. */
  lemma HourLeadsByMinuteTwelfth(t: Time)
    requires 0 <= t.minute < 60 && 0 <= t.second < 60
    ensures HourAngle(t) - (30 * DialHour(t)) as real == MinuteAngle(t) / 12.0
    ensures 0.0 <= MinuteAngle(t) / 12.0 < 30.0
  {
  }

  /** Each angle counts seconds along its hand's turn: the hour hand 120 per
      degree since 12 o'clock, the minute hand 10 per degree since the hour,
      the second hand one per 6 degrees since the minute. */
  lemma AnglesCountSeconds(t: Time)
    ensures HourAngle(t) == SecondsPastTwelve(t) as real / 120.0
    ensures MinuteAngle(t) == (60 * t.minute + t.second) as real / 10.0
    ensures SecondAngle(t) == (6 * t.second) as real
  {
  }

  /** Second endpoints: 0 degrees at second 0 and 354 degrees at second 59. */
  lemma SecondAngleEndpoints(h: int, m: int)
    ensures SecondAngle(Time(h, m, 0)) == 0.0
    ensures SecondAngle(Time(h, m, 59)) == 354.0
  {
  }

  /** Within one minute, both the second and the minute hand move strictly
      forward as the seconds grow. */
  lemma IncreasingInSecond(h: int, m: int, s1: int, s2: int)
    requires s1 < s2
    ensures SecondAngle(Time(h, m, s1)) < SecondAngle(Time(h, m, s2))
    ensures MinuteAngle(Time(h, m, s1)) < MinuteAngle(Time(h, m, s2))
  {
  }

  /** Within one hour, the hour hand moves strictly forward in the order of
      (minute, second), compared lexicographically. */
  lemma HourIncreasingInMinuteSecond(h: int, m1: int, s1: int, m2: int, s2: int)
    requires 0 <= s1 < 60 && 0 <= s2 < 60
    requires m1 < m2 || (m1 == m2 && s1 < s2)
    ensures HourAngle(Time(h, m1, s1)) < HourAngle(Time(h, m2, s2))
  {
  }

  /** Over a whole 12-hour turn the hour hand is ordered as the readings are:
      one reading's hour hand is behind another's exactly when it lies earlier
      in its half of the day. */
  lemma HourOrderIsTimeOrder(t1: Time, t2: Time)
    requires Valid(t1) && Valid(t2)
    ensures HourAngle(t1) < HourAngle(t2) <==> SecondOfDay(t1) % 43200 < SecondOfDay(t2) % 43200
  {
    DialPosition(t1);
    DialPosition(t2);
    AnglesCountSeconds(t1);
    AnglesCountSeconds(t2);
  }

  /** The hour hand alone tells the reading apart on the 12-hour dial. */
  lemma HourHandDeterminesReading(t1: Time, t2: Time)
    requires Valid(t1) && Valid(t2)
    requires HourAngle(t1) == HourAngle(t2)
    ensures DialHour(t1) == DialHour(t2) && t1.minute == t2.minute && t1.second == t2.second
  {
  }

  /** The hour hand depends on the hour only through `hour % 12`, so a
      reading and the one twelve hours later show the same dial. */
  lemma TwelveHourSymmetry(h: int, m: int, s: int)
    requires h >= 0
    ensures AnglesOf(Time(h + 12, m, s)) == AnglesOf(Time(h, m, s))
  {
  }

  /** All three hands point straight up exactly at 12 o'clock on the dial,
      that is at 0:00:00 and at 12:00:00. */
  lemma AllUpExactlyAtTwelve(t: Time)
    requires Valid(t)
    ensures AnglesOf(t) == Angles(0.0, 0.0, 0.0) <==>
      (t.hour == 0 || t.hour == 12) && t.minute == 0 && t.second == 0
  {
  }

  /** The minute formula carried to second 60 lands where the next minute
      starts: the minute hand does not jump at the minute boundary. */
  lemma MinuteContinuity(h: int, m: int)
    ensures MinuteAngle(Time(h, m, 60)) == MinuteAngle(Time(h, m + 1, 0))
  {
  }

  /** The hour formula carried to minute 60 lands where the next hour starts;
      past 11 on the dial it lands one full turn ahead of the 12 position. */
  lemma HourContinuity(h: int)
    requires h >= 0
    ensures HourAngle(Time(h, 60, 0)) ==
      HourAngle(Time(h + 1, 0, 0)) + (if h % 12 == 11 then 360.0 else 0.0)
  {
  }

  /** What the display does from one second's sample to the next: the second
      hand moves 6 degrees, the minute hand a tenth of a degree and the hour
      hand 1/120 of a degree, each falling back to 0 where it completes its
      turn. */
  lemma OneSecondLater(t: Time)
    requires Valid(t)
    ensures SecondAngle(Advance(t)) ==
      if t.second == 59 then 0.0 else SecondAngle(t) + 6.0
    ensures MinuteAngle(Advance(t)) ==
      if t.minute == 59 && t.second == 59 then 0.0 else MinuteAngle(t) + 0.1
    ensures HourAngle(Advance(t)) ==
      if DialHour(t) == 11 && t.minute == 59 && t.second == 59 then 0.0
      else HourAngle(t) + 1.0 / 120.0
  {
  }

  /** After `n` one-second repaints the hands show the time `n` seconds
      later: the hour hand turns once per 43200 seconds, the minute hand once
      per 3600 and the second hand once per 60. */
  lemma HandsAfterTicks(t: Time, n: nat)
    requires Valid(t)
    ensures HourAngle(AfterTicks(t, n)) == ((SecondOfDay(t) + n) % 43200) as real / 120.0
    ensures MinuteAngle(AfterTicks(t, n)) == ((SecondOfDay(t) + n) % 3600) as real / 10.0
    ensures SecondAngle(AfterTicks(t, n)) == (6 * ((SecondOfDay(t) + n) % 60)) as real
  {
    var r, x := AfterTicks(t, n), SecondOfDay(t) + n;
    TicksCountSeconds(t, n);
    DialPosition(r);
    NestedPeriods(x);
    AnglesFromCounts(r, SecondsPastTwelve(r), 60 * r.minute + r.second, x % 43200, x % 3600, x % 60);
  }

  /** A proof step for HandsAfterTicks: AnglesCountSeconds, with the counts
      given as plain numbers so that the caller's solver work stays small. */
  lemma AnglesFromCounts(t: Time, past12: int, pastHour: int, a: int, b: int, c: int)
    requires past12 == SecondsPastTwelve(t) && pastHour == 60 * t.minute + t.second
    requires past12 == a && pastHour == b && t.second == c
    ensures HourAngle(t) == a as real / 120.0
    ensures MinuteAngle(t) == b as real / 10.0
    ensures SecondAngle(t) == (6 * c) as real
  {
    AnglesCountSeconds(t);
  }

  /** Where a reading lies in each hand's period, counted in seconds. */
  lemma DialPosition(t: Time)
    requires Valid(t)
    ensures SecondsPastTwelve(t) == SecondOfDay(t) % 43200
    ensures 60 * t.minute + t.second == SecondOfDay(t) % 3600
    ensures t.second == SecondOfDay(t) % 60
  {
    var d := 60 * t.minute + t.second;
    assert 0 <= d < 3600;
    if t.hour < 12 {
      assert SecondOfDay(t) == 3600 * DialHour(t) + d;
    } else {
      assert SecondOfDay(t) == 43200 + 3600 * DialHour(t) + d;
    }
  }

  /** A day holds a whole number of each hand's periods. */
  lemma NestedPeriods(x: int)
    ensures (x % 86400) % 43200 == x % 43200
    ensures (x % 86400) % 3600 == x % 3600
    ensures (x % 86400) % 60 == x % 60
  {
    var q, r := x / 86400, x % 86400;
    assert x == 86400 * q + r;
    ModOfShift(x, 43200, 2 * q, r);
    ModOfShift(x, 3600, 24 * q, r);
    ModOfShift(x, 60, 1440 * q, r);
  }

  /** Adding a multiple of the period leaves the remainder unchanged. */
  lemma ModOfShift(x: int, p: int, k: int, r: int)
    requires p > 0 && x == p * k + r
    ensures x % p == r % p
  {
    var q2, r2 := r / p, r % p;
    assert r == p * q2 + r2 && 0 <= r2 < p;
    assert x == p * (k + q2) + r2 by {
      assert p * (k + q2) == p * k + p * q2;
    }
    ModUnique(x, p, k + q2, r2);
  }

  lemma ModUnique(x: int, p: int, q: int, r: int)
    requires p > 0 && 0 <= r < p && x == p * q + r
    ensures x % p == r
  {
    var q1, r1 := x / p, x % p;
    assert x == p * q1 + r1 && 0 <= r1 < p;
    assert p * (q - q1) == r1 - r by {
      assert p * (q - q1) == p * q - p * q1;
    }
    if q > q1 {
      LeastMultiple(p, q - q1);
    } else if q < q1 {
      assert p * (q1 - q) == -(p * (q - q1));
      LeastMultiple(p, q1 - q);
    }
  }

  lemma LeastMultiple(p: int, n: int)
    requires p > 0 && n > 0
    ensures p * n >= p
  {
    assert p * n == p * (n - 1) + p;
    if n > 1 {
      assert p * (n - 1) >= 0 by { LeastMultiple(p, n - 1); }
    }
  }

  /** Readings worked out by hand for the reference dial. */
  lemma ReferenceReadings()
    ensures AnglesOf(Time(0, 0, 0)) == Angles(0.0, 0.0, 0.0)
    ensures AnglesOf(Time(3, 0, 0)) == Angles(90.0, 0.0, 0.0)
    ensures AnglesOf(Time(6, 30, 0)) == Angles(195.0, 180.0, 0.0)
    ensures AnglesOf(Time(9, 0, 30)) == Angles(270.25, 3.0, 180.0)
    ensures AnglesOf(Time(12, 0, 15)) == Angles(0.125, 1.5, 90.0)
    ensures AnglesOf(Time(11, 59, 59)) == Angles(43199.0 / 120.0, 359.9, 354.0)
  {
  }
}

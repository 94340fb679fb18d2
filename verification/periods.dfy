/** Class periods: the fixed table of the wall-clock time at which each
    period ends, the start-hour label shown in the schedule, and the
    combination of a day with a time of day into one instant. */
module Periods {
  import opened Common
  import opened Text

  /** A time of day, as Python's `datetime.time(hour, minute)`. */
  datatype Clock = Clock(hour: int, minute: int)

  /** The arguments `datetime.time` accepts without raising. */
  predicate ValidClock(c: Clock) {
    0 <= c.hour < 24 && 0 <= c.minute < 60
  }

  function MinuteOfDay(c: Clock): int {
    c.hour * 60 + c.minute
  }

  /** End of day, used for any period the table does not know. */
  const FallbackEndTime: Clock := Clock(23, 59)

  const PeriodEndTimes: map<int, Clock> := map[
    1 := Clock(8, 0), 2 := Clock(9, 0), 3 := Clock(10, 0), 4 := Clock(11, 0),
    5 := Clock(14, 0), 6 := Clock(15, 0), 7 := Clock(16, 0), 8 := Clock(17, 0),
    9 := Clock(18, 25), 10 := Clock(19, 25), 11 := Clock(20, 25), 12 := Clock(21, 25)
  ]

  /** `PERIOD_END_TIMES.get(p, (23, 59))`: morning periods end on the hour
      8..11, afternoon periods on the hour 14..17, evening periods at
      twenty-five past 18..21; anything else falls back to 23:59. */
  function PeriodEndTime(p: int): (c: Clock)
    ensures ValidClock(c)
    ensures 1 <= p <= 4 ==> c == Clock(p + 7, 0)
    ensures 5 <= p <= 8 ==> c == Clock(p + 9, 0)
    ensures 9 <= p <= 12 ==> c == Clock(p + 9, 25)
    ensures !(1 <= p <= 12) ==> c == FallbackEndTime
  {
    if p in PeriodEndTimes then PeriodEndTimes[p] else FallbackEndTime
  }

  /** Known periods end strictly later the later they are in the day. */
  lemma EndTimesIncrease(p: int, q: int)
    requires 1 <= p < q <= 12
    ensures MinuteOfDay(PeriodEndTime(p)) < MinuteOfDay(PeriodEndTime(q))
  {
  }

  /** The fallback is conservative: no period ends later than an unknown one. */
  lemma FallbackIsLatest(p: int, q: int)
    requires !(1 <= q <= 12)
    ensures MinuteOfDay(PeriodEndTime(p)) <= MinuteOfDay(PeriodEndTime(q))
  {
  }

  /** The hour `format_period` prints. Its two branches, 7 + (p - 1) for
      p <= 6 and 13 + (p - 7) otherwise, are the same formula. */
  function PeriodStartHour(p: int): (h: int)
    ensures h == p + 6
  {
    if p <= 6 then 7 + (p - 1) else 13 + (p - 7)
  }

  lemma StartHourIncreases(p: int, q: int)
    requires p < q
    ensures PeriodStartHour(p) < PeriodStartHour(q)
  {
  }

  /** `format_period(p)`: the start hour followed by "h00", e.g. "8h00". */
  function FormatPeriod(p: int): (text: string)
    ensures |text| > 3 && text[|text| - 3..] == "h00"
    ensures ParseInt(text[..|text| - 3]) == Some(p + 6)
  {
    var digits := IntToString(PeriodStartHour(p));
    ParseIntToString(PeriodStartHour(p));
    assert (digits + "h00")[..|digits|] == digits;
    digits + "h00"
  }

  /** Different periods get different labels. */
  lemma FormatPeriodInjective(p: int, q: int)
    ensures FormatPeriod(p) == FormatPeriod(q) <==> p == q
  {
  }

  /** The range label shows `format_period(end + 1)` as the end of a
      session; that hour is the table's end time for period `end` only for
      the morning periods 1..4. */
  lemma EndLabelMatchesTableOnlyInMorning(p: int)
    ensures (PeriodStartHour(p + 1) == PeriodEndTime(p).hour && PeriodEndTime(p).minute == 0)
        <==> 1 <= p <= 4
  {
  }

  const MicrosPerMinute: int := 60_000_000
  const MicrosPerHour: int := 60 * MicrosPerMinute
  const MicrosPerDay: int := 24 * MicrosPerHour

  /** `datetime.combine(day, time(hour, minute))`, with the day counted in
      days and the instant in microseconds from the same origin. */
  function Combine(day: int, c: Clock): (t: int)
    requires ValidClock(c)
    ensures day * MicrosPerDay <= t < (day + 1) * MicrosPerDay
    ensures t - day * MicrosPerDay == MinuteOfDay(c) * MicrosPerMinute
  {
    day * MicrosPerDay + c.hour * MicrosPerHour + c.minute * MicrosPerMinute
  }

  /** The instant an event held on `day` that ends with period `endPeriod` is over. */
  function EventEndInstant(day: int, endPeriod: int): (t: int)
    ensures day * MicrosPerDay <= t < (day + 1) * MicrosPerDay
  {
    Combine(day, PeriodEndTime(endPeriod))
  }
}

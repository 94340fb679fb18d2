/** Worked examples of the events page on concrete data. Day 19792 is
    2024-03-10 counted from 1970-01-01. */
module Scenarios {
  import opened Common
  import opened Text
  import opened Periods
  import opened Domain
  import opened EventViews

  const Day: int := 19792

  function SampleEvent(endPeriod: int, maxUserJoined: int, ps: seq<Participant>): Event {
    Event(1, "Robotics", None, Day, 1, endPeriod, maxUserJoined, 0, "upcoming", false, ps)
  }

  function At(hour: int, minute: int): int {
    Day * MicrosPerDay + hour * MicrosPerHour + minute * MicrosPerMinute
  }

  /** Before period 1 ends, with nobody joined. */
  lemma EmptyEventBeforeItEnds(dayLabel: int -> string)
    ensures var v := BuildView(SampleEvent(1, 30, []), 7, At(7, 0), dayLabel);
      !v.isEnded && !v.isFull && v.instructors == "---" && v.tas == "---" && !v.isJoined
  {
  }

  /** Period 1 ends at 8:00: at 8:00 exactly the session is not over, a
      microsecond later it is. */
  lemma EndIsStrict(dayLabel: int -> string)
    ensures !BuildView(SampleEvent(1, 30, []), 7, At(8, 0), dayLabel).isEnded
    ensures BuildView(SampleEvent(1, 30, []), 7, At(8, 0) + 1, dayLabel).isEnded
    ensures BuildView(SampleEvent(1, 30, []), 7, At(9, 0), dayLabel).isEnded
  {
  }

  /** The viewer's own instructor row. */
  lemma ViewerIsInstructor(dayLabel: int -> string)
    ensures var p := Participant(5, "instructor", "registered", Some(User(5, "Nguyen A")));
      var v := BuildView(SampleEvent(1, 30, [p]), 5, At(7, 0), dayLabel);
      v.isJoined && v.userRole == Some("instructor") && v.attendanceStatus == Some("registered")
      && v.instructors == "Nguyen A" && v.tas == "---"
  {
  }

  /** One seat, one row: full. */
  lemma OneSeatTaken(dayLabel: int -> string)
    ensures var p := Participant(9, "ta", "registered", Some(User(9, "Tran B")));
      BuildView(SampleEvent(1, 1, [p]), 5, At(7, 0), dayLabel).isFull
  {
  }

  /** Only the role string "ta" is listed as a teaching assistant. */
  lemma LongRoleNameNotListed(dayLabel: int -> string)
    ensures var p := Participant(9, "teaching_assistant", "registered", Some(User(9, "Tran B")));
      BuildView(SampleEvent(1, 30, [p]), 5, At(7, 0), dayLabel).tas == "---"
  {
  }

  /** Periods 1-2 read "7h00 - 9h00" and "(Tiết 1-2)". */
  lemma RangeLabels(dayLabel: int -> string)
    ensures var v := BuildView(SampleEvent(2, 30, []), 5, At(7, 0), dayLabel);
      v.timeStr == "7h00 - 9h00" && v.periodDetail == "(Tiết 1-2)"
  {
    assert IntToString(7) == "7" && IntToString(9) == "9";
    assert FormatPeriod(1) == "7h00" && FormatPeriod(3) == "9h00";
    assert IntToString(1) == "1" && IntToString(2) == "2";
  }
}

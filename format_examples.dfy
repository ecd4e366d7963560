/** Worked examples of the renderers in `moobot/util/format.py`, on
    Saturday 21 and Sunday 22 September 2024. Long expected strings are
    written as the pieces the layout concatenates. */
module FormatExamples {
  import opened Wrappers
  import opened Text
  import opened Dates
  import opened Format

  const Sep21 := Date(2024, 9, 21)
  const Sep22 := Date(2024, 9, 22)

  lemma Numbers()
    ensures NatToString(21) == "21" && NatToString(22) == "22"
  {
    assert NatToString(2) == "2";
  }

  lemma SmallNumbers()
    ensures NatToString(10) == "10" && NatToString(11) == "11" && ZeroPad(0, 2) == "00"
  {
    assert NatToString(1) == "1";
  }

  lemma Weekdays()
    ensures WeekdayAbbrev(Sep21) == "Sat" && WeekdayAbbrev(Sep22) == "Sun"
  {
    assert Weekday(Sep21) == 5;
    assert Weekday(Sep22) == 6;
  }

  lemma Day21Text()
    ensures DayText(Sep21) == "Sat. September 21"
  {
    Numbers();
    Weekdays();
  }

  lemma Day22Text()
    ensures WeekdayAbbrev(Sep22) == "Sun" && NatToString(22) == "22"
    ensures DayText(Sep22) == "Sun. September 22"
  {
    Numbers();
    Weekdays();
  }

  lemma Clock7PM(d: Date)
    requires ValidDate(d)
    ensures Clock(At(d, 19, 0)) == "7:00 PM"
  {
    SmallNumbers();
  }

  lemma Clock10PM(d: Date)
    requires ValidDate(d)
    ensures Clock(At(d, 22, 0)) == "10:00 PM"
  {
    SmallNumbers();
  }

  lemma ShortClocks(d: Date)
    requires ValidDate(d)
    ensures ShortClock(At(d, 19, 0)) == "7"
    ensures ShortClock(At(d, 22, 0)) == "10"
    ensures ShortClock(At(d, 11, 0)) == "11"
    ensures ShortClock(At(d, 13, 0)) == "1"
  {
    SmallNumbers();
  }

  lemma ShortClock730(d: Date)
    requires ValidDate(d)
    ensures ShortClock(At(d, 19, 30)) == "7:30"
  {
    assert ZeroPad(30, 2) == "30" by { assert NatToString(3) == "3"; }
  }

  /** A start time alone: "Sat. September 21 7:00 PM". */
  lemma StartTimeOnlyExample()
    ensures FormatEventDuration(Some(Sep21), Some(At(Sep21, 19, 0)), Some(Sep21), None)
            == Ok("Sat. September 21 7:00 PM")
  {
    var st := At(Sep21, 19, 0);
    assert FormatEventDuration(Some(Sep21), Some(st), Some(Sep21), None)
        == Ok(DayText(Sep21) + " " + Clock(st));
    Day21Text();
    Clock7PM(Sep21);
    assert "Sat. September 21" + " " + "7:00 PM" == "Sat. September 21 7:00 PM";
  }

  /** Same-day times share the day: "Sat. September 21 7:00 PM-10:00 PM". */
  lemma SameDayExample()
    ensures FormatEventDuration(Some(Sep21), Some(At(Sep21, 19, 0)), Some(Sep21), Some(At(Sep21, 22, 0)))
            == Ok("Sat. September 21" + " " + "7:00 PM" + "-" + "10:00 PM")
  {
    var st, et := At(Sep21, 19, 0), At(Sep21, 22, 0);
    assert FormatEventDuration(Some(Sep21), Some(st), Some(Sep21), Some(et))
        == Ok(DayText(Sep21) + " " + Clock(st) + "-" + Clock(et));
    Day21Text();
    Clock7PM(Sep21);
    Clock10PM(Sep21);
  }

  /** Cross-day times: no space after "to", two before the end month. */
  lemma CrossDayExample()
    ensures FormatEventDuration(Some(Sep21), Some(At(Sep21, 19, 0)), Some(Sep22), Some(At(Sep22, 22, 0)))
            == Ok("Sat. September 21" + " " + "7:00 PM" + " to" + "Sun" + ".  " + "September" + " "
                  + "22" + " " + "10:00 PM")
  {
    var st, et := At(Sep21, 19, 0), At(Sep22, 22, 0);
    assert FormatEventDuration(Some(Sep21), Some(st), Some(Sep22), Some(et))
        == Ok(DayText(Sep21) + " " + Clock(st) + " to" + WeekdayAbbrev(Sep22) + ".  "
              + MonthName(9) + " " + NatToString(22) + " " + Clock(et));
    Day21Text();
    Day22Text();
    Clock7PM(Sep21);
    Clock10PM(Sep22);
  }

  /** Untimed multi-day events: "Sat. September 21 to Sun.  September 22". */
  lemma UntimedRangeExample()
    ensures FormatEventDuration(Some(Sep21), None, Some(Sep22), None)
            == Ok("Sat. September 21" + " to " + "Sun" + ".  " + "September" + " " + "22")
  {
    assert FormatEventDuration(Some(Sep21), None, Some(Sep22), None)
        == Ok(DayText(Sep21) + " to " + WeekdayAbbrev(Sep22) + ".  " + MonthName(9) + " "
              + NatToString(22));
    Day21Text();
    Day22Text();
  }

  /** An untimed single day is the day alone. */
  lemma UntimedDayExample()
    ensures FormatEventDuration(Some(Sep21), None, Some(Sep21), None) == Ok("Sat. September 21")
    ensures FormatEventDurationForCalendar(Some(Sep21), None, Some(Sep21), None)
            == Ok("Sat. September 21")
  {
    Day21Text();
  }

  /** The digest joins the days of an untimed range with "-". */
  lemma DigestUntimedRangeExample()
    ensures FormatEventDurationForCalendar(Some(Sep21), None, Some(Sep22), None)
            == Ok("Sat. September 21" + "-" + "Sun. September 22")
  {
    assert FormatEventDurationForCalendar(Some(Sep21), None, Some(Sep22), None)
        == Ok(DayText(Sep21) + "-" + DayText(Sep22));
    Day21Text();
    Day22Text();
  }

  /** The digest drops ":00" and names a shared AM/PM once: "7-10 PM". */
  lemma DigestSharedMarkerExample()
    ensures FormatEventDurationForCalendar(Some(Sep21), Some(At(Sep21, 19, 0)), Some(Sep21), Some(At(Sep21, 22, 0)))
            == Ok("Sat. September 21, 7-10 PM")
  {
    var st, et := At(Sep21, 19, 0), At(Sep21, 22, 0);
    assert TimeRange(st, et) == ShortClock(st) + "-" + ShortClock(et) + " " + "PM";
    assert FormatEventDurationForCalendar(Some(Sep21), Some(st), Some(Sep21), Some(et))
        == Ok(DayText(Sep21) + ", " + TimeRange(st, et));
    Day21Text();
    ShortClocks(Sep21);
    assert "Sat. September 21" + ", " + ("7" + "-" + "10" + " " + "PM") == "Sat. September 21, 7-10 PM";
  }

  /** Different markers appear on each end: "11 AM-1 PM". */
  lemma DigestSplitMarkerExample()
    ensures FormatEventDurationForCalendar(Some(Sep21), Some(At(Sep21, 11, 0)), Some(Sep21), Some(At(Sep21, 13, 0)))
            == Ok("Sat. September 21" + ", " + ("11" + " " + "AM" + "-" + "1" + " " + "PM"))
  {
    var st, et := At(Sep21, 11, 0), At(Sep21, 13, 0);
    assert TimeRange(st, et) == ShortClock(st) + " " + "AM" + "-" + ShortClock(et) + " " + "PM";
    assert FormatEventDurationForCalendar(Some(Sep21), Some(st), Some(Sep21), Some(et))
        == Ok(DayText(Sep21) + ", " + TimeRange(st, et));
    Day21Text();
    ShortClocks(Sep21);
  }

  /** A start time alone in the digest keeps its minutes when not on the hour. */
  lemma DigestStartOnlyExample()
    ensures FormatEventDurationForCalendar(Some(Sep21), Some(At(Sep21, 19, 30)), Some(Sep21), None)
            == Ok("Sat. September 21, 7:30 PM")
  {
    var st := At(Sep21, 19, 30);
    assert FormatEventDurationForCalendar(Some(Sep21), Some(st), Some(Sep21), None)
        == Ok(DayText(Sep21) + ", " + ShortClock(st) + " " + "PM");
    Day21Text();
    ShortClock730(Sep21);
    assert "Sat. September 21" + ", " + "7:30" + " " + "PM" == "Sat. September 21, 7:30 PM";
  }
}

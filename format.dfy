/** The renderers of `moobot/util/format.py`: the announcement duration
    string, the digest's compact duration string and one digest line. */
module Format {
  import opened Wrappers
  import opened Exceptions
  import opened Text
  import opened Dates
  import opened Models

  /** `<Wkd>. <Month> <D>`: the day as every layout spells it. */
  function DayText(d: Date): string
    requires ValidDate(d)
  {
    WeekdayAbbrev(d) + ". " + MonthName(d.month) + " " + NatToString(d.day)
  }

  /** `strftime("%-I:%M %p")`. */
  function Clock(t: DateTime): string
    requires ValidDateTime(t)
  {
    NatToString(Hour12(t.hour)) + ":" + Minute2(t) + " " + AmPm(t.hour)
  }

  /** The dates the source's `date`/`datetime` arguments hold are real dates. */
  predicate ValidArgs(startDate: Option<Date>, startTime: Option<DateTime>,
                      endDate: Option<Date>, endTime: Option<DateTime>) {
    (startDate.Some? ==> ValidDate(startDate.value))
    && (endDate.Some? ==> ValidDate(endDate.value))
    && (startTime.Some? ==> ValidDateTime(startTime.value))
    && (endTime.Some? ==> ValidDateTime(endTime.value))
  }

  /** The day a rendering starts with: the start time's day if there is one. */
  function FirstDay(startDate: Option<Date>, startTime: Option<DateTime>): Option<Date> {
    if startTime.Some? then Some(startTime.value.date) else startDate
  }

  /** `format_event_duration`: five layouts tried in order, the first that
      applies wins. With no start time a missing date is dereferenced
      (AttributeError) or, when both dates are missing, ValueError is raised. */
  function FormatEventDuration(startDate: Option<Date>, startTime: Option<DateTime>,
                               endDate: Option<Date>, endTime: Option<DateTime>)
    : (r: Result<string, Exception>)
    requires ValidArgs(startDate, startTime, endDate, endTime)
    ensures r.Err? <==> startTime.None? && (startDate.None? || endDate.None?)
    ensures r.Err? ==> (r.error == ValueError <==> startDate.None? && endDate.None?)
    ensures r.Err? ==> r.error in {ValueError, AttributeError}
  {
    if startTime.Some? && endTime.Some? && startDate == endDate then
      // an event that has a start and end time on the same day
      var st, et := startTime.value, endTime.value;
      Ok(DayText(st.date) + " " + Clock(st) + "-" + Clock(et))
    else if startTime.Some? && endTime.Some? then
      // start and end times on different days
      var st, et := startTime.value, endTime.value;
      Ok(DayText(st.date) + " " + Clock(st) + " to" + WeekdayAbbrev(et.date) + ".  "
         + MonthName(et.date.month) + " " + NatToString(et.date.day) + " " + Clock(et))
    else if startTime.Some? then
      // a single-day event with a start time and no end time
      Ok(DayText(startTime.value.date) + " " + Clock(startTime.value))
    else if startDate != endDate then
      // a multi-day event
      if startDate.None? || endDate.None? then Err(AttributeError)
      else
        var sd, ed := startDate.value, endDate.value;
        Ok(DayText(sd) + " to " + WeekdayAbbrev(ed) + ".  " + MonthName(ed.month) + " "
           + NatToString(ed.day))
    else if startDate.Some? then
      // a single-day event with no time
      Ok(DayText(startDate.value))
    else
      Err(ValueError)
  }

  /** `%-I` when on the hour, `%-I:%M` otherwise. */
  function ShortClock(t: DateTime): string
    requires ValidDateTime(t)
  {
    if t.minute == 0 then NatToString(Hour12(t.hour))
    else NatToString(Hour12(t.hour)) + ":" + Minute2(t)
  }

  /** The digest's time range: one AM/PM marker when both ends share it. */
  function TimeRange(st: DateTime, et: DateTime): string
    requires ValidDateTime(st) && ValidDateTime(et)
  {
    if AmPm(st.hour) == AmPm(et.hour) then
      ShortClock(st) + "-" + ShortClock(et) + " " + AmPm(st.hour)
    else
      ShortClock(st) + " " + AmPm(st.hour) + "-" + ShortClock(et) + " " + AmPm(et.hour)
  }

  /** `format_event_duration_for_calendar`: the digest's compact layouts, in
      the same order and with the same error cases as FormatEventDuration. */
  function FormatEventDurationForCalendar(startDate: Option<Date>, startTime: Option<DateTime>,
                                          endDate: Option<Date>, endTime: Option<DateTime>)
    : (r: Result<string, Exception>)
    requires ValidArgs(startDate, startTime, endDate, endTime)
    ensures r.Err? <==> startTime.None? && (startDate.None? || endDate.None?)
    ensures r.Err? ==> (r.error == ValueError <==> startDate.None? && endDate.None?)
    ensures r.Err? ==> r.error in {ValueError, AttributeError}
  {
    if startTime.Some? && endTime.Some? && startDate == endDate then
      var st, et := startTime.value, endTime.value;
      Ok(DayText(st.date) + ", " + TimeRange(st, et))
    else if startTime.Some? && endTime.Some? then
      var st, et := startTime.value, endTime.value;
      Ok(DayText(st.date) + " " + ShortClock(st) + " to " + DayText(et.date) + " "
         + ShortClock(et))
    else if startTime.Some? then
      var st := startTime.value;
      Ok(DayText(st.date) + ", " + ShortClock(st) + " " + AmPm(st.hour))
    else if startDate != endDate then
      if startDate.None? || endDate.None? then Err(AttributeError)
      else Ok(DayText(startDate.value) + "-" + DayText(endDate.value))
    else if startDate.Some? then
      Ok(DayText(startDate.value))
    else
      Err(ValueError)
  }

  /** The flag the digest puts before an event that starts today or is under way. */
  datatype Marker = Today | Ongoing | Plain

  /** `format_single_event_for_calendar`'s choice of marker: today's events
      first; an event under way only when it spans several days. Ordering a
      missing date against today raises TypeError. */
  function CalendarMarker(e: Event, today: Date): (r: Result<Marker, Exception>)
    ensures r == Ok(Today) <==> e.startDate == Some(today)
    ensures r == Ok(Ongoing) <==>
      e.startDate != Some(today) && e.startDate != e.endDate && e.startDate.Some? && e.endDate.Some?
      && DateLe(e.startDate.value, today) && DateLe(today, e.endDate.value)
    ensures r.Err? <==>
      e.startDate != Some(today) && e.startDate != e.endDate
      && (e.startDate.None? || (DateLe(e.startDate.value, today) && e.endDate.None?))
    ensures r.Err? ==> r.error == TypeError
  {
    if e.startDate == Some(today) then Ok(Today)
    else if e.startDate == e.endDate then Ok(Plain)
    else if e.startDate.None? then Err(TypeError)
    else if !DateLe(e.startDate.value, today) then Ok(Plain)
    else if e.endDate.None? then Err(TypeError)
    else if DateLe(today, e.endDate.value) then Ok(Ongoing)
    else Ok(Plain)
  }

  /** `format_single_event_for_calendar`: one digest line. */
  function FormatSingleEventForCalendar(e: Event, today: Date): (r: Result<string, Exception>)
    requires WellTyped(e)
    ensures var d := FormatEventDurationForCalendar(e.startDate, e.startTime, e.endDate, e.endTime);
      var m := CalendarMarker(e, today);
      && (r.Ok? <==> d.Ok? && m.Ok?)
      && (r.Err? ==> r.error == if d.Err? then d.error else m.error)
      && (r.Ok? && m.value == Today ==> r.value == "**📢  (Today!) " + d.value + ": " + e.name + "**")
      && (r.Ok? && m.value == Ongoing ==> r.value == "**📢  (Ongoing) " + d.value + ": " + e.name + "**")
      && (r.Ok? && m.value == Plain ==> r.value == d.value + ": " + e.name)
  {
    var duration :- FormatEventDurationForCalendar(e.startDate, e.startTime, e.endDate, e.endTime);
    var marker :- CalendarMarker(e, today);
    match marker
    case Today => Ok("**📢  (Today!) " + duration + ": " + e.name + "**")
    case Ongoing => Ok("**📢  (Ongoing) " + duration + ": " + e.name + "**")
    case Plain => Ok(duration + ": " + e.name)
  }

  /** Reads a `%-I:%M %p` clock back into (hour, minute). */
  function ParseClock(s: string): Option<(int, int)> {
    match FindFrom(s, ":", 0)
    case None => None
    case Some(i) => ParseClockFields(s[..i], s[i + 1..])
  }

  /** The hour digits before the colon, and `MM AM` after it. */
  function ParseClockFields(hourText: string, rest: string): Option<(int, int)> {
    if hourText == [] || !AllDigits(hourText) || |rest| != 5 || !AllDigits(rest[..2])
       || rest[2] != ' ' || !(rest[3..] == "AM" || rest[3..] == "PM")
    then None
    else
      var h12 := DigitsValue(hourText);
      if h12 < 1 || h12 > 12 then None
      else Some((h12 % 12 + (if rest[3..] == "PM" then 12 else 0), DigitsValue(rest[..2])))
  }


  /** The announcement clock loses nothing: hour and minute read back exactly. */
  lemma ClockRoundTrip(t: DateTime)
    requires ValidDateTime(t)
    ensures ParseClock(Clock(t)) == Some((t.hour, t.minute))
  {
    var a := NatToString(Hour12(t.hour));
    var rest := Minute2(t) + " " + AmPm(t.hour);
    var s := a + [':'] + rest;
    assert Clock(t) == s;
    assert ':' !in a by {
      forall j | 0 <= j < |a| ensures a[j] != ':' { }
    }
    FindFirst(a, ':', rest);
    assert s[..|a|] == a;
    assert s[|a| + 1..] == rest;
    assert ParseClock(s) == ParseClockFields(a, rest);
    ClockFieldsRoundTrip(t);
  }

  lemma ClockFieldsRoundTrip(t: DateTime)
    requires ValidDateTime(t)
    ensures ParseClockFields(NatToString(Hour12(t.hour)), Minute2(t) + " " + AmPm(t.hour))
            == Some((t.hour, t.minute))
  {
    var h12 := Hour12(t.hour);
    var mm := Minute2(t);
    var marker := AmPm(t.hour);
    var rest := mm + " " + marker;
    TwoDigits(t.minute);
    ZeroPadRoundTrip(t.minute, 2);
    NatToStringRoundTrip(h12);
    assert rest[..2] == mm && rest[2] == ' ' && rest[3..] == marker;
    Hour12Inverse(t.hour);
  }
}

/** The older renderer of `moobot/util/formatting.py`: month and day without
    the weekday, tried in a different order from `Format.FormatEventDuration`. */
module LegacyFormatting {
  import opened Wrappers
  import opened Exceptions
  import opened Text
  import opened Dates
  import opened Format

  /** `<Month> <D>`. */
  function MonthDay(d: Date): string
    requires ValidDate(d)
  {
    MonthName(d.month) + " " + NatToString(d.day)
  }

  /** `format_event_duration` as written: two times count as "the same day"
      when their day-of-month agrees, whatever their month and year. */
  function FormatEventDuration(startDate: Option<Date>, startTime: Option<DateTime>,
                               endDate: Option<Date>, endTime: Option<DateTime>)
    : (r: Result<string, Exception>)
    requires ValidArgs(startDate, startTime, endDate, endTime)
    ensures r.Err? <==> startTime.None? && startDate.None?
    ensures r.Err? ==> r.error == ValueError
  {
    if startTime.Some? && endTime.Some? && startTime.value.date.day == endTime.value.date.day then
      var st, et := startTime.value, endTime.value;
      Ok(MonthDay(st.date) + " " + Clock(st) + "-" + Clock(et))
    else
      Rest(startDate, startTime, endDate, endTime)
  }

  /** `format_event_duration` with the same-day test comparing whole dates. */
  function FormatEventDurationFixed(startDate: Option<Date>, startTime: Option<DateTime>,
                                    endDate: Option<Date>, endTime: Option<DateTime>)
    : (r: Result<string, Exception>)
    requires ValidArgs(startDate, startTime, endDate, endTime)
    ensures r.Err? <==> startTime.None? && startDate.None?
    ensures r.Err? ==> r.error == ValueError
  {
    if startTime.Some? && endTime.Some? && startTime.value.date == endTime.value.date then
      var st, et := startTime.value, endTime.value;
      Ok(MonthDay(st.date) + " " + Clock(st) + "-" + Clock(et))
    else
      Rest(startDate, startTime, endDate, endTime)
  }

  /** The branches after the same-day one, shared by both versions. */
  function Rest(startDate: Option<Date>, startTime: Option<DateTime>,
                endDate: Option<Date>, endTime: Option<DateTime>)
    : (r: Result<string, Exception>)
    requires ValidArgs(startDate, startTime, endDate, endTime)
    ensures r.Err? <==> startTime.None? && startDate.None?
    ensures r.Err? ==> r.error == ValueError
  {
    if startTime.Some? && endTime.Some? then
      var st, et := startTime.value, endTime.value;
      Ok(MonthDay(st.date) + " " + Clock(st) + " to " + MonthDay(et.date) + " " + Clock(et))
    else if startDate.Some? && endDate.Some? then
      Ok(MonthDay(startDate.value) + " to " + MonthDay(endDate.value))
    else if startTime.Some? then
      Ok(MonthDay(startTime.value.date) + " " + Clock(startTime.value))
    else if startDate.Some? then
      Ok(MonthDay(startDate.value))
    else
      Err(ValueError)
  }

  /** With both dates set and no end time, the date range is rendered and a
      start time is ignored. */
  lemma DateRangeIgnoresStartTime(startDate: Date, startTime: Option<DateTime>, endDate: Date)
    requires ValidArgs(Some(startDate), startTime, Some(endDate), None)
    ensures FormatEventDuration(Some(startDate), startTime, Some(endDate), None)
            == FormatEventDuration(Some(startDate), None, Some(endDate), None)
            == Ok(MonthDay(startDate) + " to " + MonthDay(endDate))
  {
  }

  /** The corrected renderer names the end date whenever the two times fall
      on different dates. */
  lemma FixedNamesEndDate(startDate: Option<Date>, st: DateTime, endDate: Option<Date>, et: DateTime)
    requires ValidArgs(startDate, Some(st), endDate, Some(et))
    requires st.date != et.date
    ensures FormatEventDurationFixed(startDate, Some(st), endDate, Some(et)).Ok?
    ensures Contains(FormatEventDurationFixed(startDate, Some(st), endDate, Some(et)).value,
                     MonthDay(et.date))
  {
    var head := MonthDay(st.date) + " " + Clock(st) + " to ";
    var x := MonthDay(et.date);
    var s := head + x + " " + Clock(et);
    assert FormatEventDurationFixed(startDate, Some(st), endDate, Some(et)) == Ok(s);
    assert s[|head|..][..|x|] == x;
  }

  const Jan5 := Date(2024, 1, 5)
  const Feb5 := Date(2024, 2, 5)

  /** As written, 10 AM on 5 January to 11 AM on 5 February renders as
      `January 5 10:00 AM-11:00 AM`: the same text as a one-day event on
      5 January, with February nowhere in it. */
  lemma DayOnlyComparisonDropsEndDate()
    ensures FormatEventDuration(Some(Jan5), Some(At(Jan5, 10, 0)), Some(Feb5), Some(At(Feb5, 11, 0)))
            == FormatEventDuration(Some(Jan5), Some(At(Jan5, 10, 0)), Some(Jan5), Some(At(Jan5, 11, 0)))
    ensures !Contains(FormatEventDuration(Some(Jan5), Some(At(Jan5, 10, 0)), Some(Feb5),
                                          Some(At(Feb5, 11, 0))).value,
                      MonthDay(Feb5))
  {
    var st, et := At(Jan5, 10, 0), At(Feb5, 11, 0);
    assert Clock(et) == Clock(At(Jan5, 11, 0));
    var s := MonthDay(Jan5) + " " + Clock(st) + "-" + Clock(et);
    assert FormatEventDuration(Some(Jan5), Some(st), Some(Feb5), Some(et)) == Ok(s);
    assert MonthDay(Feb5)[0] == 'F';
    if Contains(s, MonthDay(Feb5)) {
      ContainsFirstChar(s, MonthDay(Feb5));
      NoCapitalF(st);
      NoCapitalF(et);
      assert false;
    }
  }

  /** A clock is digits, a colon, a space and AM or PM. */
  lemma NoCapitalF(t: DateTime)
    requires ValidDateTime(t)
    ensures 'F' !in Clock(t)
  {
    ZeroPadRoundTrip(t.minute, 2);
    var s := Clock(t);
    forall k | 0 <= k < |s| ensures s[k] != 'F' {
      var h := NatToString(Hour12(t.hour));
      var m := Minute2(t);
      if k < |h| { assert s[k] == h[k]; }
      else if k == |h| { assert s[k] == ':'; }
      else if k < |h| + 1 + |m| { assert s[k] == m[k - |h| - 1]; }
    }
  }
}

/** `moobot/util/google.py`: the Google Calendar event a Moobloom event maps
    to, the get-then-update-or-insert exchange that stores it, and the OAuth
    session recorded when a user is sent to Google. The Google client is a
    request log; each reply it would receive is an input. */
module Google {
  import opened Wrappers
  import opened Exceptions
  import opened Text
  import opened Dates
  import opened Models
  import Db

  /** The keys of a Google Calendar event resource; keys the core never sets
      (attendees, reminders, ...) are `OtherKey`. */
  datatype Key = Id | Summary | Start | End | StatusKey | Location | Description
               | OtherKey(name: string)

  /** A value in an event resource: a string, a `{dateTime, timeZone}` or a
      `{date}` object, or a value the core never builds. */
  datatype Json = JStr(s: string) | JDateTime(dateTime: string, timeZone: string)
                | JDate(date: string) | Opaque

  type CalendarEvent = map<Key, Json>

  /** The outcome of one request: a served body, an HTTP error status, or a
      credential refresh failure (`google.auth.exceptions.RefreshError`). */
  datatype Reply<T> = Served(value: T) | HttpFailure(status: int) | RefreshFailure

  function ReplyError<T>(reply: Reply<T>): Exception
    requires !reply.Served?
  {
    if reply.HttpFailure? then HttpError(reply.status) else RefreshError
  }

  datatype Request =
    | GetEvent(calendarId: string, eventId: string)
    | UpdateEvent(calendarId: string, eventId: string, body: CalendarEvent)
    | InsertEvent(calendarId: string, body: CalendarEvent)
    | InsertCalendar(summary: string)

  /** `_build_gcalendar_event_id`: `moob` followed by the event id. */
  function EventId(id: nat): (r: string)
    ensures StartsWith(r, "moob")
  {
    StartsWithConcat("moob", NatToString(id));
    "moob" + NatToString(id)
  }

  /** Distinct events never share a calendar event. */
  lemma EventIdInjective(a: nat, b: nat)
    requires EventId(a) == EventId(b)
    ensures a == b
  {
    assert EventId(a)[4..] == NatToString(a);
    assert EventId(b)[4..] == NatToString(b);
    NatToStringInjective(a, b);
  }

  /** The event status an attendance type is shown with. */
  function Status(t: AttendanceType): string {
    match t
    case Yes => "confirmed"
    case Maybe => "tentative"
    case No => "cancelled"
  }

  function TimedField(t: DateTime, tz: string): Json
    requires ValidDateTime(t)
  {
    JDateTime(IsoDateTime(t), tz)
  }

  function DateField(d: Date): Json
    requires ValidDate(d)
  {
    JDate(IsoDate(d))
  }

  /** The `start` value: the start time if there is one, else the start date;
      with neither, `None.isoformat()` raises AttributeError. */
  function StartField(e: Event, tz: string): (r: Result<Json, Exception>)
    requires WellTyped(e)
    ensures r.Err? <==> e.startTime.None? && e.startDate.None?
    ensures r.Err? ==> r.error == AttributeError
  {
    if e.startTime.Some? then Ok(TimedField(e.startTime.value, tz))
    else if e.startDate.Some? then Ok(DateField(e.startDate.value))
    else Err(AttributeError)
  }

  /** The `end` value. Google's all-day end dates are exclusive, so an untimed
      multi-day event ends the day after its stored (inclusive) end date. */
  function EndField(e: Event, tz: string): (r: Result<Json, Exception>)
    requires WellTyped(e)
    ensures e.endTime.Some? ==> r == Ok(TimedField(e.endTime.value, tz))
    ensures e.endTime.None? && e.startTime.Some? ==>
      var st := e.startTime.value;
      r == Ok(TimedField(DateTime(st.date, 23, 59, st.second), tz))
    ensures r.Err? <==> e.endTime.None? && e.startTime.None?
                        && (if e.startDate != e.endDate
                            then e.endDate.None? || e.endDate == Some(Date(9999, 12, 31))
                            else e.endDate.None?)
    ensures r.Err? ==> r.error in {TypeError, OverflowError, AttributeError}
  {
    if e.endTime.Some? then Ok(TimedField(e.endTime.value, tz))
    else if e.startTime.Some? then
      // no end time: the event is taken to run to 23:59 of its start day
      var st := e.startTime.value;
      Ok(TimedField(DateTime(st.date, 23, 59, st.second), tz))
    else if e.startDate != e.endDate then
      if e.endDate.None? then Err(TypeError)
      else match NextDay(e.endDate.value)
        case None => Err(OverflowError)
        case Some(d) => Ok(DateField(d))
    else if e.endDate.None? then Err(AttributeError)
    else Ok(DateField(e.endDate.value))
  }

  /** An untimed event spanning several days ends, for Google, on the day
      after its last day; an untimed one-day event ends on its own day. */
  lemma AllDayEndIsExclusive(e: Event, tz: string)
    requires WellTyped(e) && e.startTime.None? && e.endTime.None? && e.endDate.Some?
    requires e.endDate.value != Date(9999, 12, 31)
    ensures EndField(e, tz).Ok?
    ensures e.startDate != e.endDate ==>
      exists d :: ValidDate(d) && Ordinal(d) == Ordinal(e.endDate.value) + 1
                  && EndField(e, tz) == Ok(DateField(d))
    ensures e.startDate == e.endDate ==> EndField(e, tz) == Ok(DateField(e.endDate.value))
  {
    if e.startDate != e.endDate {
      var d := NextDay(e.endDate.value).value;
      assert EndField(e, tz) == Ok(DateField(d));
    }
  }

  /** The optional keys: present exactly when the field is set. */
  function OptionalKeys(e: Event): CalendarEvent {
    (if e.location.Some? then map[Location := JStr(e.location.value)] else map[])
    + (if e.description.Some? then map[Description := JStr(e.description.value)] else map[])
  }

  /** `_build_gcalendar_event`. */
  function BuildEvent(e: Event, t: AttendanceType, tz: string): (r: Result<CalendarEvent, Exception>)
    requires WellTyped(e)
    ensures r.Err? <==> StartField(e, tz).Err? || EndField(e, tz).Err?
    ensures r.Err? ==> r.error == (if StartField(e, tz).Err? then StartField(e, tz).error
                                   else EndField(e, tz).error)
  {
    var start :- StartField(e, tz);
    var end :- EndField(e, tz);
    Ok(Required(e, t, start, end) + OptionalKeys(e))
  }

  function Required(e: Event, t: AttendanceType, start: Json, end: Json): CalendarEvent {
    map[Id := JStr(EventId(e.id)), Summary := JStr(e.name), Start := start,
        End := end, StatusKey := JStr(Status(t))]
  }

  /** The built event has the five required keys, plus the location and
      the description exactly when they are set. */
  lemma BuiltEventKeys(e: Event, t: AttendanceType, tz: string)
    requires WellTyped(e) && BuildEvent(e, t, tz).Ok?
    ensures BuildEvent(e, t, tz).value.Keys
            == {Id, Summary, Start, End, StatusKey}
               + (if e.location.Some? then {Location} else {})
               + (if e.description.Some? then {Description} else {})
  {
    var req := Required(e, t, StartField(e, tz).value, EndField(e, tz).value);
    assert BuildEvent(e, t, tz).value == req + OptionalKeys(e);
    assert req.Keys == {Id, Summary, Start, End, StatusKey};
  }

  /** The built event carries the stable id, the name, both ends, the status
      of the user's attendance, and the location and description as set. */
  lemma BuiltEventValues(e: Event, t: AttendanceType, tz: string)
    requires WellTyped(e) && BuildEvent(e, t, tz).Ok?
    ensures var r := BuildEvent(e, t, tz).value;
      && r[Id] == JStr(EventId(e.id)) && r[Summary] == JStr(e.name)
      && r[StatusKey] == JStr(Status(t))
      && r[Start] == StartField(e, tz).value && r[End] == EndField(e, tz).value
      && (e.location.Some? ==> r[Location] == JStr(e.location.value))
      && (e.description.Some? ==> r[Description] == JStr(e.description.value))
  {
    var start, end := StartField(e, tz).value, EndField(e, tz).value;
    assert BuildEvent(e, t, tz).value == Required(e, t, start, end) + OptionalKeys(e);
    AssembledValues(e, t, start, end);
  }

  lemma AssembledValues(e: Event, t: AttendanceType, start: Json, end: Json)
    ensures var r := Required(e, t, start, end) + OptionalKeys(e);
      && r[Id] == JStr(EventId(e.id)) && r[Summary] == JStr(e.name)
      && r[StatusKey] == JStr(Status(t))
      && r[Start] == start && r[End] == end
      && (e.location.Some? ==> r[Location] == JStr(e.location.value))
      && (e.description.Some? ==> r[Description] == JStr(e.description.value))
  {
  }

  /** A calendar service of one linked account (`get_calendar_service`). */
  class CalendarService {
    var requests: seq<Request>

    constructor ()
      ensures requests == []
    {
      requests := [];
    }

    /** `create_moobloom_events_calendar`: the new calendar's id. */
    method CreateCalendar(summary: string, reply: Reply<string>) returns (r: Result<string, Exception>)
      modifies this
      ensures requests == old(requests) + [InsertCalendar(summary)]
      ensures reply.Served? ==> r == Ok(reply.value)
      ensures !reply.Served? ==> r == Err(ReplyError(reply))
    {
      requests := requests + [InsertCalendar(summary)];
      if reply.Served? {
        r := Ok(reply.value);
      } else {
        r := Err(ReplyError(reply));
      }
    }

    /** `add_or_update_event`, proved against UpsertRequests and UpsertOutcome. */
    method AddOrUpdateEvent(calendarId: string, e: Event, t: AttendanceType, tz: string,
                            getReply: Reply<CalendarEvent>, writeReply: Reply<()>)
      returns (r: Outcome<Exception>)
      requires WellTyped(e)
      modifies this
      ensures requests == old(requests)
                          + UpsertRequests(calendarId, EventId(e.id), BuildEvent(e, t, tz), getReply)
      ensures r == UpsertOutcome(BuildEvent(e, t, tz), getReply, writeReply)
    {
      var eventId := EventId(e.id);
      requests := requests + [GetEvent(calendarId, eventId)];
      var existing: Option<CalendarEvent> := None;
      if getReply.Served? {
        existing := Some(getReply.value);
      } else if getReply != HttpFailure(404) {
        return Fail(ReplyError(getReply));
      }
      var built := BuildEvent(e, t, tz);
      r := Write(calendarId, eventId, existing, built, writeReply);
    }

    /** The second half of `add_or_update_event`, once the get has answered
        with the existing event or with 404. */
    method Write(calendarId: string, eventId: string, existing: Option<CalendarEvent>,
                 built: Result<CalendarEvent, Exception>, writeReply: Reply<()>)
      returns (r: Outcome<Exception>)
      modifies this
      ensures var getReply := if existing.Some? then Served(existing.value) else HttpFailure(404);
        requests == old(requests) + UpsertRequests(calendarId, eventId, built, getReply)[1..]
        && r == UpsertOutcome(built, getReply, writeReply)
    {
      if built.Err? {
        return Fail(built.error);
      }
      if existing.Some? {
        var body := existing.value + built.value;
        requests := requests + [UpdateEvent(calendarId, eventId, body)];
        r := if writeReply.Served? then Pass else Fail(ReplyError(writeReply));
      } else {
        requests := requests + [InsertEvent(calendarId, built.value)];
        r := if writeReply.Served? || writeReply == HttpFailure(404) then Pass
             else Fail(ReplyError(writeReply));
      }
    }
  }

  /** Whether `add_or_update_event` gets past the get and the build to a write. */
  predicate Writes(built: Result<CalendarEvent, Exception>, getReply: Reply<CalendarEvent>) {
    (getReply.Served? || getReply == HttpFailure(404)) && built.Ok?
  }

  /** The requests `add_or_update_event` sends, given the event it builds: the
      get by the stable id, then an update of the fetched event overlaid with
      the built one, or an insert of the built event when the get answered 404. */
  function UpsertRequests(calendarId: string, eventId: string, built: Result<CalendarEvent, Exception>,
                          getReply: Reply<CalendarEvent>): (r: seq<Request>)
    ensures |r| == (if Writes(built, getReply) then 2 else 1)
    ensures r[0] == GetEvent(calendarId, eventId)
    ensures |r| == 2 && getReply.Served? ==>
      r[1].UpdateEvent? && r[1].calendarId == calendarId && r[1].eventId == eventId
      && r[1].body.Keys == getReply.value.Keys + built.value.Keys
      && (forall k :: k in built.value ==> r[1].body[k] == built.value[k])
      && (forall k :: k in getReply.value && k !in built.value ==> r[1].body[k] == getReply.value[k])
    ensures |r| == 2 && !getReply.Served? ==> r[1] == InsertEvent(calendarId, built.value)
  {
    var get := GetEvent(calendarId, eventId);
    if !Writes(built, getReply) then [get]
    else if getReply.Served? then [get, UpdateEvent(calendarId, eventId, getReply.value + built.value)]
    else [get, InsertEvent(calendarId, built.value)]
  }

  /** What `add_or_update_event` raises: a failed get other than 404, then a
      failed build, then a failed write, except that a failed insert answered
      with 404 is swallowed. */
  function UpsertOutcome(built: Result<CalendarEvent, Exception>, getReply: Reply<CalendarEvent>,
                         writeReply: Reply<()>): (r: Outcome<Exception>)
    ensures !getReply.Served? && getReply != HttpFailure(404) ==> r == Fail(ReplyError(getReply))
    ensures (getReply.Served? || getReply == HttpFailure(404)) && built.Err? ==> r == Fail(built.error)
    ensures Writes(built, getReply) ==>
      (r.Pass? <==> writeReply.Served? || (!getReply.Served? && writeReply == HttpFailure(404)))
    ensures Writes(built, getReply) && r.Fail? ==> r.error == ReplyError(writeReply)
  {
    if !getReply.Served? && getReply != HttpFailure(404) then Fail(ReplyError(getReply))
    else if built.Err? then Fail(built.error)
    else if writeReply.Served? then Pass
    else if !getReply.Served? && writeReply == HttpFailure(404) then Pass
    else Fail(ReplyError(writeReply))
  }

  /** The events of one calendar, by id, as a calendar that answers a get
      with 404 exactly when the id is absent would hold them after each
      request of `add_or_update_event`. */
  function Upserted(calendar: map<string, CalendarEvent>, eventId: string, built: CalendarEvent)
    : (r: map<string, CalendarEvent>)
    ensures r.Keys == calendar.Keys + {eventId}
    ensures eventId in calendar ==>
      forall k :: k in r[eventId] <==> k in calendar[eventId] || k in built
    ensures forall k :: k in built ==> k in r[eventId] && r[eventId][k] == built[k]
  {
    if eventId in calendar then calendar[eventId := calendar[eventId] + built]
    else calendar[eventId := built]
  }

  /** Syncing the same event twice leaves the calendar as syncing it once. */
  lemma UpsertIdempotent(calendar: map<string, CalendarEvent>, eventId: string, built: CalendarEvent)
    ensures Upserted(Upserted(calendar, eventId, built), eventId, built)
            == Upserted(calendar, eventId, built)
  {
    var once := Upserted(calendar, eventId, built);
    assert once[eventId] + built == once[eventId];
  }

  /** `get_google_auth_url`: records the OAuth flow's state for the user, then
      returns the flow's authorization URL. */
  method GetGoogleAuthUrl(s: Db.Store, userId: UserId, flowUrl: string, flowState: string)
    returns (url: string)
    modifies s
    ensures url == flowUrl
    ensures s.State() == old(s.State()).(
      authSessions := old(s.authSessions) + [AuthSession(flowState, userId)],
      commits := old(s.commits) + 1)
  {
    Db.CreateAuthSession(s, flowState, userId, true);
    url := flowUrl;
  }
}

/** The persisted records (`moobot/db/models.py`) and the attendance enum with
    its emoji mapping. Identifiers that the source keeps as decimal strings
    (`user_id`, `announcement_message_id`, `channel_id`) are held as the numbers
    they spell. */
module Models {
  import opened Wrappers
  import opened Exceptions
  import opened Dates

  type UserId = nat
  type MessageId = nat
  type ChannelId = nat

  /** `MoobloomEventAttendanceType`. */
  datatype AttendanceType = Yes | Maybe | No

  /** The string each enum member is stored as. */
  function StoredValue(t: AttendanceType): string {
    match t
    case Yes => "attending"
    case Maybe => "maybe"
    case No => "no"
  }

  /** `MoobloomEventAttendanceType(value)`: reading a stored value back. */
  function FromStoredValue(s: string): (r: Result<AttendanceType, Exception>)
    ensures r.Ok? ==> StoredValue(r.value) == s
    ensures r.Err? ==> r.error == ValueError
  {
    if s == "attending" then Ok(Yes)
    else if s == "maybe" then Ok(Maybe)
    else if s == "no" then Ok(No)
    else Err(ValueError)
  }

  /** Every member survives a store/load round trip. */
  lemma StoredValueRoundTrip(t: AttendanceType)
    ensures FromStoredValue(StoredValue(t)) == Ok(t)
  {
  }

  /** The configured reaction emojis (`moobot/settings.py`). */
  datatype Settings = Settings(rsvpYesEmoji: string, rsvpMaybeEmoji: string, rsvpNoEmoji: string)

  const DefaultSettings := Settings("✅", "❓", "❌")

  predicate DistinctEmojis(s: Settings) {
    s.rsvpYesEmoji != s.rsvpMaybeEmoji && s.rsvpYesEmoji != s.rsvpNoEmoji
    && s.rsvpMaybeEmoji != s.rsvpNoEmoji
  }

  predicate IsRsvpEmoji(s: Settings, emoji: string) {
    emoji == s.rsvpYesEmoji || emoji == s.rsvpMaybeEmoji || emoji == s.rsvpNoEmoji
  }

  /** `rsvp_react_emoji`. */
  function RsvpReactEmoji(s: Settings, t: AttendanceType): (emoji: string)
    ensures IsRsvpEmoji(s, emoji)
  {
    match t
    case Yes => s.rsvpYesEmoji
    case Maybe => s.rsvpMaybeEmoji
    case No => s.rsvpNoEmoji
  }

  /** `from_rsvp_react_emoji`: yes, then maybe, then no are tried in order;
      anything else raises NotImplementedError. */
  function FromRsvpReactEmoji(s: Settings, emoji: string): (r: Result<AttendanceType, Exception>)
    ensures r.Ok? <==> IsRsvpEmoji(s, emoji)
    ensures r.Ok? ==> RsvpReactEmoji(s, r.value) == emoji
    ensures r.Err? ==> r.error == NotImplementedError
  {
    if emoji == s.rsvpYesEmoji then Ok(Yes)
    else if emoji == s.rsvpMaybeEmoji then Ok(Maybe)
    else if emoji == s.rsvpNoEmoji then Ok(No)
    else Err(NotImplementedError)
  }

  /** With distinct emojis the two mappings are inverse bijections. */
  lemma EmojiRoundTrip(s: Settings, t: AttendanceType)
    requires DistinctEmojis(s)
    ensures FromRsvpReactEmoji(s, RsvpReactEmoji(s, t)) == Ok(t)
  {
  }

  lemma DefaultEmojisDistinct()
    ensures DistinctEmojis(DefaultSettings)
  {
  }

  /** A `MoobloomEvent` row. */
  datatype Event = Event(
    id: nat,
    name: string,
    createChannel: bool,
    channelName: Option<string>,
    startDate: Option<Date>,
    startTime: Option<DateTime>,
    endDate: Option<Date>,
    endTime: Option<DateTime>,
    location: Option<string>,
    description: Option<string>,
    url: Option<string>,
    imageUrl: Option<string>,
    thumbnailUrl: Option<string>,
    announcementMessageId: Option<MessageId>,
    channelId: Option<ChannelId>,
    outOfSync: bool,
    deleted: bool)

  /** What Python's `date`/`datetime` types guarantee of every present field. */
  predicate WellTyped(e: Event) {
    (e.startDate.Some? ==> ValidDate(e.startDate.value))
    && (e.endDate.Some? ==> ValidDate(e.endDate.value))
    && (e.startTime.Some? ==> ValidDateTime(e.startTime.value))
    && (e.endTime.Some? ==> ValidDateTime(e.endTime.value))
  }

  /** A `MoobloomEventRSVP` row. */
  datatype Rsvp = Rsvp(userId: UserId, eventId: nat, attendanceType: AttendanceType)

  /** A `GoogleApiUser` row: one user's linked Google credential. */
  datatype ApiUser = ApiUser(
    id: nat,
    userId: UserId,
    token: string,
    refreshToken: string,
    tokenUri: string,
    scopes: string,
    calendarId: Option<string>,
    setupFinished: bool)

  /** A `GoogleApiAuthSession` row: an OAuth state nonce awaiting its callback. */
  datatype AuthSession = AuthSession(state: string, userId: UserId)

  /** The private `__start_date` property: the start time wins over the start date. */
  function EffectiveStart(e: Event): (r: Result<Date, Exception>)
    ensures r.Err? <==> e.startTime.None? && e.startDate.None?
    ensures r.Err? ==> r.error == ValueError
    ensures e.startTime.Some? ==> r == Ok(e.startTime.value.date)
    ensures e.startTime.None? && e.startDate.Some? ==> r == Ok(e.startDate.value)
  {
    if e.startTime.Some? then Ok(e.startTime.value.date)
    else if e.startDate.Some? then Ok(e.startDate.value)
    else Err(ValueError)
  }

  /** The private `__end_date` property. */
  function EffectiveEnd(e: Event): (r: Result<Date, Exception>)
    ensures r.Err? <==> e.endTime.None? && e.endDate.None?
    ensures r.Err? ==> r.error == ValueError
    ensures e.endTime.Some? ==> r == Ok(e.endTime.value.date)
    ensures e.endTime.None? && e.endDate.Some? ==> r == Ok(e.endDate.value)
  {
    if e.endTime.Some? then Ok(e.endTime.value.date)
    else if e.endDate.Some? then Ok(e.endDate.value)
    else Err(ValueError)
  }

  function StartDay(e: Event): Result<int, Exception> {
    var d :- EffectiveStart(e); Ok(d.day)
  }

  function StartMonth(e: Event): Result<int, Exception> {
    var d :- EffectiveStart(e); Ok(d.month)
  }

  function StartYear(e: Event): Result<int, Exception> {
    var d :- EffectiveStart(e); Ok(d.year)
  }

  function EndDay(e: Event): Result<int, Exception> {
    var d :- EffectiveEnd(e); Ok(d.day)
  }

  function EndMonth(e: Event): Result<int, Exception> {
    var d :- EffectiveEnd(e); Ok(d.month)
  }

  function EndYear(e: Event): Result<int, Exception> {
    var d :- EffectiveEnd(e); Ok(d.year)
  }

  /** The derived day, month and year are those of the effective start and end. */
  lemma DerivedFieldsAgree(e: Event)
    ensures EffectiveStart(e).Ok? ==>
      var d := EffectiveStart(e).value;
      StartDay(e) == Ok(d.day) && StartMonth(e) == Ok(d.month) && StartYear(e) == Ok(d.year)
    ensures EffectiveEnd(e).Ok? ==>
      var d := EffectiveEnd(e).value;
      EndDay(e) == Ok(d.day) && EndMonth(e) == Ok(d.month) && EndYear(e) == Ok(d.year)
    ensures EffectiveStart(e).Err? ==> StartDay(e).Err? && StartMonth(e).Err? && StartYear(e).Err?
    ensures EffectiveEnd(e).Err? ==> EndDay(e).Err? && EndMonth(e).Err? && EndYear(e).Err?
  {
  }

  /** `has_end_date`. */
  function HasEndDate(e: Event): (b: bool)
    ensures b <==> EffectiveEnd(e).Ok?
  {
    e.endDate.Some? || e.endTime.Some?
  }
}

# moobot events core, in Dafny

moobot is a Discord bot that runs a community's event calendar. Events live
in a database table. A reconciliation pass runs every five minutes. It
announces new events in the announcement channel and creates a private
channel for each event that asks for one. It rebuilds the calendar digest
message, registers a reaction handler on every announcement, re-announces
edited events and puts the RSVP emojis under each announcement. RSVPs are
emoji reactions on an announcement. Adding one upserts the user's RSVP row,
opens the event channel to them and pushes the event to their Google
Calendar. Removing one withdraws the row and, when no yes or maybe remains,
closes the channel again. Users link a Google account through an OAuth
callback page. After that, every RSVP change is written to a calendar the
bot creates for them. Slash commands let users create, update and delete
events and list who is going. A loader seeds the table from a file.

The model is split into modules that follow the repository's files:

- **Models**: `moobot/db/models.py`. Holds the event and RSVP rows, the
  attendance types and the emoji mapping.
- **Db**: `moobot/db/crud/*.py` and the session. The `Store` class holds the
  event, RSVP, linked-account and auth-session tables and counts commits.
- **Platform**: stands in for Discord. The `Client` class keeps a log of the
  effects the bot makes and hands out the ids of messages and channels it
  creates.
- **Sweeps**: the shared shape of the reconciliation loops. **Reconcile**,
  **Digest**, **Rsvps** and **Handlers** model `moobot/events.py`.
- **Format** and **LegacyFormatting**: `moobot/util/format.py` and
  `moobot/util/formatting.py`.
- **Google**: `moobot/util/google.py`. Its `CalendarService` class logs the
  requests sent to Google.
- **DiscordBot**: `moobot/discord/discord_bot.py`. Holds the command registry
  and the routing of messages and reactions.
- **EventModal**: `moobot/discord/views/event_modal.py`. Holds the event
  form: reading the time and the description, and the pre-fill.
- **UpdateEventCommand**, **DeleteEventCommand**, **WhosGoing** and
  **EventOption**: the commands.
- **GoogleOauth**: the OAuth callback.
- **LoadEvents**: the loader.
- **Dates** and **Text**: calendar arithmetic and string helpers.

Methods that change state work on `Db.Store`, `Platform.Client`,
`Google.CalendarService` and `DiscordBot.Bot`. Each is proved against a
function of the old state. The lemmas beside those functions state what the
source promises.

Discord, Google and the clock are outside the model. Whatever the source
reads from them becomes a parameter: whether a channel exists, a message's
reactions, the channel history, a reply from Google, dateutil's parse
result, `now` and `today`. Whatever the source does to them is an entry in
an effect or request log.

Where the source and its documentation disagree, the model follows the
source:

- `moobot/db/models.py` declares no `create_channel`, `thumbnail_url`,
  `out_of_sync` or `deleted` columns. `moobot/events.py` and the commands
  read and write all four, so the model's event row carries them.
- `get_event_by_id` and `get_event_by_name` build the `deleted == False`
  filter and then drop its result. Deleted rows are therefore found, and the
  model finds them.
- `_parse_event_time` takes its times from dateutil's parser and compares
  them against the current time. Both are parameters here.
- The database is PostgreSQL (`moobot/db/session.py:13`), so an ascending
  `order_by` on a date puts rows without one last.

Three places where the source is evidently wrong are listed under
"## Findings". Each has a member for the code as written and a corrected
one. The operations that build on them use the corrected one, and
"## Left out" names each such operation.

## Model

| member | source | states |
|---|---|---|
| Models.FromStoredValue | moobot/db/models.py:74-77 | reading a stored attendance value gives the type stored under exactly that text; any other text raises ValueError |
| Models.StoredValueRoundTrip | moobot/db/models.py:74-77 | every attendance type survives a store/load round trip |
| Models.RsvpReactEmoji | moobot/db/models.py:89-97 | the emoji of a type is always one of the three configured RSVP emojis |
| Models.FromRsvpReactEmoji | moobot/db/models.py:79-87 | an emoji maps to a type exactly when it is one of the three RSVP emojis, and the type maps back to it; any other emoji raises NotImplementedError |
| Models.EmojiRoundTrip | moobot/db/models.py:79-97 | with distinct emojis, type → emoji → type is the identity |
| Models.DefaultEmojisDistinct | moobot/settings.py:21-23 | the default ✅ ❓ ❌ emojis are pairwise distinct, so the round trip holds for the shipped settings |
| Models.EffectiveStart | moobot/db/models.py:30-36 | the start time's date wins over the start date; with neither, ValueError |
| Models.EffectiveEnd | moobot/db/models.py:38-44 | the end time's date wins over the end date; with neither, ValueError |
| Models.DerivedFieldsAgree | moobot/db/models.py:46-68 | start/end day, month and year are those of the effective start/end date, and each raises exactly when that date is missing |
| Models.HasEndDate | moobot/db/models.py:70-71 | an event has an end date exactly when its effective end date exists |
| Dates.Weekday | moobot/util/format.py:19 | `strftime('%a')` reads a weekday in 0..6 |
| Dates.WeekdayAbbrev | moobot/util/format.py:19 | the weekday abbreviation is three letters |
| Dates.MonthName | moobot/util/format.py:20 | each month 1..12 has a name of at least three letters |
| Dates.NextDay | moobot/util/google.py:115 | `end_date + timedelta(days=1)` is the valid date one ordinal later, and overflows exactly at 9999-12-31 |
| Dates.Hour12 | moobot/util/format.py:16 | `%-I` is an hour in 1..12 |
| Dates.Hour12Inverse | moobot/util/format.py:16-17 | `%-I` with `%p` loses nothing: the 24-hour hour is recovered from them |
| Dates.InsertOn | moobot/events.py:249 | inserting into rows sorted by a date, missing dates last, keeps them sorted and adds exactly the one row |
| Dates.SortOn | moobot/events.py:249 | sorted by the date, missing dates last, and a permutation of the input |
| Platform.Client.constructor | moobot/discord/discord_bot.py:188 | a fresh client has made no effects |
| Platform.Client.Record | moobot/events.py:143 | one effect is appended to the log and nothing else changes |
| Platform.Client.NewId | moobot/events.py:143 | a created message or channel takes the next id from the counter, which then moves on; the log is unchanged |
| Platform.SyncRun | moobot/events.py:206-211 | the syncs made are a prefix of those asked for, all of them when none raises |
| Platform.SyncRunClean | moobot/events.py:206-211 | the run passes exactly when every user is found and no sync raises |
| Platform.SyncRunFailure | moobot/events.py:206-211 | a failed run stopped at the first bad sync: NotFound without making it for an unknown user, or its own exception after making it |
| Platform.SyncRunStops | moobot/events.py:207-211 | after an exception later syncs add nothing |
| Platform.RunSyncs | moobot/events.py:207-211 | the loop appends exactly `SyncRun`'s effects and returns its outcome |
| Db.Store.constructor | moobot/db/models.py:107 | new tables are empty, valid, and nothing is committed |
| Db.GetEventById | moobot/db/crud/events.py:6-13 | returns the row with that id, or None exactly when no row has it; deleted rows are not excluded |
| Db.EveryRowFoundById | moobot/db/crud/events.py:6-13 | every row, deleted or not, whatever `include_deleted` says, is found by its id |
| Db.GetEventByName | moobot/db/crud/events.py:16-23 | returns the first row with that name, or None exactly when no row has it |
| Db.CreateAuthSession | moobot/db/crud/google.py:6-14 | one auth session is appended; a commit is counted only when asked for |
| Db.FindAuthSession | moobot/db/crud/google.py:17-18 | the position of the first session holding the state, or None exactly when none does |
| Db.GetAuthSessionByState | moobot/db/crud/google.py:17-18 | a session with that state, or None exactly when none holds it |
| Db.CreateApiUser | moobot/db/crud/google.py:21-40 | one linked account is appended with a fresh id, no calendar and setup unfinished; a commit only when asked for |
| Db.FindApiUser | moobot/db/crud/google.py:43-44 | the position of the first account of the user, or None exactly when the user has none |
| Db.GetApiUserByUserId | moobot/db/crud/google.py:43-44 | an account of that user, or None exactly when there is none |
| Db.CreatedApiUserFound | moobot/db/crud/google.py:21-44 | an account just created is found by its user's id |
| Db.GetApiUsersBySetupFinished | moobot/db/crud/google.py:47-48 | exactly the accounts whose setup flag is the one asked for |
| Db.UpdateEvent | moobot/discord/commands/update_event.py:49-66 | a filtered update changes exactly the rows with that id and keeps the others and the order |
| Db.UpdateEventKeepsIds | moobot/discord/commands/update_event.py:49-66 | an update that keeps ids keeps every row's id |
| Sweeps.Step | moobot/events.py:100-101 | one row's turn keeps the table's length |
| Sweeps.Swept | moobot/events.py:100-101 | the loop over `n` rows keeps the table's length |
| Sweeps.SweptUntouched | moobot/events.py:91-101 | rows that are not selected, and rows not yet reached, are unchanged |
| Sweeps.SweptKeepsRows | moobot/events.py:91-101 | an action that keeps ids and types keeps them across the loop |
| Sweeps.SweptCounts | moobot/events.py:91-101 | a run without an exception takes one id, makes one effect and commits once per selected row, and only appends to the log |
| Sweeps.SweptMade | moobot/events.py:138-148 | each selected row holds what the action made of it, with the id numbered after the selected rows before it, and the log has that row's effect at that position |
| Sweeps.SweptFailure | moobot/events.py:91-101 | an exception that ends the loop is the action's own, raised on a selected row |
| Sweeps.SweptQuiet | moobot/events.py:91-101 | with nothing selected the loop changes nothing |
| Sweeps.SweepIdempotent | moobot/events.py:91-101 | when stored rows are no longer selected, a second clean run finds nothing to do |
| Sweeps.SweptNothingMade | moobot/events.py:91-101 | an action that always raises leaves table and log unchanged and raises exactly when some row is selected |
| Sweeps.SweptStops | moobot/events.py:100-101 | after an exception the later rows are not visited |
| Sweeps.Sweep | moobot/events.py:91-101 | the imperative loop's table, log, ids, commits and outcome are exactly `Swept`'s; other tables unchanged |
| Format.FormatEventDuration | moobot/util/format.py:7-55 | fails exactly when there is no start time and a date is missing: ValueError when both dates are missing, AttributeError otherwise |
| Format.FormatEventDurationForCalendar | moobot/util/format.py:58-117 | the same error cases as the announcement renderer |
| Format.CalendarMarker | moobot/util/format.py:124-131 | Today exactly when the event starts today; otherwise Ongoing exactly for a multi-day event whose dates span today; TypeError exactly when a date compared with today is missing (no start, or started with no end) |
| Format.FormatSingleEventForCalendar | moobot/util/format.py:120-132 | a line exactly when both the duration and the marker succeed, else the first of their errors; the line is `**📢  (Today!) d: name**`, `**📢  (Ongoing) d: name**` or `d: name` as the marker says |
| Format.ClockRoundTrip | moobot/util/format.py:16-17 | `%-I:%M %p` reads back as the original hour and minute |
| Format.ClockFieldsRoundTrip | moobot/util/format.py:16-17 | the hour text and the `MM AM/PM` text together recover hour and minute |
| FormatExamples.Weekdays | moobot/util/format.py:19 | 21/22 September 2024 are a Saturday and a Sunday |
| FormatExamples.Day21Text | moobot/util/format.py:50-53 | 21 September 2024 renders as "Sat. September 21" |
| FormatExamples.Day22Text | moobot/util/format.py:50-53 | 22 September 2024 renders as "Sun. September 22" |
| FormatExamples.Clock7PM | moobot/util/format.py:16 | 19:00 renders as "7:00 PM" |
| FormatExamples.Clock10PM | moobot/util/format.py:16 | 22:00 renders as "10:00 PM" |
| FormatExamples.ShortClocks | moobot/util/format.py:64-70 | on-the-hour digest clocks drop the minutes: 7, 10, 11, 1 |
| FormatExamples.ShortClock730 | moobot/util/format.py:66-67 | a digest clock off the hour keeps its minutes: "7:30" |
| FormatExamples.StartTimeOnlyExample | moobot/util/format.py:34-39 | a start time alone renders as "Sat. September 21 7:00 PM" |
| FormatExamples.SameDayExample | moobot/util/format.py:15-21 | same-day times render as "Sat. September 21 7:00 PM-10:00 PM" |
| FormatExamples.CrossDayExample | moobot/util/format.py:24-31 | cross-day times render with no space after "to" and two before the end month |
| FormatExamples.UntimedRangeExample | moobot/util/format.py:42-47 | an untimed range renders as "Sat. September 21 to Sun.  September 22" |
| FormatExamples.UntimedDayExample | moobot/util/format.py:50-53 | an untimed single day renders as the day alone |
| FormatExamples.DigestUntimedRangeExample | moobot/util/format.py:104-109 | the digest joins an untimed range with "-" |
| FormatExamples.DigestSharedMarkerExample | moobot/util/format.py:64-84 | same-day digest times sharing PM render as "Sat. September 21, 7-10 PM" |
| FormatExamples.DigestSplitMarkerExample | moobot/util/format.py:64-84 | different markers are written on each end: "11 AM-1 PM" |
| FormatExamples.DigestStartOnlyExample | moobot/util/format.py:96-101 | a digest start time alone keeps its minutes when off the hour |
| LegacyFormatting.FormatEventDuration | moobot/util/formatting.py:5-33 | fails exactly when no start time and no start date, and then with ValueError |
| LegacyFormatting.FormatEventDurationFixed | moobot/util/formatting.py:5-33 | the same error cases, with the same-day branch comparing whole dates |
| LegacyFormatting.Rest | moobot/util/formatting.py:15-33 | the branches after the same-day one fail exactly when there is no start at all |
| LegacyFormatting.DateRangeIgnoresStartTime | moobot/util/formatting.py:22-26 | with both dates and no end time, the date range is rendered whatever the start time |
| LegacyFormatting.FixedNamesEndDate | moobot/util/formatting.py:15-21 | the corrected renderer names the end's month and day whenever the two times fall on different dates |
| LegacyFormatting.DayOnlyComparisonDropsEndDate | moobot/util/formatting.py:11-14 | as written, 5 Jan 10 AM to 5 Feb 11 AM renders like a one-day event on 5 Jan, with February absent |
| LegacyFormatting.NoCapitalF | moobot/util/formatting.py:12-13 | a rendered clock contains no "F", so the month is the only place February could appear |
| Reconcile.AnnouncementTextOpens | moobot/events.py:109-112 | the announcement opens with the bold duration, with " - location" inside when the location is set |
| Reconcile.AnnouncementTextCloses | moobot/events.py:113-127 | the description appears between line breaks when set, and the text ends with the RSVP instructions |
| Reconcile.AnnouncementEmbedAsWritten | moobot/events.py:104-135 | as written, the embed exists exactly when the duration renders |
| Reconcile.ThumbnailShowsImage | moobot/events.py:132-133 | as written, an event whose thumbnail differs from its image is shown without its thumbnail |
| Reconcile.AnnouncementEmbed | moobot/events.py:104-135 | title and link are the event's; image and thumbnail shown exactly when set; text is the announcement text; a duration error is raised as is |
| Reconcile.EmbedsAgreeButThumbnail | moobot/events.py:104-135 | the corrected embed differs from the written one only in the thumbnail |
| Reconcile.AnnounceKeepsRows | moobot/events.py:138-148 | announcing keeps ids and types, and an announced row is no longer selected |
| Reconcile.SendEventAnnouncements | moobot/events.py:91-101 | the live unannounced rows are announced in table order through the shared loop; only their announcement ids and the commits change |
| Reconcile.AnnouncementStored | moobot/events.py:138-148 | after a clean run, each unannounced row stores the id of a message sent with its own embed, and nothing else of it changed |
| Reconcile.AnnouncementsNeedChannel | moobot/events.py:141 | without the announcement channel nothing is sent, and the pass raises exactly when some event awaits announcement |
| Reconcile.CreateChannelKeepsRows | moobot/events.py:323-343 | channel creation keeps ids and types, and a row given a channel is no longer selected |
| Reconcile.CreateEventChannels | moobot/events.py:214-225 | live rows that want a channel and have none get one in table order through the shared loop; only channel ids and commits change |
| Reconcile.ChannelsNeedCategoryAndRole | moobot/events.py:325-330 | with the category or role missing no channel is created, and the pass raises ValueError exactly when some event needs one |
| Reconcile.RsvpSyncs | moobot/events.py:206-211 | only syncs of the event's RSVPs, with their own attendance |
| Reconcile.RsvpSyncsComplete | moobot/events.py:206-211 | every RSVP of the event is synced |
| Reconcile.ResyncEffects | moobot/events.py:194-211 | an unannounced event or a missing channel raises ValueError and an announcement that cannot be fetched NotFound, all before any effect; otherwise the edit comes first, then the RSVP syncs until one raises (a user `fetch_user` cannot find raises NotFound); it passes exactly when the event is reachable, its embed builds and every sync is clean |
| Reconcile.ClearedUpTo | moobot/events.py:189 | the first `n` out-of-sync rows have their flag cleared and nothing else changes |
| Reconcile.ResyncQuiet | moobot/events.py:176-191 | a table with no row out of sync makes nothing |
| Reconcile.ResyncedEvent | moobot/events.py:185-189 | after a clean run, every out-of-sync row's edit and syncs are in the log |
| Reconcile.ResyncLogGrows | moobot/events.py:185-189 | each row's turn only appends to the log |
| Reconcile.ResyncIdempotent | moobot/events.py:176-191 | once flags are cleared and committed, a second run re-announces nothing |
| Reconcile.PushEventUpdate | moobot/events.py:187-211 | appends exactly `ResyncEffects`' effects, the syncs made one by one until one raises, and returns its outcome |
| Reconcile.ResyncProgressStep | moobot/events.py:185-189 | the loop's progress after one more row |
| Reconcile.ClearedNext | moobot/events.py:189 | row `i`'s turn clears its own flag, if it was set, and nothing else |
| Reconcile.ResyncRow | moobot/events.py:186-189 | one row's turn, as a step of the loop's progress |
| Reconcile.UpdateOutOfSyncEvents | moobot/events.py:176-191 | effects and outcome are `Resynced`'s; on success the flags are cleared in one commit; on an exception the tables are unchanged while effects already made stay made |
| Reconcile.ResyncLoop | moobot/events.py:185-189 | the loop yields `Resynced`'s effects and outcome and, when clean, the rows with all flags cleared |
| Reconcile.ClearedKeepsValid | moobot/events.py:189-191 | clearing flags keeps the key unique and the rows well typed |
| Reconcile.ResyncStops | moobot/events.py:185-189 | after an exception, later rows add nothing |
| Reconcile.ResyncPasses | moobot/events.py:176-211 | the pass ends without an exception when every out-of-sync row is reachable, its embed builds and all its syncs are clean |
| Reconcile.EmojiEffects | moobot/events.py:169-172 | the three RSVP emojis, yes/maybe/no in that order, are added exactly when the message has no reactions at all |
| Reconcile.EventEmojis | moobot/events.py:164-173 | the announcement channel must exist (ValueError) and the announcement must be fetched (NotFound); then `EmojiEffects` |
| Reconcile.EmojisOnlyOnBareAnnouncements | moobot/events.py:169-172 | every emoji added lands on a fetched announcement that had no reactions, so a second run adds none |
| Reconcile.AddEventRsvpEmojis | moobot/events.py:151-161 | appends exactly the emoji run's effects over the live events and returns its outcome |
| Reconcile.DeleteEventAnnouncement | moobot/events.py:600-607 | nothing for an unannounced event; otherwise deletion succeeds exactly when the channel exists and the message is live, with ValueError/NotFound otherwise |
| Digest.SortByStart | moobot/events.py:249 | `order_by(start_date)`: sorted with missing dates last, and a permutation of the input |
| Digest.UpcomingEvents | moobot/events.py:245-251 | sorted by start, and a permutation of the live rows ending today or later |
| Digest.UpcomingEventsExact | moobot/events.py:245-251 | a row is listed exactly when it is live and ends today or later |
| Digest.FindGroup | moobot/events.py:256 | the dictionary lookup finds the month's group, or reports none has that key |
| Digest.Grouped | moobot/events.py:253-258 | grouping raises AttributeError exactly when some row has no start date |
| Digest.GroupedPartitions | moobot/events.py:253-258 | each month's list holds exactly that month's rows in query order, and every row has its month |
| Digest.AddPartitions | moobot/events.py:255-258 | adding one row keeps the partition |
| Digest.AddToMonth | moobot/events.py:258 | a row of a listed month goes at the end of that month's list |
| Digest.AddMonth | moobot/events.py:256-258 | a row of a new month opens that month last |
| Digest.MonthsInCalendarOrder | moobot/events.py:253-271 | since rows come sorted, months come out in calendar order, the last being the last row's |
| Digest.AddInOrder | moobot/events.py:255-258 | a row no earlier than the last month joins it or opens a new last one |
| Digest.GroupByMonth | moobot/events.py:253-258 | the imperative grouping loop computes `Grouped` |
| Digest.ErrorPersists | moobot/events.py:254-255 | an exception raised in the first `n` rows is the grouping's exception |
| Digest.EventLines | moobot/events.py:262-264 | one line per event |
| Digest.EventLineAt | moobot/events.py:263 | line `k` is the rendering of row `k` |
| Digest.MonthSections | moobot/events.py:266-271 | one section per month |
| Digest.MonthSectionAt | moobot/events.py:268 | section `i` is month `i`'s heading followed by its lines |
| Digest.NoEventsIffNoMonths | moobot/events.py:272-273 | "No upcoming events!" shows exactly when there is no month |
| Digest.ContentNeedsGrouping | moobot/events.py:240-299 | the digest is built exactly when grouping succeeds, and otherwise raises AttributeError |
| Digest.LinesNeverFail | moobot/events.py:260-264 | once every upcoming row has a start date, no line fails |
| Digest.LineOk | moobot/util/format.py:120-132 | a row with both dates always renders |
| Digest.ContentIsLayout | moobot/events.py:275-299 | the digest is the intro, header, month text and the two opt-in sections |
| Digest.EveryUpcomingEventListed | moobot/events.py:245-299 | every live upcoming event's line appears in the digest |
| Digest.CalendarMessage | moobot/events.py:228-237 | the bot's most recent message in the history read, or None exactly when the bot has none there |
| Digest.FindCalendarMessage | moobot/events.py:231-237 | the imperative history loop computes `CalendarMessage` |
| Digest.ReactionIfMissing | moobot/events.py:316-320 | the emoji is added exactly when the bot has not already reacted with it |
| Digest.AddReactionIfMissing | moobot/events.py:316-320 | appends exactly `ReactionIfMissing` |
| Digest.CalendarEffects | moobot/events.py:301-313 | no message: send plus three reactions on the new id; an existing one is edited exactly when stale, and only reactions follow |
| Digest.CalendarUpdate | moobot/events.py:240-313 | a missing calendar or announcement channel raises ValueError; effects are made only when both custom emojis are found |
| Digest.PublishCalendar | moobot/events.py:301-313 | appends `CalendarEffects` for the current message and takes one id only when a message is sent |
| Digest.CalendarUpdateCases | moobot/events.py:240-313 | the four ends: ValueError for a missing channel, AttributeError from grouping, RuntimeError when a custom emoji is missing, or the effects for the built digest |
| Digest.UpdateCalendarMessage | moobot/events.py:240-313 | outcome and effects are `CalendarUpdate`'s; an exception makes nothing |
| Rsvps.FindRsvp | moobot/events.py:410-415 | the first row of that user and event, or None exactly when there is none |
| Rsvps.UpdateRsvp | moobot/events.py:408-423 | the RSVP table becomes `Upserted` and one commit is counted |
| Rsvps.UpsertedContents | moobot/events.py:408-423 | after an upsert the user holds one row, with the new type; other pairs' rows are unchanged; the table grows only for a new pair |
| Rsvps.LatestReactionWins | moobot/events.py:408-423 | reacting again leaves one row with the latest type |
| Rsvps.FindTypedRsvp | moobot/events.py:428-434 | finds the row with that user, event and type, or None exactly when there is none |
| Rsvps.RemoveRsvp | moobot/events.py:426-437 | the matching row is withdrawn and committed, or nothing happens |
| Rsvps.RemovedContents | moobot/events.py:426-437 | withdrawing a type not held changes nothing; withdrawing the held type deletes exactly that row |
| Rsvps.SwitchKeepsActiveRsvp | moobot/events.py:487-488 | switching yes → maybe keeps an active RSVP, because the stale yes removal finds nothing |
| Google.EventId | moobot/util/google.py:91-92 | the calendar event id starts with "moob" |
| Google.EventIdInjective | moobot/util/google.py:91-92 | distinct events never share a calendar event id |
| Google.StartField | moobot/util/google.py:98-102 | start is the start time, else the start date; with neither, AttributeError |
| Google.EndField | moobot/util/google.py:104-117 | the end time, else 23:59 of the start day, else the date; fails exactly on missing dates or the overflow at 9999-12-31 |
| Google.AllDayEndIsExclusive | moobot/util/google.py:113-117 | an untimed multi-day event ends the day after its stored end; a one-day event ends on its own day |
| Google.BuildEvent | moobot/util/google.py:95-136 | building fails exactly when start or end fails, with the start's error first |
| Google.BuiltEventKeys | moobot/util/google.py:119-133 | the five required keys, plus location and description exactly when set |
| Google.BuiltEventValues | moobot/util/google.py:119-133 | stable id, name, start, end, attendance status, and location and description as set |
| Google.CalendarService.constructor | moobot/util/google.py:72-82 | a new service has sent no requests |
| Google.CalendarService.CreateCalendar | moobot/util/google.py:85-88 | sends one insert and returns the new calendar's id or the reply's error |
| Google.CalendarService.AddOrUpdateEvent | moobot/util/google.py:139-175 | requests are `UpsertRequests` and the outcome is `UpsertOutcome` |
| Google.CalendarService.Write | moobot/util/google.py:155-175 | the write half of the upsert |
| Google.UpsertRequests | moobot/util/google.py:145-168 | a get by stable id, then an update of the fetched event overlaid with the built one, or an insert after a 404 |
| Google.UpsertOutcome | moobot/util/google.py:147-175 | get errors other than 404, then build errors, then write errors are raised; a 404 on insert is swallowed |
| Google.Upserted | moobot/util/google.py:157-168 | the calendar afterwards holds the event under its id, the built keys overriding the old ones |
| Google.UpsertIdempotent | moobot/util/google.py:139-175 | syncing the same event twice equals syncing it once |
| Google.GetGoogleAuthUrl | moobot/util/google.py:49-62 | records the flow's state for the user in one commit and returns the flow's URL |
| Handlers.EventChannel | moobot/events.py:457-463 | the event's own channel when it asked for one and has one; a recorded channel the guild lacks raises ValueError |
| Handlers.RemovalsOf | moobot/events.py:480-483 | only the user's reactions on this announcement are removed |
| Handlers.OtherReactionsRemoved | moobot/events.py:480-483 | the two other types' reactions are removed, never the one just added |
| Handlers.AddedReactionEffects | moobot/events.py:465-483 | an added reaction grants access exactly for yes/maybe on an event with a channel, syncs the new type and never revokes |
| Handlers.RemovedReactionEffects | moobot/events.py:484-502 | a removed reaction revokes access and syncs "no" exactly when no yes/maybe remains |
| Handlers.OnEventMessageReaction | moobot/events.py:443-502 | non-members get ValueError, other emojis are ignored, a missing channel raises; otherwise the added branch ends as `AddedDone` and the removed one as `RemovedOutcome` |
| Handlers.HandleAdded | moobot/events.py:465-483 | upsert and commit, grant, sync; an exception from the sync ends it; then an unannounced event raises TypeError and an announcement that cannot be fetched NotFound; otherwise the other two reactions are removed |
| Handlers.RemoveOtherReactions | moobot/events.py:480-483 | appends exactly `RemovalsOf` |
| Handlers.HandleRemoved | moobot/events.py:484-502 | withdrawal, then revoke and "no" sync exactly when no active RSVP remains; the outcome is `RemovedOutcome` |
| Handlers.RemovedOutcome | moobot/events.py:490-502 | the removal raises exactly when no active RSVP remains and the "no" sync raises |
| Handlers.OnCalendarMessageReaction | moobot/events.py:394-402 | all-events emoji adds or removes the role; sync emoji sends the auth link or unlinks the account; non-members get ValueError |
| Handlers.SyncOnRsvp | moobot/events.py:510-550 | users without a linked account are skipped; otherwise a missing calendar is created and stored first, then the event is upserted; RefreshError unlinks and sends one DM |
| Handlers.SyncAccount | moobot/events.py:522-547 | the worker for a given linked account |
| Handlers.EnsureCalendar | moobot/events.py:526-533 | the stored calendar, or a new one whose id is stored and committed before use |
| Handlers.PushEvent | moobot/events.py:535-547 | the upsert's requests; RefreshError deletes the account, commits and sends a DM; other errors are raised |
| Handlers.SetupSyncs | moobot/events.py:567-581 | one yes/maybe sync of the given user per carried-over RSVP |
| Handlers.SetupRsvps | moobot/events.py:567-575 | the user's yes/maybe RSVPs of events ending today or later, each once, sorted by the event's start with missing dates last |
| Handlers.SetupSyncsExact | moobot/events.py:567-581 | a sync is made exactly for each carried-over RSVP, with its own attendance |
| Handlers.SetupSyncsInOrder | moobot/events.py:573-581 | the syncs come in the order of their events' start dates |
| Handlers.AccountSetup | moobot/events.py:560-589 | a finished account makes nothing; a user `fetch_user` cannot find raises NotFound; otherwise syncs run until one raises, and only a clean run ends with the DM |
| Handlers.AccountSetupMessage | moobot/events.py:583-588 | an account's turn sends the DM exactly when it was unfinished and its syncs were clean |
| Handlers.Setups | moobot/events.py:560-589 | accounts in table order until the first exception; `done` counts those completed |
| Handlers.SetupsStop | moobot/events.py:560-589 | after an exception later accounts add nothing |
| Handlers.SetupsPass | moobot/events.py:560-589 | the run ends without an exception when every unfinished account's user is found and its syncs are clean |
| Handlers.SetupStep | moobot/events.py:560-589 | one more account: nothing after an exception; otherwise its effects are appended and `done` advances when it passes; the unfinished count grows by its own |
| Handlers.SetupCompleteMessages | moobot/events.py:583-588 | a user is told setup is complete exactly when one of their unfinished accounts was completed before any exception |
| Handlers.FinishedSetupsAreQuiet | moobot/events.py:554-559 | once every setup is finished, nothing is sent |
| Handlers.CompleteUnfinishedSetups | moobot/events.py:553-589 | effects and outcome are `Setups`'; the accounts completed are marked finished, one commit per unfinished one; the rest are unchanged |
| Handlers.ProgressStep | moobot/events.py:561-589 | finishing one account advances the setup's progress |
| Handlers.FinishSetup | moobot/events.py:560-589 | one account: its syncs until one raises; on a clean run the flag is set, committed if it was unfinished, and the DM sent |
| Handlers.MarkSetupFinished | moobot/events.py:583-588 | that account's setup flag is set and committed, and its user gets the one DM; nothing else changes |
| DiscordBot.FirstMention | moobot/discord/discord_bot.py:82-83 | the leftmost match of `<@!?id>` at or after `j`, or none |
| DiscordBot.RemoveFirstMention | moobot/discord/discord_bot.py:83 | the text is unchanged exactly when it has no mention |
| DiscordBot.GetCommandFromMessage | moobot/discord/discord_bot.py:74-91 | a command exactly when the bot is mentioned or the prefix opens the text; the command is stripped |
| DiscordBot.MentionCutOut | moobot/discord/discord_bot.py:83 | exactly the leftmost mention, in either form, is cut and the text on both sides kept |
| DiscordBot.MentionForms | moobot/discord/discord_bot.py:82 | a mention is `<@id>` or `<@!id>` |
| DiscordBot.MentionedCommand | moobot/discord/discord_bot.py:81-84 | a message opening with the mention gives the stripped rest, whatever the prefix |
| DiscordBot.PrefixedCommand | moobot/discord/discord_bot.py:87-89 | text after the prefix, stripped, is the command |
| DiscordBot.MentionTakesPrecedence | moobot/discord/discord_bot.py:81-89 | with a mention the prefix plays no part |
| DiscordBot.TrimmedAnchorsAtEnd | moobot/discord/discord_bot.py:105 | for a stripped command, `$` anchors at the end of the text |
| DiscordBot.MatchesBodyIgnoresCase | moobot/discord/discord_bot.py:146 | pattern bodies match regardless of case |
| DiscordBot.MatchIgnoresCase | moobot/discord/discord_bot.py:146 | a command matches exactly when its lower-case form does |
| DiscordBot.AddArgument | moobot/discord/discord_bot.py:162-164 | the add argument is non-empty and one line |
| DiscordBot.AddArgumentUnquotes | moobot/discord/discord_bot.py:162-164 | a quoted argument loses its backticks; an unquoted one is passed as is |
| DiscordBot.Dispatch | moobot/discord/discord_bot.py:104-117 | the first registered pattern that matches, or none exactly when none matches |
| DiscordBot.Registered | moobot/discord/discord_bot.py:145-147 | patterns stay distinct and the registered one maps to the new command |
| DiscordBot.RegisteredEntries | moobot/discord/discord_bot.py:145-147 | a re-registered regex keeps its place; a new one goes last; others are unchanged |
| DiscordBot.OpensWithFixedText | moobot/discord/discord_bot.py:157-175 | a matched command opens with its pattern's fixed text, ignoring case |
| DiscordBot.BuiltInPatternsDisjoint | moobot/discord/discord_bot.py:157-175 | no command matches two built-in patterns |
| DiscordBot.CommandRegistry.constructor | moobot/discord/discord_bot.py:34 | the registry starts empty |
| DiscordBot.CommandRegistry.Register | moobot/discord/discord_bot.py:137-149 | the entries become `Registered` |
| DiscordBot.Routed | moobot/discord/discord_bot.py:93-117 | the bot's own messages run nothing; a routed command is the message's command and the first matching pattern's |
| DiscordBot.RoutedTo | moobot/discord/discord_bot.py:104-117 | the first matching pattern decides the route |
| DiscordBot.FirstMatching | moobot/discord/discord_bot.py:104-117 | the imperative loop computes `Dispatch` |
| DiscordBot.WithEventHandler | moobot/events.py:504-506 | registration raises ValueError exactly without the channel or the announcement; otherwise the announcement's id is added |
| DiscordBot.HandlersOnlyGrow | moobot/events.py:592-597 | handlers are never unregistered |
| DiscordBot.RegistrationFails | moobot/events.py:592-597 | the loop raises ValueError exactly when a live row reached cannot be registered |
| DiscordBot.EveryLiveEventRegistered | moobot/events.py:592-597 | after a clean loop every live announcement reaches its event's handler, and other messages keep theirs |
| DiscordBot.Bot.constructor | moobot/discord/discord_bot.py:50-61 | starts with no reaction handlers |
| DiscordBot.Bot.OnMessage | moobot/discord/discord_bot.py:93-117 | runs `Routed`'s command; an exception is answered with an apology and re-raised |
| DiscordBot.Bot.Route | moobot/discord/discord_bot.py:93-106 | computes `Routed` |
| DiscordBot.Bot.OnReactionChange | moobot/discord/discord_bot.py:119-134 | no handler: ignored; a missing guild or cached user raises ValueError, an empty member query IndexError; otherwise the handler is called with the looked-up user, a member exactly when the reaction came from a guild |
| DiscordBot.Bot.AddEventReactionHandler | moobot/events.py:440-506 | the handler map becomes `WithEventHandler`'s; unchanged on failure |
| DiscordBot.Bot.AddCalendarReactionHandler | moobot/events.py:346-405 | fails exactly without the channel, a custom emoji or the bot's message: ValueError for the channel, then RuntimeError for an emoji, then ValueError for the message; otherwise the calendar message gets its handler |
| DiscordBot.Bot.AddReactionHandlers | moobot/events.py:592-597 | the calendar handler first, failing as `AddCalendarReactionHandler` does, then every live event in table order |
| DiscordBot.RegisteredStops | moobot/events.py:592-597 | after a failed registration, later rows change nothing |
| DiscordBot.ReactionReachesItsEvent | moobot/discord/discord_bot.py:119-134 | after a clean registration, a reaction reaches the handler of the event it is on |
| EventModal.NextYear | moobot/discord/views/event_modal.py:54 | the same day and time a year later; 29 February without a counterpart or a year past 9999 raises ValueError |
| EventModal.BumpIfPast | moobot/discord/views/event_modal.py:49-59 | a time before now moves a year on; any other time is kept |
| EventModal.ParseOrFail | moobot/discord/views/event_modal.py:39-42 | dateutil's result, or ValueError exactly when it cannot parse |
| EventModal.RangeEnd | moobot/discord/views/event_modal.py:42-45 | an end with no day of its own takes the start's day and keeps its own hour |
| EventModal.EventTimeOf | moobot/discord/views/event_modal.py:34-71 | more than two parts raise ValueError; every error is ValueError |
| EventModal.ParseEventTime | moobot/discord/views/event_modal.py:34-71 | the imperative reading computes `EventTimeOf` |
| EventModal.StartNotAfterEnd | moobot/discord/views/event_modal.py:61-64 | a time that was read starts no later than it ends |
| EventModal.SingleTime | moobot/discord/views/event_modal.py:46-47 | a single time ends the day it starts, with no end time, and has a start time exactly when an hour was given |
| EventModal.EndTakesStartDay | moobot/discord/views/event_modal.py:43-45 | "9/21 7pm to 10pm" ends on the start's day |
| EventModal.PastStartMovesAYear | moobot/discord/views/event_modal.py:50-54 | a start before now moves exactly one year on |
| EventModal.SchemeLength | moobot/discord/views/event_modal.py:23 | `http(s)?://` has length 7 or 8 |
| EventModal.NonSpaceRun | moobot/discord/views/event_modal.py:23 | `\S+` is the longest prefix without whitespace |
| EventModal.UrlAtStart | moobot/discord/views/event_modal.py:23 | the URL that opens the text runs to the first whitespace |
| EventModal.UrlAtStartExtends | moobot/discord/views/event_modal.py:23 | a whole URL followed by whitespace or nothing is matched up to the whitespace |
| EventModal.FieldValue | moobot/discord/views/event_modal.py:94-97 | the URL found follows the key at the start of the line |
| EventModal.LastField | moobot/discord/views/event_modal.py:93-97 | the value of the last line that gives one, or none exactly when no line does |
| EventModal.RemoveFirst | moobot/discord/views/event_modal.py:100-102 | `list.remove` takes out the first equal line, or raises ValueError exactly when there is none |
| EventModal.AfterLink | moobot/discord/views/event_modal.py:88-91 | the link is the URL, and an image follows exactly when the next line is a URL |
| EventModal.FieldLines | moobot/discord/views/event_modal.py:92-102 | the keys keep the last values given; errors are ValueError |
| EventModal.DescribedAsWritten | moobot/discord/views/event_modal.py:81-110 | no description gives all None; the parser as written can raise ValueError or IndexError |
| EventModal.DescribedOf | moobot/discord/views/event_modal.py:81-110 | the corrected parser raises only ValueError |
| EventModal.DescribedAgreeButIndexError | moobot/discord/views/event_modal.py:88-91 | the two parsers differ only where the one as written raises IndexError |
| EventModal.ParseEventDescription | moobot/discord/views/event_modal.py:81-110 | the in-place pop/remove reading computes `DescribedAsWritten` |
| EventModal.UrlLine | moobot/discord/views/event_modal.py:94-95 | `url:` + a URL gives that URL for `url:` only |
| EventModal.ImageLine | moobot/discord/views/event_modal.py:96-97 | `image_url:` + a URL gives that URL for `image_url:` only |
| EventModal.LoneUrlRaisesIndexError | moobot/discord/views/event_modal.py:88-91 | a description that is one URL raises IndexError as written |
| EventModal.LoneUrlIsTheLink | moobot/discord/views/event_modal.py:88-91 | the corrected parser reads a lone URL as the event's link |
| EventModal.LeadingUrls | moobot/discord/views/event_modal.py:88-91 | two opening URLs are link and image, and the rest is the description |
| EventModal.TrailingTextRejected | moobot/discord/views/event_modal.py:99-100 | a `url:` line with text after its URL raises ValueError |
| EventModal.Kept | moobot/discord/views/event_modal.py:155-156 | `value or None` |
| EventModal.OptionalLine | moobot/discord/views/event_modal.py:155-156 | a line exactly when the value is set and non-empty |
| EventModal.LinkLines | moobot/discord/views/event_modal.py:154-156 | at most the two link lines |
| EventModal.DescriptionLines | moobot/discord/views/event_modal.py:154-158 | no lines exactly when no link or description is set; none empty |
| EventModal.PrefilledDescription | moobot/discord/views/event_modal.py:172-174 | a default exactly when there are description lines, and it is non-empty |
| EventModal.FieldLinesReadBack | moobot/discord/views/event_modal.py:92-102 | the link lines read back as their links and are taken out |
| EventModal.PrefillRoundTrip | moobot/discord/views/event_modal.py:153-174 | pre-filling and reading back gives the event's description and links again |
| EventModal.ScanFields | moobot/discord/views/event_modal.py:93-97 | the imperative scan computes `LastField` for both keys |
| EventModal.KeysExclusive | moobot/discord/views/event_modal.py:94-97 | no line gives both keys, so the `elif` hides nothing |
| EventModal.PrefillGives | moobot/discord/views/event_modal.py:160-174 | exactly the inputs that have a default get it |
| EventModal.CreateEventModal.constructor | moobot/discord/views/event_modal.py:138-151 | filled from the pre-fill event when one is given, empty otherwise |
| EventModal.CreateEventModal.PrefillFields | moobot/discord/views/event_modal.py:153-174 | each input gets its default if it has one; the others keep theirs |
| EventModal.OnSubmit | moobot/discord/views/event_modal.py:176-216 | the time is rejected exactly when unreadable; the description only then; otherwise the event is built from the inputs |
| EventModal.ResubmitKeepsEvent | moobot/discord/views/event_modal.py:153-216 | an untouched pre-filled form gives back the event's fields |
| UpdateEventCommand.Overwritten | moobot/discord/commands/update_event.py:49-65 | the form's eleven columns overwrite the row; out_of_sync is set; the other columns are the row's own |
| UpdateEventCommand.UpdateEventCallback | moobot/discord/commands/update_event.py:35-73 | a rename is refused exactly when the original has a channel name that the form changes; otherwise the row is overwritten in one commit |
| UpdateEventCommand.UpdateReachesOnlyOriginal | moobot/discord/commands/update_event.py:49-66 | only the original's row changes |
| UpdateEventCommand.OverwriteIdempotent | moobot/discord/commands/update_event.py:49-66 | submitting the same form twice equals once |
| UpdateEventCommand.AddingChannelNameAccepted | moobot/discord/commands/update_event.py:39 | an event without a channel name may be given one |
| UpdateEventCommand.UnchangedFormAccepted | moobot/discord/commands/update_event.py:39-45 | an untouched pre-filled form is accepted |
| DeleteEventCommand.RsvpsOf | moobot/discord/commands/delete_event.py:39 | exactly the event's RSVP rows |
| DeleteEventCommand.NoSyncs | moobot/discord/commands/delete_event.py:39-40 | one "no" sync per RSVP, in order |
| DeleteEventCommand.NoSyncsAppend | moobot/discord/commands/delete_event.py:39-40 | the syncs of one more RSVP |
| DeleteEventCommand.ScheduleNoSyncs | moobot/discord/commands/delete_event.py:39-40 | appends exactly `NoSyncs` |
| DeleteEventCommand.DeleteEvent | moobot/discord/commands/delete_event.py:25-60 | unconfirmed: the reply to the deferred interaction raises InteractionResponded and nothing changes; an announcement failure changes nothing; otherwise delete, "no" syncs, and the rows removed in one commit |
| DeleteEventCommand.FilterKeepsValid | moobot/discord/commands/delete_event.py:42-44 | deleting rows keeps the table valid |
| DeleteEventCommand.DeletionRemovesExactlyTheEvent | moobot/discord/commands/delete_event.py:42-44 | the event and its RSVPs go, every other row stays |
| DeleteEventCommand.EveryRsvpSyncedNo | moobot/discord/commands/delete_event.py:39-40 | every RSVPed user is synced as not going |
| WhosGoing.UsersOf | moobot/discord/commands/whos_going.py:21-23 | a group is no longer than the RSVPs |
| WhosGoing.UserIds | moobot/discord/commands/whos_going.py:22-23 | the RSVPs' users in order |
| WhosGoing.UsersOfAppend | moobot/discord/commands/whos_going.py:22-23 | one more RSVP appends its user to its own answer's list only |
| WhosGoing.UsersOfPartition | moobot/discord/commands/whos_going.py:21-23 | the three groups together list every RSVP exactly once |
| WhosGoing.ListedUnderOwnAnswer | moobot/discord/commands/whos_going.py:21-23 | a user is listed under an answer exactly when they gave it |
| WhosGoing.GroupedStep | moobot/discord/commands/whos_going.py:22-23 | one more RSVP updates its answer's entry |
| WhosGoing.Group | moobot/discord/commands/whos_going.py:21-23 | the imperative loop computes the grouping |
| WhosGoing.UserLines | moobot/discord/commands/whos_going.py:29-31 | one `- <@id>` line per user |
| WhosGoing.WhosGoingReply | moobot/discord/commands/whos_going.py:18-40 | the reply for the grouped RSVPs |
| WhosGoing.MentionOneLine | moobot/discord/commands/whos_going.py:30 | a user line contains no line break |
| WhosGoing.SectionListsUsers | moobot/discord/commands/whos_going.py:25-31 | "None" exactly for an empty group; otherwise one line per user, each reading back as its user |
| WhosGoing.UserLineReadBack | moobot/discord/commands/whos_going.py:30 | a user line reads back as its user id |
| EventOption.ChoiceName | moobot/discord/event_option.py:12-17 | fails exactly when the duration does; otherwise starts with the name and " - " |
| EventOption.InsertPermutes | moobot/discord/event_option.py:25 | insertion adds exactly one row |
| EventOption.InsertOrdered | moobot/discord/event_option.py:25 | insertion keeps ids descending |
| EventOption.NewestFirstPermutes | moobot/discord/event_option.py:22-27 | the query returns the live rows, each once |
| EventOption.NewestFirstOrdered | moobot/discord/event_option.py:25 | the rows come with ids strictly decreasing |
| EventOption.NewestFirstRows | moobot/discord/event_option.py:22-27 | a row is returned exactly when it is live |
| EventOption.RowsOf | moobot/discord/event_option.py:30-33 | one row view per event |
| EventOption.Choices | moobot/discord/event_option.py:30-33 | raises exactly when some row's name does |
| EventOption.ChoicesSound | moobot/discord/event_option.py:30-33 | every choice belongs to a matching row |
| EventOption.ChoicesComplete | moobot/discord/event_option.py:30-33 | every matching row is offered |
| EventOption.ChoicesNewestFirst | moobot/discord/event_option.py:31 | choice values are decimal ids in decreasing order |
| EventOption.QueryRows | moobot/discord/event_option.py:22-27 | exactly the live rows, newest first |
| EventOption.AutocompleteRaises | moobot/discord/event_option.py:20-34 | raises exactly when some live event's name fails |
| EventOption.AutocompleteSound | moobot/discord/event_option.py:20-34 | at most 25 choices, each of a live event matching case-insensitively, ids decreasing |
| EventOption.AutocompleteComplete | moobot/discord/event_option.py:20-34 | when at most 25 match, all are offered |
| EventOption.Digits | moobot/discord/event_option.py:40 | dropping the underscores of `int()`'s literal leaves only digits |
| EventOption.ParseIntRoundTrip | moobot/discord/event_option.py:31-40 | a rendered id parses back to itself |
| EventOption.UnsignedLiteral | moobot/discord/event_option.py:40 | plain digits give their value |
| EventOption.NegativeLiteral | moobot/discord/event_option.py:40 | a minus sign negates |
| EventOption.DigitsLiteral | moobot/discord/event_option.py:40 | digits are a literal of their value |
| EventOption.DigitsNoUnderscore | moobot/discord/event_option.py:40 | digits without underscores are unchanged |
| EventOption.StripNoWhitespace | moobot/discord/event_option.py:40 | text without whitespace is not stripped |
| EventOption.GetEventFromOption | moobot/discord/event_option.py:37-48 | returns a row found by id or, failing that, by exact name |
| EventOption.IdArgumentFindsRow | moobot/discord/event_option.py:39-43 | an id argument gives that row, deleted or not |
| EventOption.ChosenValueFindsItsEvent | moobot/discord/event_option.py:31-43 | a chosen value finds its own event |
| EventOption.ParseIntNegative | moobot/discord/event_option.py:40 | `int("-digits")` is negative |
| EventOption.NegatedNotStripped | moobot/discord/event_option.py:40 | a negated literal needs no stripping |
| EventOption.LiteralRejects | moobot/discord/event_option.py:40 | `int()` rejects double, leading or trailing underscores, a bare sign and the empty text |
| EventOption.FallsBackToName | moobot/discord/event_option.py:44-48 | an argument that is not a row's id is looked up by name |
| GoogleOauth.Holding | moobot/fastapi/routers/google_oauth.py:28 | zero exactly when no session holds the state |
| GoogleOauth.HandleOauthResponse | moobot/fastapi/routers/google_oauth.py:16-51 | a missing code or unknown state changes nothing; success consumes the session and links the account in one commit |
| GoogleOauth.RemoveOneHolder | moobot/fastapi/routers/google_oauth.py:36 | removing one holder leaves one fewer |
| GoogleOauth.HoldingAdditive | moobot/fastapi/routers/google_oauth.py:28 | the count over a concatenation is the sum of the counts |
| GoogleOauth.StateConsumedOnce | moobot/fastapi/routers/google_oauth.py:28-47 | a state held once cannot succeed twice |
| LoadEvents.Names | moobot/load_events.py:18 | exactly the names in the table, deleted rows included |
| LoadEvents.Numbered | moobot/load_events.py:27 | added rows get consecutive ids from the sequence |
| LoadEvents.NumberedAppend | moobot/load_events.py:26-27 | numbering one more entry |
| LoadEvents.AddNewEntries | moobot/load_events.py:20-27 | ValueError exactly when a new entry's date fails; otherwise the new entries, numbered, and their count |
| LoadEvents.AppendNumberedKeepsValid | moobot/load_events.py:27-29 | appended rows keep the table valid |
| LoadEvents.LoadEventsFromFile | moobot/load_events.py:13-31 | an error leaves everything unchanged; otherwise the new entries are stored in file order in one commit and counted |
| LoadEvents.SkipsExistingNames | moobot/load_events.py:22-23 | an entry is added exactly when its name was not already in the table |
| LoadEvents.NewEntriesAllAdded | moobot/load_events.py:18-27 | names are read once, so same-named new entries are all added; added plus skipped is the file |

## Left out

- Discord, Google and HTTP calls are not run. Each becomes an effect in
  `Platform.Client`'s log or a request in `Google.CalendarService`'s log.
  What they answer is a parameter.
- SQL row order is table order wherever the query has no `order_by`. Ties
  in `order_by(start_date)` are broken by table order too. Sessions, their
  close and rollback are modelled only as a commit count.
- `asyncio.gather` in `add_event_rsvp_emojis` runs the per-event tasks in
  table order rather than concurrently. `create_task`,
  `run_coroutine_threadsafe` and the five-minute interval job are out. The
  worker `Thread` is run with `run()` and so is a plain call.
- `initialize_events` (`moobot/events.py:58-66`) only calls the six steps in
  order. Each step is modelled on its own; their sequence is not a member.
  Calls to it after an update, delete or refresh are not modelled.
- dateutil's parse result, `datetime.now()` and `date.today()` are
  parameters. Time zones and microseconds are not modelled. `strftime` and
  `calendar.month_name` are C-locale tables.
- `re.IGNORECASE` and `str.lower` are ASCII lower-casing. `int()` accepts
  ASCII digits and underscores but not Unicode digits or surrounding
  whitespace other than what `Strip` removes.
- `format_event_duration_for_event_modal` is not part of this model. The
  time field's pre-fill text is a parameter.
- `created_by` is not a column of the model's event row. The
  `isinstance(child, TextInput)` filter is out: every child is an input.
- The `ConfirmDelete` view, the confirmation message and its deletion are
  out. The user's answer is the `confirmed` parameter.
- `fetch_credentials` is a parameter, and its failure is not modelled. In
  the loader, `datetime.fromisoformat` is the `dateParses` flag, and the
  `date` key is not a column.
- Templates, HTML, logging, the random affirmations and the bodies of
  commands other than those above are out. So are `asyncio.CancelledError`
  and `client.user` being None. `moobot/discord/emoji.py` is not part of
  this model: `moobot/events.py` uses its own `get_custom_emoji_by_name`
  (`moobot/events.py:87-88`).
- The custom emoji lookup (`moobot/events.py:87-88`, used at lines 280,
  288, 349 and 352) is the `emojisFound` flag, true when the guild has both
  emojis. A miss raises StopIteration inside a coroutine, which Python turns
  into RuntimeError. `Digest.CalendarUpdate` raises it after the digest
  is built. `DiscordBot.Bot.AddCalendarReactionHandler` raises it before
  checking for the calendar message. Which of the two emojis is missing is
  not modelled.
- What a calendar sync (`handle_google_calendar_sync_on_rsvp`) does to the
  tables and to Google is modelled by `Handlers.SyncOnRsvp`. Where a caller
  makes several syncs (`Reconcile.ResyncEffects`, `Handlers.AccountSetup`,
  `Handlers.HandleAdded`, `Handlers.HandleRemoved`), each sync is an effect
  in the log. Its outcome comes from a `faults` map: a sync in the map
  raises that exception after it is made, and any other sync passes. The
  worker thread is run with `run()`, so an HttpError from Google reaches
  the caller, while a RefreshError is absorbed by the worker.
  `fetch_user` is the `users`/`found` set: a user outside it raises
  NotFound before the sync.
- `Reconcile.AddEventRsvpEmojis`: the commit at the end of the session is
  not counted, because the session changes no row.
- `Digest.CalendarUpdate`: its own contract states only the channel
  errors and that effects need both emojis. `Digest.CalendarUpdateCases`
  states all four ends.
- `Reconcile.SendEventAnnouncements` sends the corrected embed
  `Reconcile.AnnouncementEmbed`, whose thumbnail is the event's thumbnail.
  As written (`moobot/events.py:132-133`) the thumbnail is the image URL;
  see "## Findings".
- `Reconcile.AnnouncementStored` states that the stored message carries
  the corrected embed, for the same reason.
- `Reconcile.ResyncEffects` edits the announcement to the corrected embed,
  for the same reason.
- `Reconcile.PushEventUpdate` makes `ResyncEffects`' edit, with the
  corrected embed.
- `Reconcile.UpdateOutOfSyncEvents` makes the same edits, with the
  corrected embed.
- `EventModal.OnSubmit` reads the description with the corrected parser
  `EventModal.DescribedOf`. As written
  (`moobot/discord/views/event_modal.py:88-91`) a description that is one
  URL raises IndexError; see "## Findings".
- `DeleteEventCommand.ScheduleNoSyncs` records one "no" sync per RSVP.
  Each runs in a detached task after `fetch_user`
  (`moobot/discord/commands/delete_event.py:63-65`). A user that cannot be
  fetched fails only that task, and its sync is still recorded here.
- `Sweeps.Step` and `Sweeps.Swept` state only that the length is kept. What
  the loop does is stated by the Sweeps lemmas.
- `EventModal.EventTimeOf`: its own contract states only the error cases.
  What a successful read gives is stated by `StartNotAfterEnd`,
  `SingleTime`, `EndTakesStartDay` and `PastStartMovesAYear`.
- `Handlers.SyncAccount`: its contract is the `SyncedAccount` relation,
  which `Handlers.SyncOnRsvp` unfolds.
- `EventOption.RowsOf` and `WhosGoing.UsersOf` state only their shape.
  `QueryRows` and `UsersOfPartition` and `ListedUnderOwnAnswer` state what
  they hold.
- `Dates.MonthName` and `Dates.WeekdayAbbrev` state only lengths. The
  FormatExamples lemmas pin down particular names.

## Findings

| source | as written | input that shows it | evidently intended | confidence | as-written member | corrected member |
|---|---|---|---|---|---|---|
| moobot/util/formatting.py:11-14 | "same day" compares only the day of the month | 5 January 10:00 to 5 February 11:00 renders as "January 5 10:00 AM-11:00 AM" | compare the whole dates, so the end date is named | not executed | LegacyFormatting.DayOnlyComparisonDropsEndDate | LegacyFormatting.FixedNamesEndDate |
| moobot/events.py:132-133 | the thumbnail is set to `image_url` | an event with a thumbnail and a different (or no) image | `set_thumbnail(url=event.thumbnail_url)` | not executed | Reconcile.ThumbnailShowsImage | Reconcile.AnnouncementEmbed |
| moobot/discord/views/event_modal.py:88-91 | after popping the first URL, `parts[0]` is read from an empty list | a description that is one URL, e.g. `https://example.com` | a lone URL is the event's link | not executed | EventModal.LoneUrlRaisesIndexError | EventModal.LoneUrlIsTheLink |

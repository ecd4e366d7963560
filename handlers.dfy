/** The reaction handlers of `moobot/events.py` and the calendar sync they
    trigger: the per-event RSVP handler, the calendar message's handlers, the
    sync worker and the completion of new users' sync setups. A handler's call
    of `handle_google_calendar_sync_on_rsvp` is recorded as a `CalendarSync`
    effect; what that call does is `SyncOnRsvp`. */
module Handlers {
  import opened Wrappers
  import opened Exceptions
  import opened Dates
  import opened Models
  import opened Seqs
  import opened Rsvps
  import opened Platform
  import Db
  import Google

  /** The user behind a reaction: a guild member or a bare user. */
  datatype Reactor = Reactor(id: UserId, isMember: bool)

  /** The channel an RSVP grants and revokes: the event's own channel when it
      asked for one and has one; a recorded channel the guild no longer has
      is an error. */
  function EventChannel(e: Event, guildChannels: set<ChannelId>): (r: Result<Option<ChannelId>, Exception>)
    ensures r.Err? <==> e.createChannel && e.channelId.Some? && e.channelId.value !in guildChannels
    ensures r.Err? ==> r.error == ValueError
    ensures r.Ok? && r.value.Some? ==> e.createChannel && r.value == e.channelId
    ensures r.Ok? && r.value.None? ==> !e.createChannel || e.channelId.None?
  {
    if e.createChannel && e.channelId.Some? then
      if e.channelId.value in guildChannels then Ok(e.channelId) else Err(ValueError)
    else Ok(None)
  }

  /** The members of `MoobloomEventAttendanceType`, in declaration order. */
  const AllTypes: seq<AttendanceType> := [Yes, Maybe, No]

  /** `remove_reaction` of each type in `types` other than `t`, in order. */
  function RemovalsOf(settings: Settings, messageId: MessageId, types: seq<AttendanceType>,
                      t: AttendanceType, userId: UserId): (r: seq<Effect>)
    ensures forall eff :: eff in r ==> eff.RemoveReaction? && eff.messageId == messageId && eff.userId == userId
  {
    if types == [] then []
    else
      var last := types[|types| - 1];
      RemovalsOf(settings, messageId, types[..|types| - 1], t, userId)
      + (if last == t then [] else [RemoveReaction(messageId, RsvpReactEmoji(settings, last), userId)])
  }

  /** After an added RSVP the user's reactions of the two other types are
      removed from the announcement, and never the one just added. */
  lemma OtherReactionsRemoved(settings: Settings, messageId: MessageId, t: AttendanceType, userId: UserId)
    requires DistinctEmojis(settings)
    ensures var r := RemovalsOf(settings, messageId, AllTypes, t, userId);
      && |r| == 2
      && (forall x :: x != t ==> RemoveReaction(messageId, RsvpReactEmoji(settings, x), userId) in r)
      && RemoveReaction(messageId, RsvpReactEmoji(settings, t), userId) !in r
  {
    assert AllTypes[..2] == [Yes, Maybe] && AllTypes[..1] == [Yes] && AllTypes[..0] == [];
    var r := RemovalsOf(settings, messageId, AllTypes, t, userId);
    var y := RemoveReaction(messageId, settings.rsvpYesEmoji, userId);
    var m := RemoveReaction(messageId, settings.rsvpMaybeEmoji, userId);
    var n := RemoveReaction(messageId, settings.rsvpNoEmoji, userId);
    var r1 := RemovalsOf(settings, messageId, [Yes], t, userId);
    var r2 := RemovalsOf(settings, messageId, [Yes, Maybe], t, userId);
    assert [Yes][..0] == [] && [Yes, Maybe][..1] == [Yes];
    assert RemovalsOf(settings, messageId, [], t, userId) == [];
    assert r1 == (if t == Yes then [] else [y]);
    assert r2 == r1 + (if t == Maybe then [] else [m]);
    assert r == r2 + (if t == No then [] else [n]);
    match t
    case Yes => assert r == [m, n];
    case Maybe => assert r == [y, n];
    case No => assert r == [y, m];
  }

  /** What an added RSVP does before the announcement is fetched: access to
      the channel for a yes or maybe, then the calendar sync. */
  function AddedEffects(channel: Option<ChannelId>, t: AttendanceType, userId: UserId, eventId: nat)
    : seq<Effect>
  {
    (if channel.Some? && t != No then [GrantChannel(channel.value, userId)] else [])
    + [CalendarSync(userId, eventId, t)]
  }

  /** What a removed RSVP does once the table has been re-read: nothing while
      the user still holds a yes or maybe; otherwise access is revoked and the
      event is synced as not attending. */
  function RemovedEffects(channel: Option<ChannelId>, active: bool, userId: UserId, eventId: nat)
    : seq<Effect>
  {
    if active then []
    else (if channel.Some? then [RevokeChannel(channel.value, userId)] else [])
         + [CalendarSync(userId, eventId, No)]
  }

  /** An added reaction grants access exactly for a yes or maybe on an event
      with a channel, always syncs the new type, and never revokes. */
  lemma AddedReactionEffects(settings: Settings, channel: Option<ChannelId>, t: AttendanceType,
                             userId: UserId, eventId: nat, messageId: MessageId)
    ensures var r := AddedEffects(channel, t, userId, eventId)
                     + RemovalsOf(settings, messageId, AllTypes, t, userId);
      && (forall ch: ChannelId :: GrantChannel(ch, userId) in r <==> channel == Some(ch) && t != No)
      && CalendarSync(userId, eventId, t) in r
      && forall eff :: eff in r ==> !eff.RevokeChannel?
  {
    var added := AddedEffects(channel, t, userId, eventId);
    var removals := RemovalsOf(settings, messageId, AllTypes, t, userId);
    assert added[|added| - 1] == CalendarSync(userId, eventId, t);
    forall ch: ChannelId | GrantChannel(ch, userId) in added + removals
      ensures channel == Some(ch) && t != No
    {
      assert GrantChannel(ch, userId) !in removals;
    }
  }

  /** A removed reaction revokes access and syncs "no" exactly when no yes or
      maybe RSVP remains. */
  lemma RemovedReactionEffects(channel: Option<ChannelId>, active: bool, userId: UserId, eventId: nat)
    ensures var r := RemovedEffects(channel, active, userId, eventId);
      && ((exists eff :: eff in r && eff.RevokeChannel?) <==> !active && channel.Some?)
      && (CalendarSync(userId, eventId, No) in r <==> !active)
      && forall eff :: eff in r ==> !eff.GrantChannel?
  {
    var r := RemovedEffects(channel, active, userId, eventId);
    if !active {
      assert r[|r| - 1] == CalendarSync(userId, eventId, No);
      if channel.Some? {
        assert r[0].RevokeChannel?;
      }
    }
  }

  /** `on_event_message_reaction`, the handler registered for one event's
      announcement. `guildChannels` are the guild's channel ids, `fetched`
      whether the announcement can be fetched back (`fetch_message` raises
      NotFound otherwise), and `faults` the calendar syncs that raise. */
  method OnEventMessageReaction(s: Db.Store, c: Client, settings: Settings, e: Event,
                                guildChannels: set<ChannelId>, action: Action, emoji: string,
                                user: Reactor, fetched: bool, faults: SyncFaults)
    returns (r: Outcome<Exception>)
    modifies s, c
    ensures c.nextId == old(c.nextId)
    ensures !user.isMember || !IsRsvpEmoji(settings, emoji) || EventChannel(e, guildChannels).Err? ==>
      s.State() == old(s.State()) && c.log == old(c.log)
      && r == (if !user.isMember then Fail(ValueError)
               else if !IsRsvpEmoji(settings, emoji) then Pass
               else Fail(ValueError))
    ensures user.isMember && IsRsvpEmoji(settings, emoji) && EventChannel(e, guildChannels).Ok? ==>
      var t := FromRsvpReactEmoji(settings, emoji).value;
      var channel := EventChannel(e, guildChannels).value;
      if action == Added && user.id != c.botId then
        s.State() == old(s.State()).(rsvps := Upserted(old(s.rsvps), t, user.id, e.id),
                                     commits := old(s.commits) + 1)
        && AddedDone(settings, e, channel, t, user.id, fetched, faults, old(c.log), c.log, r)
      else if action == Removed then
        s.State() == old(s.State()).(
          rsvps := Withdrawn(old(s.rsvps), t, user.id, e.id),
          commits := old(s.commits) + if Rsvp(user.id, e.id, t) in old(s.rsvps) then 1 else 0)
        && c.log == old(c.log) + RemovedEffects(channel, HasActiveRsvp(s.rsvps, user.id, e.id), user.id, e.id)
        && r == RemovedOutcome(HasActiveRsvp(s.rsvps, user.id, e.id), user.id, e.id, faults)
      else
        s.State() == old(s.State()) && c.log == old(c.log) && r == Pass
  {
    if !user.isMember {
      return Fail(ValueError);
    }
    if !IsRsvpEmoji(settings, emoji) {
      return Pass;
    }
    var t := FromRsvpReactEmoji(settings, emoji).value;

    var channel: Option<ChannelId> := None;
    if e.createChannel && e.channelId.Some? {
      if e.channelId.value !in guildChannels {
        return Fail(ValueError);
      }
      channel := e.channelId;
    }

    if action == Added && user.id != c.botId {
      r := HandleAdded(s, c, settings, e, channel, t, user.id, fetched, faults);
    } else if action == Removed {
      r := HandleRemoved(s, c, channel, t, user.id, e.id, faults);
    } else {
      r := Pass;
    }
  }

  /** How an added RSVP ends, from log `log0` to `log`: a sync that raises
      ends it after the sync; then an event never announced raises TypeError
      (`int(None)`) and an announcement that cannot be fetched NotFound;
      otherwise the user's other RSVP reactions are removed. */
  ghost predicate AddedDone(settings: Settings, e: Event, channel: Option<ChannelId>, t: AttendanceType,
                            userId: UserId, fetched: bool, faults: SyncFaults,
                            log0: seq<Effect>, log: seq<Effect>, r: Outcome<Exception>)
  {
    var added := log0 + AddedEffects(channel, t, userId, e.id);
    var sync := CalendarSync(userId, e.id, t);
    if sync in faults then r == Fail(faults[sync]) && log == added
    else if e.announcementMessageId.None? then r == Fail(TypeError) && log == added
    else if !fetched then r == Fail(NotFound) && log == added
    else r == Pass && log == added + RemovalsOf(settings, e.announcementMessageId.value, AllTypes, t, userId)
  }

  /** How a removed RSVP ends: only the "no" sync, made when no yes or
      maybe remains, can raise. */
  function RemovedOutcome(active: bool, userId: UserId, eventId: nat, faults: SyncFaults): (r: Outcome<Exception>)
    ensures r.Fail? <==> !active && CalendarSync(userId, eventId, No) in faults
  {
    var sync := CalendarSync(userId, eventId, No);
    if !active && sync in faults then Fail(faults[sync]) else Pass
  }

  /** An RSVP reaction added by anyone but the bot: the upsert, the channel
      grant, the sync, then the removal of the user's other RSVP reactions. */
  method HandleAdded(s: Db.Store, c: Client, settings: Settings, e: Event, channel: Option<ChannelId>,
                     t: AttendanceType, userId: UserId, fetched: bool, faults: SyncFaults)
    returns (r: Outcome<Exception>)
    modifies s, c
    ensures c.nextId == old(c.nextId)
    ensures s.State() == old(s.State()).(rsvps := Upserted(old(s.rsvps), t, userId, e.id),
                                         commits := old(s.commits) + 1)
    ensures AddedDone(settings, e, channel, t, userId, fetched, faults, old(c.log), c.log, r)
  {
    UpdateRsvp(s, t, userId, e.id);
    if channel.Some? && t != No {
      c.Record(GrantChannel(channel.value, userId));
    }
    var sync := CalendarSync(userId, e.id, t);
    c.Record(sync);
    if sync in faults {
      return Fail(faults[sync]);
    }
    if e.announcementMessageId.None? {
      return Fail(TypeError);
    }
    if !fetched {
      return Fail(NotFound);
    }
    RemoveOtherReactions(c, settings, e.announcementMessageId.value, t, userId);
    r := Pass;
  }

  /** The loop over the attendance types that skips the one just added. */
  method RemoveOtherReactions(c: Client, settings: Settings, messageId: MessageId, t: AttendanceType,
                              userId: UserId)
    modifies c
    ensures c.nextId == old(c.nextId)
    ensures c.log == old(c.log) + RemovalsOf(settings, messageId, AllTypes, t, userId)
  {
    for k := 0 to |AllTypes|
      invariant c.log == old(c.log) + RemovalsOf(settings, messageId, AllTypes[..k], t, userId)
      invariant c.nextId == old(c.nextId)
    {
      assert AllTypes[..k + 1][..k] == AllTypes[..k];
      if AllTypes[k] != t {
        c.Record(RemoveReaction(messageId, RsvpReactEmoji(settings, AllTypes[k]), userId));
      }
    }
    assert AllTypes[..|AllTypes|] == AllTypes;
  }

  /** A removed RSVP reaction: the withdrawal, then the re-read that decides
      whether access is revoked and "no" synced. */
  method HandleRemoved(s: Db.Store, c: Client, channel: Option<ChannelId>, t: AttendanceType,
                       userId: UserId, eventId: nat, faults: SyncFaults)
    returns (r: Outcome<Exception>)
    modifies s, c
    ensures c.nextId == old(c.nextId)
    ensures s.State() == old(s.State()).(
      rsvps := Withdrawn(old(s.rsvps), t, userId, eventId),
      commits := old(s.commits) + if Rsvp(userId, eventId, t) in old(s.rsvps) then 1 else 0)
    ensures c.log == old(c.log) + RemovedEffects(channel, HasActiveRsvp(s.rsvps, userId, eventId), userId, eventId)
    ensures r == RemovedOutcome(HasActiveRsvp(s.rsvps, userId, eventId), userId, eventId, faults)
  {
    RemoveRsvp(s, t, userId, eventId);
    r := Pass;
    // a yes changed to a maybe must keep the channel
    if !HasActiveRsvp(s.rsvps, userId, eventId) {
      if channel.Some? {
        c.Record(RevokeChannel(channel.value, userId));
      }
      var sync := CalendarSync(userId, eventId, No);
      c.Record(sync);
      if sync in faults {
        r := Fail(faults[sync]);
      }
    }
  }

  /** `on_calendar_message_reaction`: the all-events emoji adds or removes
      the all-events role; the sync emoji starts or ends Google Calendar sync.
      `roleExists` and `hasRole` are read from the guild and the member;
      `authUrl` and `authState` are the OAuth flow's URL and state. */
  method OnCalendarMessageReaction(s: Db.Store, c: Client, action: Action, emoji: string, user: Reactor,
                                   allEventsEmoji: string, syncEmoji: string,
                                   roleExists: bool, hasRole: bool, authUrl: string, authState: string)
    returns (r: Outcome<Exception>)
    modifies s, c
    ensures c.nextId == old(c.nextId)
    ensures !user.isMember ==> r == Fail(ValueError) && s.State() == old(s.State()) && c.log == old(c.log)
    ensures user.isMember && emoji == allEventsEmoji ==>
      s.State() == old(s.State())
      && if !roleExists then r == Fail(ValueError) && c.log == old(c.log)
         else r == Pass
              && c.log == old(c.log) + (if action == Added then [AddRole(user.id)]
                                        else if hasRole then [RemoveRole(user.id)] else [])
    ensures user.isMember && emoji != allEventsEmoji && emoji == syncEmoji ==>
      var account := Db.FindApiUser(old(s.apiUsers), user.id);
      r == Pass
      && if action == Added then
           if account.None? then
             s.State() == old(s.State()).(authSessions := old(s.authSessions) + [AuthSession(authState, user.id)],
                                          commits := old(s.commits) + 1)
             && c.log == old(c.log) + [DirectMessage(user.id, SyncEnableLink(authUrl))]
           else
             s.State() == old(s.State()) && c.log == old(c.log) + [DirectMessage(user.id, SyncAlreadyEnabled)]
         else if account.None? then
           s.State() == old(s.State()) && c.log == old(c.log)
         else
           s.State() == old(s.State()).(apiUsers := RemoveAt(old(s.apiUsers), account.value),
                                        commits := old(s.commits) + 1)
           && c.log == old(c.log) + [DirectMessage(user.id, SyncDisabled)]
    ensures user.isMember && emoji != allEventsEmoji && emoji != syncEmoji ==>
      r == Pass && s.State() == old(s.State()) && c.log == old(c.log)
  {
    if !user.isMember {
      return Fail(ValueError);
    }
    r := Pass;
    if emoji == allEventsEmoji {
      if !roleExists {
        return Fail(ValueError);
      }
      if action == Added {
        c.Record(AddRole(user.id));
      } else if hasRole {
        c.Record(RemoveRole(user.id));
      }
    } else if emoji == syncEmoji {
      var account := Db.FindApiUser(s.apiUsers, user.id);
      if action == Added {
        if account.None? {
          var url := Google.GetGoogleAuthUrl(s, user.id, authUrl, authState);
          c.Record(DirectMessage(user.id, SyncEnableLink(url)));
        } else {
          c.Record(DirectMessage(user.id, SyncAlreadyEnabled));
        }
      } else if account.Some? {
        s.apiUsers := RemoveAt(s.apiUsers, account.value);
        s.commits := s.commits + 1;
        c.Record(DirectMessage(user.id, SyncDisabled));
      }
    }
  }

  /** `handle_google_calendar_sync_on_rsvp` with its worker, run to completion
      in the calling thread: a user without a linked account is skipped; a
      missing calendar is created and its id stored first; a revoked or
      expired credential (RefreshError) unlinks the account and sends one
      direct message instead of raising. The replies of Google's API are
      inputs: `createReply` to the calendar insert, `getReply` and
      `writeReply` to the upsert's requests. */
  method SyncOnRsvp(s: Db.Store, c: Client, service: Google.CalendarService, userId: UserId, e: Event,
                    t: AttendanceType, tz: string, calendarName: string, createReply: Google.Reply<string>,
                    getReply: Google.Reply<Google.CalendarEvent>, writeReply: Google.Reply<()>)
    returns (r: Outcome<Exception>)
    requires WellTyped(e)
    modifies s, c, service
    ensures c.nextId == old(c.nextId)
    ensures Db.FindApiUser(old(s.apiUsers), userId).None? ==>
      r == Pass && s.State() == old(s.State()) && c.log == old(c.log)
      && service.requests == old(service.requests)
    ensures Db.FindApiUser(old(s.apiUsers), userId).Some? ==>
      SyncedAccount(old(s.State()), s.State(), old(service.requests), service.requests, old(c.log), c.log, r,
                    Db.FindApiUser(old(s.apiUsers), userId).value, userId, e, t, tz, calendarName,
                    createReply, getReply, writeReply)
  {
    var found := Db.FindApiUser(s.apiUsers, userId);
    if found.None? {
      return Pass;
    }
    r := SyncAccount(s, c, service, found.value, userId, e, t, tz, calendarName, createReply, getReply, writeReply);
  }

  /** The worker's effect on the tables, the calendar's request log and the
      chat log, for the account in row `i` (`before` to `after`). */
  ghost predicate SyncedAccount(before: Db.Tables, after: Db.Tables, requests0: seq<Google.Request>,
                                requests: seq<Google.Request>, log0: seq<Effect>, log: seq<Effect>,
                                r: Outcome<Exception>, i: nat, userId: UserId, e: Event,
                                t: AttendanceType, tz: string, calendarName: string,
                                createReply: Google.Reply<string>,
                                getReply: Google.Reply<Google.CalendarEvent>, writeReply: Google.Reply<()>)
    requires WellTyped(e) && i < |before.apiUsers|
  {
    var account := before.apiUsers[i];
    var create := [Google.InsertCalendar(calendarName)];
    if account.calendarId.None? && !createReply.Served? then
      r == Fail(Google.ReplyError(createReply)) && after == before && log == log0
      && requests == requests0 + create
    else
      var calendarId := if account.calendarId.Some? then account.calendarId.value else createReply.value;
      var users := before.apiUsers[i := account.(calendarId := Some(calendarId))];
      var commits := before.commits + if account.calendarId.None? then 1 else 0;
      var built := Google.BuildEvent(e, t, tz);
      requests == requests0 + (if account.calendarId.None? then create else [])
                  + Google.UpsertRequests(calendarId, Google.EventId(e.id), built, getReply)
      && if Google.UpsertOutcome(built, getReply, writeReply) == Fail(RefreshError) then
           r == Pass && after == before.(apiUsers := RemoveAt(users, i), commits := commits + 1)
           && log == log0 + [DirectMessage(userId, SyncTokenNotAuthorized)]
         else
           r == Google.UpsertOutcome(built, getReply, writeReply)
           && after == before.(apiUsers := users, commits := commits) && log == log0
  }

  /** The worker for the linked account in row `i`. */
  method SyncAccount(s: Db.Store, c: Client, service: Google.CalendarService, i: nat, userId: UserId,
                     e: Event, t: AttendanceType, tz: string, calendarName: string,
                     createReply: Google.Reply<string>, getReply: Google.Reply<Google.CalendarEvent>,
                     writeReply: Google.Reply<()>)
    returns (r: Outcome<Exception>)
    requires WellTyped(e) && i < |s.apiUsers|
    modifies s, c, service
    ensures c.nextId == old(c.nextId)
    ensures SyncedAccount(old(s.State()), s.State(), old(service.requests), service.requests, old(c.log), c.log, r,
                          i, userId, e, t, tz, calendarName, createReply, getReply, writeReply)
  {
    ghost var account := s.apiUsers[i];
    var calendar := EnsureCalendar(s, service, i, calendarName, createReply);
    if calendar.Err? {
      return Fail(calendar.error);
    }
    assert calendar.value == if account.calendarId.Some? then account.calendarId.value else createReply.value;
    assert s.State() == old(s.State()).(apiUsers := old(s.apiUsers)[i := account.(calendarId := Some(calendar.value))],
                                        commits := old(s.commits) + if account.calendarId.None? then 1 else 0);
    ghost var created: seq<Google.Request> := if account.calendarId.None? then [Google.InsertCalendar(calendarName)] else [];
    assert service.requests == old(service.requests) + created;
    ghost var mid := s.State();
    r := PushEvent(s, c, service, i, userId, calendar.value, e, t, tz, getReply, writeReply);
    AppendAssoc(old(service.requests), created,
                Google.UpsertRequests(calendar.value, Google.EventId(e.id), Google.BuildEvent(e, t, tz), getReply));
    if Google.UpsertOutcome(Google.BuildEvent(e, t, tz), getReply, writeReply) == Fail(RefreshError) {
      assert s.State() == mid.(apiUsers := RemoveAt(mid.apiUsers, i), commits := mid.commits + 1);
    } else {
      assert s.State() == mid;
    }
  }

  /** The account's calendar: the stored one, or a new one whose id is
      stored and committed before it is used. */
  method EnsureCalendar(s: Db.Store, service: Google.CalendarService, i: nat, calendarName: string,
                        createReply: Google.Reply<string>)
    returns (r: Result<string, Exception>)
    requires i < |s.apiUsers|
    modifies s, service
    ensures var account := old(s.apiUsers)[i];
      if account.calendarId.Some? then
        r == Ok(account.calendarId.value) && s.State() == old(s.State())
        && service.requests == old(service.requests)
      else
        service.requests == old(service.requests) + [Google.InsertCalendar(calendarName)]
        && if createReply.Served? then
             r == Ok(createReply.value)
             && s.State() == old(s.State()).(apiUsers := old(s.apiUsers)[i := account.(calendarId := Some(r.value))],
                                             commits := old(s.commits) + 1)
           else
             r == Err(Google.ReplyError(createReply)) && s.State() == old(s.State())
  {
    var account := s.apiUsers[i];
    if account.calendarId.Some? {
      return Ok(account.calendarId.value);
    }
    r := service.CreateCalendar(calendarName, createReply);
    if r.Ok? {
      // `.filter(GoogleApiUser.id == google_api_user.id).update(...)`: the account's own row
      s.apiUsers := s.apiUsers[i := account.(calendarId := Some(r.value))];
      s.commits := s.commits + 1;
    }
  }

  /** The worker's `try: add_or_update_event(...) except RefreshError`, for
      the account in row `i`. */
  method PushEvent(s: Db.Store, c: Client, service: Google.CalendarService, i: nat, userId: UserId,
                   calendarId: string, e: Event, t: AttendanceType, tz: string,
                   getReply: Google.Reply<Google.CalendarEvent>, writeReply: Google.Reply<()>)
    returns (r: Outcome<Exception>)
    requires WellTyped(e) && i < |s.apiUsers|
    modifies s, c, service
    ensures c.nextId == old(c.nextId)
    ensures var built := Google.BuildEvent(e, t, tz);
      service.requests == old(service.requests)
                          + Google.UpsertRequests(calendarId, Google.EventId(e.id), built, getReply)
      && if Google.UpsertOutcome(built, getReply, writeReply) == Fail(RefreshError) then
           r == Pass
           && s.State() == old(s.State()).(apiUsers := RemoveAt(old(s.apiUsers), i),
                                           commits := old(s.commits) + 1)
           && c.log == old(c.log) + [DirectMessage(userId, SyncTokenNotAuthorized)]
         else
           r == Google.UpsertOutcome(built, getReply, writeReply)
           && s.State() == old(s.State()) && c.log == old(c.log)
  {
    r := service.AddOrUpdateEvent(calendarId, e, t, tz, getReply, writeReply);
    if r == Fail(RefreshError) {
      // the user revoked access or the token expired: unlink and tell them
      s.apiUsers := RemoveAt(s.apiUsers, i);
      s.commits := s.commits + 1;
      c.Record(DirectMessage(userId, SyncTokenNotAuthorized));
      r := Pass;
    }
  }

  /** `end_date >= today` on the RSVP's event: false when the end date is
      missing (SQL NULL), and an RSVP whose event row is gone drops out of
      the join. */
  predicate EndsOnOrAfter(events: seq<Event>, eventId: nat, today: Date) {
    match FirstIndex(events, (x: Event) => x.id == eventId)
    case None => false
    case Some(j) => events[j].endDate.Some? && DateLe(today, events[j].endDate.value)
  }

  /** Whether a new account's setup syncs this RSVP: the user's own, not
      "no", for an event that has not ended. */
  predicate SetupSyncsRsvp(events: seq<Event>, today: Date, userId: UserId, x: Rsvp) {
    x.userId == userId && x.attendanceType != No && EndsOnOrAfter(events, x.eventId, today)
  }

  /** The query's filter, as a predicate on RSVP rows. */
  function Carried(events: seq<Event>, today: Date, userId: UserId): Rsvp -> bool {
    (x: Rsvp) => SetupSyncsRsvp(events, today, userId, x)
  }

  /** The start date of the event with id `eventId`, reached through the join. */
  function StartOfEvent(events: seq<Event>, eventId: nat): Option<Date> {
    match FirstIndex(events, (e: Event) => e.id == eventId)
    case None => None
    case Some(j) => events[j].startDate
  }

  /** `order_by(MoobloomEvent.start_date)`'s key on an RSVP row. */
  function RsvpStart(events: seq<Event>): Rsvp -> Option<Date> {
    (x: Rsvp) => StartOfEvent(events, x.eventId)
  }

  /** The RSVPs one account's setup carries over, in the query's order: by
      their event's start date. */
  function SetupRsvps(rsvps: seq<Rsvp>, events: seq<Event>, today: Date, userId: UserId): (r: seq<Rsvp>)
    ensures SortedOn(r, RsvpStart(events))
    ensures multiset(r) == multiset(Filter(rsvps, Carried(events, today, userId)))
    ensures forall x :: x in r <==> x in rsvps && SetupSyncsRsvp(events, today, userId, x)
  {
    var kept := Filter(rsvps, Carried(events, today, userId));
    FilterSound(rsvps, Carried(events, today, userId));
    FilterAll(rsvps, Carried(events, today, userId));
    var r := SortOn(kept, RsvpStart(events));
    assert forall x :: x in r <==> x in multiset(kept);
    r
  }

  /** The calendar syncs of one account's setup, one per carried RSVP, in
      the query's order. */
  function SetupSyncs(rsvps: seq<Rsvp>, events: seq<Event>, today: Date, userId: UserId): (r: seq<Effect>)
    ensures |r| == |SetupRsvps(rsvps, events, today, userId)|
    ensures forall eff :: eff in r ==> eff.CalendarSync? && eff.userId == userId && eff.attendance != No
  {
    var carried := SetupRsvps(rsvps, events, today, userId);
    assert forall k :: 0 <= k < |carried| ==> carried[k] in carried;
    seq(|carried|, k requires 0 <= k < |carried| => CalendarSync(userId, carried[k].eventId, carried[k].attendanceType))
  }

  /** The setup syncs exactly the user's upcoming yes and maybe RSVPs, each
      with its own attendance. */
  lemma SetupSyncsExact(rsvps: seq<Rsvp>, events: seq<Event>, today: Date, userId: UserId)
    ensures forall x :: x in rsvps && SetupSyncsRsvp(events, today, userId, x) ==>
      CalendarSync(userId, x.eventId, x.attendanceType) in SetupSyncs(rsvps, events, today, userId)
    ensures forall eff :: eff in SetupSyncs(rsvps, events, today, userId) ==>
      exists x :: x in rsvps && SetupSyncsRsvp(events, today, userId, x)
                  && eff == CalendarSync(userId, x.eventId, x.attendanceType)
  {
    var carried := SetupRsvps(rsvps, events, today, userId);
    var syncs := SetupSyncs(rsvps, events, today, userId);
    forall x | x in rsvps && SetupSyncsRsvp(events, today, userId, x)
      ensures CalendarSync(userId, x.eventId, x.attendanceType) in syncs
    {
      var k :| 0 <= k < |carried| && carried[k] == x;
      assert syncs[k] == CalendarSync(userId, x.eventId, x.attendanceType);
    }
    forall eff | eff in syncs
      ensures exists x :: x in rsvps && SetupSyncsRsvp(events, today, userId, x)
                          && eff == CalendarSync(userId, x.eventId, x.attendanceType)
    {
      var k :| 0 <= k < |syncs| && syncs[k] == eff;
      assert carried[k] in carried;
    }
  }

  /** The syncs go in the order of their events' start dates. */
  lemma SetupSyncsInOrder(rsvps: seq<Rsvp>, events: seq<Event>, today: Date, userId: UserId)
    ensures var syncs := SetupSyncs(rsvps, events, today, userId);
      forall k, l :: 0 <= k < l < |syncs| ==>
        NullsLastLe(StartOfEvent(events, syncs[k].eventId), StartOfEvent(events, syncs[l].eventId))
  {
    var carried := SetupRsvps(rsvps, events, today, userId);
    var syncs := SetupSyncs(rsvps, events, today, userId);
    forall k, l | 0 <= k < l < |syncs|
      ensures NullsLastLe(StartOfEvent(events, syncs[k].eventId), StartOfEvent(events, syncs[l].eventId))
    {
      assert NullsLastLe(RsvpStart(events)(carried[k]), RsvpStart(events)(carried[l]));
    }
  }

  /** One account's turn of `complete_unfinished_google_calendar_setups`:
      nothing for a finished setup; otherwise the user is fetched (`found`
      are the users `fetch_user` finds; any other raises NotFound), the
      syncs are made in order until one raises, and only a turn that gets
      through them sends the setup-complete message. */
  function AccountSetup(u: ApiUser, rsvps: seq<Rsvp>, events: seq<Event>, today: Date, found: set<UserId>,
                        faults: SyncFaults): (r: Pushed)
    ensures u.setupFinished ==> r == Pushed([], Pass)
    ensures r.outcome.Pass? <==>
      u.setupFinished || (u.userId in found && SyncsClean(SetupSyncs(rsvps, events, today, u.userId), found, faults))
    ensures r.outcome.Pass? && !u.setupFinished ==>
      r.log == SetupSyncs(rsvps, events, today, u.userId) + [DirectMessage(u.userId, SyncSetupComplete)]
    ensures r.outcome.Fail? ==> r.log <= SetupSyncs(rsvps, events, today, u.userId)
  {
    if u.setupFinished then Pushed([], Pass)
    else if u.userId !in found then Pushed([], Fail(NotFound))
    else
      var syncs := SetupSyncs(rsvps, events, today, u.userId);
      var run := SyncRun(syncs, found, faults);
      SyncRunClean(syncs, found, faults);
      if run.outcome.Fail? then run
      else Pushed(run.log + [DirectMessage(u.userId, SyncSetupComplete)], Pass)
  }

  /** Where the setup step stands: how many accounts' turns ended without
      an exception, what was sent, and whether an exception ended it. */
  datatype Setup = Setup(done: nat, log: seq<Effect>, outcome: Outcome<Exception>)

  /** `complete_unfinished_google_calendar_setups` account by account, in
      table order, up to the first exception. */
  function Setups(users: seq<ApiUser>, rsvps: seq<Rsvp>, events: seq<Event>, today: Date, found: set<UserId>,
                  faults: SyncFaults): (r: Setup)
    ensures r.done <= |users|
    ensures r.outcome.Pass? ==> r.done == |users|
  {
    if users == [] then Setup(0, [], Pass)
    else
      var prev := Setups(users[..|users| - 1], rsvps, events, today, found, faults);
      if prev.outcome.Fail? then prev
      else
        var a := AccountSetup(users[|users| - 1], rsvps, events, today, found, faults);
        Setup(if a.outcome.Pass? then |users| else prev.done, prev.log + a.log, a.outcome)
  }

  /** One more account extends the setup by its own turn, and the unfinished
      count by one if its setup was unfinished. */
  lemma SetupStep(users: seq<ApiUser>, i: nat, rsvps: seq<Rsvp>, events: seq<Event>, today: Date,
                  found: set<UserId>, faults: SyncFaults)
    requires i < |users|
    ensures var prev := Setups(users[..i], rsvps, events, today, found, faults);
      var a := AccountSetup(users[i], rsvps, events, today, found, faults);
      Setups(users[..i + 1], rsvps, events, today, found, faults)
      == if prev.outcome.Fail? then prev
         else Setup(if a.outcome.Pass? then i + 1 else prev.done, prev.log + a.log, a.outcome)
    ensures Unfinished(users[..i + 1]) == Unfinished(users[..i]) + if users[i].setupFinished then 0 else 1
  {
    assert users[..i + 1][..i] == users[..i];
  }

  /** Once an account's turn has raised, later accounts add nothing. */
  lemma {:induction false} SetupsStop(users: seq<ApiUser>, rsvps: seq<Rsvp>, events: seq<Event>, today: Date,
                                      found: set<UserId>, faults: SyncFaults, i: nat, n: nat)
    requires i <= n <= |users|
    requires Setups(users[..i], rsvps, events, today, found, faults).outcome.Fail?
    ensures Setups(users[..n], rsvps, events, today, found, faults) == Setups(users[..i], rsvps, events, today, found, faults)
    decreases n
  {
    if n > i {
      SetupsStop(users, rsvps, events, today, found, faults, i, n - 1);
      SetupStep(users, n - 1, rsvps, events, today, found, faults);
    }
  }

  /** The number of accounts whose setup is unfinished. */
  function Unfinished(users: seq<ApiUser>): nat {
    if users == [] then 0
    else Unfinished(users[..|users| - 1]) + if users[|users| - 1].setupFinished then 0 else 1
  }

  /** A user is told their setup is complete exactly when one of their
      accounts was unfinished and its turn got through. */
  lemma {:induction false} SetupCompleteMessages(users: seq<ApiUser>, rsvps: seq<Rsvp>, events: seq<Event>,
                                                 today: Date, found: set<UserId>, faults: SyncFaults, userId: UserId)
    ensures var p := Setups(users, rsvps, events, today, found, faults);
      DirectMessage(userId, SyncSetupComplete) in p.log
      <==> exists i :: 0 <= i < p.done && users[i].userId == userId && !users[i].setupFinished
  {
    if users != [] {
      var init, u := users[..|users| - 1], users[|users| - 1];
      SetupCompleteMessages(init, rsvps, events, today, found, faults, userId);
      var prev := Setups(init, rsvps, events, today, found, faults);
      var p := Setups(users, rsvps, events, today, found, faults);
      var m := DirectMessage(userId, SyncSetupComplete);
      if prev.outcome.Fail? {
        assert p == prev;
        UnfinishedAmong(users, prev.done, userId);
      } else {
        var a := AccountSetup(u, rsvps, events, today, found, faults);
        AccountSetupMessage(u, rsvps, events, today, found, faults, userId);
        assert p.log == prev.log + a.log;
        UnfinishedAmong(users, prev.done, userId);
        if a.outcome.Pass? {
          UnfinishedAmong(users, |users|, userId);
        }
      }
    }
  }

  /** Whether one of the first `n` accounts is an unfinished one of `userId`'s,
      counted on `users` or on all of it but its last account. */
  lemma UnfinishedAmong(users: seq<ApiUser>, n: nat, userId: UserId)
    requires 0 < |users| && n <= |users|
    ensures var init := users[..|users| - 1];
      n < |users| ==>
        ((exists i :: 0 <= i < n && users[i].userId == userId && !users[i].setupFinished)
         <==> (exists i :: 0 <= i < n && init[i].userId == userId && !init[i].setupFinished))
    ensures var init := users[..|users| - 1];
      n == |users| ==>
        ((exists i :: 0 <= i < n && users[i].userId == userId && !users[i].setupFinished)
         <==> (exists i :: 0 <= i < n - 1 && init[i].userId == userId && !init[i].setupFinished)
              || (users[n - 1].userId == userId && !users[n - 1].setupFinished))
  {
    var init := users[..|users| - 1];
    assert forall i :: 0 <= i < |init| ==> init[i] == users[i];
  }

  /** One account's turn sends the setup-complete message to `userId`
      exactly when it is that user's unfinished account and gets through. */
  lemma AccountSetupMessage(u: ApiUser, rsvps: seq<Rsvp>, events: seq<Event>, today: Date, found: set<UserId>,
                            faults: SyncFaults, userId: UserId)
    ensures var a := AccountSetup(u, rsvps, events, today, found, faults);
      DirectMessage(userId, SyncSetupComplete) in a.log
      <==> a.outcome.Pass? && !u.setupFinished && u.userId == userId
  {
    var a := AccountSetup(u, rsvps, events, today, found, faults);
    var syncs := SetupSyncs(rsvps, events, today, u.userId);
    var m := DirectMessage(userId, SyncSetupComplete);
    if !u.setupFinished {
      forall k | 0 <= k < |syncs| ensures syncs[k] != m {
        assert syncs[k] in syncs;
      }
      if a.outcome.Fail? {
        forall k | 0 <= k < |a.log| ensures a.log[k] != m {
          assert a.log[k] == syncs[k];
        }
      }
    }
  }

  /** Once every setup is finished, running the step again sends nothing. */
  lemma {:induction false} FinishedSetupsAreQuiet(users: seq<ApiUser>, rsvps: seq<Rsvp>, events: seq<Event>,
                                                  today: Date, found: set<UserId>, faults: SyncFaults)
    requires forall i :: 0 <= i < |users| ==> users[i].setupFinished
    ensures Setups(users, rsvps, events, today, found, faults) == Setup(|users|, [], Pass)
    ensures Unfinished(users) == 0
  {
    if users != [] {
      FinishedSetupsAreQuiet(users[..|users| - 1], rsvps, events, today, found, faults);
    }
  }

  /** The step gets through every account when every unfinished account's
      user is found and none of its syncs raises. */
  lemma {:induction false} SetupsPass(users: seq<ApiUser>, rsvps: seq<Rsvp>, events: seq<Event>, today: Date,
                                      found: set<UserId>, faults: SyncFaults)
    requires forall i :: 0 <= i < |users| && !users[i].setupFinished ==>
      users[i].userId in found && SyncsClean(SetupSyncs(rsvps, events, today, users[i].userId), found, faults)
    ensures Setups(users, rsvps, events, today, found, faults).outcome.Pass?
  {
    if users != [] {
      SetupsPass(users[..|users| - 1], rsvps, events, today, found, faults);
    }
  }

  /** Where `complete_unfinished_google_calendar_setups` stands after the
      first `i` accounts: the accounts whose turns got through are marked
      finished, one commit was made for each that was unfinished, and
      nothing else changed. */
  ghost predicate SetupProgress(before: Db.Tables, log0: seq<Effect>, today: Date, found: set<UserId>,
                                faults: SyncFaults, i: nat, now: Db.Tables, log: seq<Effect>, r: Outcome<Exception>)
  {
    var users := before.apiUsers;
    i <= |users| && |now.apiUsers| == |users|
    && var p := Setups(users[..i], before.rsvps, before.events, today, found, faults);
    && (forall j :: 0 <= j < p.done ==> now.apiUsers[j] == users[j].(setupFinished := true))
    && (forall j :: p.done <= j < |users| ==> now.apiUsers[j] == users[j])
    && now == before.(apiUsers := now.apiUsers, commits := before.commits + Unfinished(users[..p.done]))
    && log == log0 + p.log && r == p.outcome
  }

  /** `complete_unfinished_google_calendar_setups`: for each account whose
      setup is unfinished, fetch the user, sync their upcoming yes and maybe
      RSVPs in start-date order, mark the setup finished, commit, and tell
      the user. An exception ends the step; the accounts before it stay
      committed. */
  method CompleteUnfinishedSetups(s: Db.Store, c: Client, today: Date, found: set<UserId>, faults: SyncFaults)
    returns (r: Outcome<Exception>)
    modifies s, c
    ensures c.nextId == old(c.nextId)
    ensures var p := Setups(old(s.apiUsers), old(s.rsvps), old(s.events), today, found, faults);
      && c.log == old(c.log) + p.log && r == p.outcome
      && |s.apiUsers| == |old(s.apiUsers)|
      && (forall i :: 0 <= i < |s.apiUsers| ==>
            s.apiUsers[i] == if i < p.done then old(s.apiUsers)[i].(setupFinished := true) else old(s.apiUsers)[i])
      && s.State() == old(s.State()).(apiUsers := s.apiUsers,
                                      commits := old(s.commits) + Unfinished(old(s.apiUsers)[..p.done]))
  {
    ghost var before, log0 := s.State(), c.log;
    assert before.apiUsers[..0] == [];
    r := Pass;
    var i := 0;
    while i < |s.apiUsers| && r.Pass?
      invariant SetupProgress(before, log0, today, found, faults, i, s.State(), c.log, r)
      invariant c.nextId == old(c.nextId)
    {
      ghost var now, log := s.State(), c.log;
      var next := FinishSetup(s, c, i, today, found, faults);
      ProgressStep(before, log0, today, found, faults, i, now, log, s.State(), c.log, next);
      r := next;
      i := i + 1;
    }
    if r.Fail? {
      SetupsStop(before.apiUsers, before.rsvps, before.events, today, found, faults, i, |before.apiUsers|);
    }
    assert before.apiUsers[..|before.apiUsers|] == before.apiUsers;
  }

  /** Finishing account `i` moves the setup's progress on by one. */
  lemma ProgressStep(before: Db.Tables, log0: seq<Effect>, today: Date, found: set<UserId>, faults: SyncFaults,
                     i: nat, now: Db.Tables, log: seq<Effect>, next: Db.Tables, log': seq<Effect>,
                     r': Outcome<Exception>)
    requires i < |before.apiUsers| && SetupProgress(before, log0, today, found, faults, i, now, log, Pass)
    requires var u := now.apiUsers[i];
             var a := AccountSetup(u, before.rsvps, before.events, today, found, faults);
             log' == log + a.log && r' == a.outcome
             && next == if a.outcome.Pass? then
                          now.(apiUsers := now.apiUsers[i := u.(setupFinished := true)],
                               commits := now.commits + if u.setupFinished then 0 else 1)
                        else now
    ensures SetupProgress(before, log0, today, found, faults, i + 1, next, log', r')
  {
    var users := before.apiUsers;
    SetupStep(users, i, before.rsvps, before.events, today, found, faults);
    var prev := Setups(users[..i], before.rsvps, before.events, today, found, faults);
    var a := AccountSetup(users[i], before.rsvps, before.events, today, found, faults);
    assert now.apiUsers[i] == users[i];
    AppendAssoc(log0, prev.log, a.log);
    if a.outcome.Pass? {
      ProgressPassed(before, log0, today, found, faults, i, now, log, next, log');
    } else {
      assert Setups(users[..i + 1], before.rsvps, before.events, today, found, faults)
             == Setup(i, prev.log + a.log, a.outcome);
    }
  }

  /** `ProgressStep` for an account whose turn passed: it joins the
      completed prefix. */
  lemma ProgressPassed(before: Db.Tables, log0: seq<Effect>, today: Date, found: set<UserId>, faults: SyncFaults,
                       i: nat, now: Db.Tables, log: seq<Effect>, next: Db.Tables, log': seq<Effect>)
    requires i < |before.apiUsers| && SetupProgress(before, log0, today, found, faults, i, now, log, Pass)
    requires var u := now.apiUsers[i];
             var a := AccountSetup(u, before.rsvps, before.events, today, found, faults);
             a.outcome.Pass? && log' == log + a.log
             && next == now.(apiUsers := now.apiUsers[i := u.(setupFinished := true)],
                             commits := now.commits + if u.setupFinished then 0 else 1)
    ensures SetupProgress(before, log0, today, found, faults, i + 1, next, log', Pass)
  {
    var users := before.apiUsers;
    SetupStep(users, i, before.rsvps, before.events, today, found, faults);
    var prev := Setups(users[..i], before.rsvps, before.events, today, found, faults);
    var a := AccountSetup(users[i], before.rsvps, before.events, today, found, faults);
    assert prev.done == i;
    assert now.apiUsers[i] == users[i];
    var p' := Setups(users[..i + 1], before.rsvps, before.events, today, found, faults);
    assert p' == Setup(i + 1, prev.log + a.log, Pass);
    AppendAssoc(log0, prev.log, a.log);
    assert log' == log0 + p'.log;
    assert users[..i + 1][..i] == users[..i];
    assert Unfinished(users[..p'.done]) == Unfinished(users[..i]) + if users[i].setupFinished then 0 else 1;
    forall j | 0 <= j < p'.done
      ensures next.apiUsers[j] == users[j].(setupFinished := true)
    {
      if j < i {
        assert next.apiUsers[j] == now.apiUsers[j];
      }
    }
    forall j | p'.done <= j < |users|
      ensures next.apiUsers[j] == users[j]
    {
      assert next.apiUsers[j] == now.apiUsers[j];
    }
  }

  /** One account of the loop above. */
  method FinishSetup(s: Db.Store, c: Client, i: nat, today: Date, found: set<UserId>, faults: SyncFaults)
    returns (r: Outcome<Exception>)
    requires i < |s.apiUsers|
    modifies s, c
    ensures c.nextId == old(c.nextId)
    ensures var u := old(s.apiUsers)[i];
            var a := AccountSetup(u, old(s.rsvps), old(s.events), today, found, faults);
            c.log == old(c.log) + a.log && r == a.outcome
            && s.State() == if a.outcome.Pass? then
                              old(s.State()).(apiUsers := old(s.apiUsers)[i := u.(setupFinished := true)],
                                              commits := old(s.commits) + if u.setupFinished then 0 else 1)
                            else old(s.State())
  {
    var account := s.apiUsers[i];
    if account.setupFinished {
      assert s.apiUsers[i := account.(setupFinished := true)] == s.apiUsers;
      return Pass;
    }
    if account.userId !in found {
      assert AccountSetup(account, s.rsvps, s.events, today, found, faults) == Pushed([], Fail(NotFound));
      return Fail(NotFound);
    }
    var syncs := SetupSyncs(s.rsvps, s.events, today, account.userId);
    ghost var a := AccountSetup(account, s.rsvps, s.events, today, found, faults);
    ghost var run := SyncRun(syncs, found, faults);
    ghost var st0 := s.State();
    r := RunSyncs(c, syncs, found, faults);
    assert s.State() == st0;
    if r.Fail? {
      assert a == run;
      return;
    }
    assert a == Pushed(run.log + [DirectMessage(account.userId, SyncSetupComplete)], Pass);
    MarkSetupFinished(s, c, i);
  }

  /** `api_user.setup_finished = True`, the commit, and the direct message
      that tells the user. */
  method MarkSetupFinished(s: Db.Store, c: Client, i: nat)
    requires i < |s.apiUsers|
    modifies s, c
    ensures c.nextId == old(c.nextId)
    ensures c.log == old(c.log) + [DirectMessage(old(s.apiUsers)[i].userId, SyncSetupComplete)]
    ensures s.State() == old(s.State()).(apiUsers := old(s.apiUsers)[i := old(s.apiUsers)[i].(setupFinished := true)],
                                         commits := old(s.commits) + 1)
  {
    var account := s.apiUsers[i];
    s.apiUsers := s.apiUsers[i := account.(setupFinished := true)];
    s.commits := s.commits + 1;
    c.Record(DirectMessage(account.userId, SyncSetupComplete));
  }
}

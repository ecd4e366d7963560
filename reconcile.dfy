/** The reconciliation steps of `moobot/events.py` that bring the chat
    platform in line with the event table: announcing new events, creating
    their channels, re-announcing edited events, putting the RSVP emojis on
    announcements and deleting an announcement. Each step selects rows of the
    table and acts on each selected row in table order. */
module Reconcile {
  import opened Wrappers
  import opened Exceptions
  import opened Seqs
  import opened Text
  import opened Dates
  import opened Models
  import opened Format
  import opened Platform
  import opened Sweeps
  import Db

  /** The italic closing line of an announcement: how to RSVP, and whether
      that gives access to a channel of the event's own. */
  function RsvpInstructions(settings: Settings, createChannel: bool): string {
    if createChannel then
      RsvpWithChannelWords + settings.rsvpYesEmoji + GoingOrWords + settings.rsvpMaybeEmoji + NotGoingWords
      + settings.rsvpNoEmoji + ".*"
    else
      RsvpWords + settings.rsvpYesEmoji + GoingOrWords + settings.rsvpMaybeEmoji + NotGoingWords
      + settings.rsvpNoEmoji + NoChannelWords
  }

  /** The fixed wording of the RSVP instructions, piece by piece. */
  const RsvpWithChannelWords: string := "*To RSVP and gain access to the event channel, react with "
  const RsvpWords: string := "*To RSVP, react with "
  const GoingOrWords: string := " (going) or "
  const NotGoingWords: string := " (maybe). If you are not going, react with "
  const NoChannelWords: string := ". This event does not have a dedicated channel.*"

  function AnnouncementText(e: Event, duration: string, instructions: string): string {
    var header := if Truthy(e.location) then "**" + duration + " - " + e.location.value + "**"
                  else "**" + duration + "**";
    var body := if Truthy(e.description) then header + "\n" + e.description.value + "\n" else header;
    body + "\n" + instructions
  }

  /** The text opens with the bold duration, followed by the location when
      there is one. */
  lemma AnnouncementTextOpens(e: Event, duration: string, instructions: string)
    ensures var text := AnnouncementText(e, duration, instructions);
      if Truthy(e.location) then StartsWith(text, "**" + duration + " - " + e.location.value + "**")
      else StartsWith(text, "**" + duration + "**")
  {
    var header := if Truthy(e.location) then "**" + duration + " - " + e.location.value + "**"
                  else "**" + duration + "**";
    var rest := (if Truthy(e.description) then "\n" + e.description.value + "\n" else "")
                + "\n" + instructions;
    assert AnnouncementText(e, duration, instructions) == header + rest;
    StartsWithConcat(header, rest);
  }

  /** The text shows the description, set off by line breaks, when there is
      one, and closes with the instructions. */
  lemma AnnouncementTextCloses(e: Event, duration: string, instructions: string)
    ensures var text := AnnouncementText(e, duration, instructions);
      && EndsWith(text, "\n" + instructions)
      && (Truthy(e.description) ==> Contains(text, "\n" + e.description.value + "\n"))
  {
    var header := if Truthy(e.location) then "**" + duration + " - " + e.location.value + "**"
                  else "**" + duration + "**";
    var tail := "\n" + instructions;
    if Truthy(e.description) {
      var block := "\n" + e.description.value + "\n";
      assert AnnouncementText(e, duration, instructions) == header + block + tail;
      ContainsMiddle(header, block, tail);
      EndsWithConcat(header + block, tail);
    } else {
      assert AnnouncementText(e, duration, instructions) == header + tail;
      EndsWithConcat(header, tail);
    }
  }

  /** `build_event_announcement_embed` as written: when a thumbnail is set,
      the embed's thumbnail is given the image's address. */
  function AnnouncementEmbedAsWritten(settings: Settings, e: Event): (r: Result<Embed, Exception>)
    requires WellTyped(e)
    ensures r.Ok? <==> FormatEventDuration(e.startDate, e.startTime, e.endDate, e.endTime).Ok?
  {
    var duration :- FormatEventDuration(e.startDate, e.startTime, e.endDate, e.endTime);
    Ok(Embed(e.name, e.url, AnnouncementText(e, duration, RsvpInstructions(settings, e.createChannel)),
             if Truthy(e.imageUrl) then e.imageUrl else None,
             if Truthy(e.thumbnailUrl) then e.imageUrl else None))
  }

  /** An event whose thumbnail differs from its image is announced without
      its thumbnail. */
  lemma ThumbnailShowsImage(settings: Settings, e: Event)
    requires WellTyped(e) && e.startTime.Some?
    requires Truthy(e.thumbnailUrl) && e.imageUrl != e.thumbnailUrl
    ensures AnnouncementEmbedAsWritten(settings, e).Ok?
    ensures AnnouncementEmbedAsWritten(settings, e).value.thumbnail != e.thumbnailUrl
  {
  }

  /** `build_event_announcement_embed` with the thumbnail taken from
      `thumbnail_url`: the title and link are the event's, the image and the
      thumbnail are shown exactly when set, and the text is the announcement
      text. A duration that cannot be rendered raises its exception. */
  function AnnouncementEmbed(settings: Settings, e: Event): (r: Result<Embed, Exception>)
    requires WellTyped(e)
    ensures var duration := FormatEventDuration(e.startDate, e.startTime, e.endDate, e.endTime);
      && (r.Err? <==> duration.Err?)
      && (r.Err? ==> r.error == duration.error)
      && (r.Ok? ==> r.value.description == AnnouncementText(e, duration.value, RsvpInstructions(settings, e.createChannel)))
    ensures r.Ok? ==> r.value.title == e.name && r.value.url == e.url
    ensures r.Ok? ==> (r.value.image.Some? <==> Truthy(e.imageUrl))
                      && (r.value.image.Some? ==> r.value.image == e.imageUrl)
    ensures r.Ok? ==> (r.value.thumbnail.Some? <==> Truthy(e.thumbnailUrl))
                      && (r.value.thumbnail.Some? ==> r.value.thumbnail == e.thumbnailUrl)
  {
    var duration :- FormatEventDuration(e.startDate, e.startTime, e.endDate, e.endTime);
    Ok(Embed(e.name, e.url, AnnouncementText(e, duration, RsvpInstructions(settings, e.createChannel)),
             if Truthy(e.imageUrl) then e.imageUrl else None,
             if Truthy(e.thumbnailUrl) then e.thumbnailUrl else None))
  }

  /** The two embeds differ only in the thumbnail. */
  lemma EmbedsAgreeButThumbnail(settings: Settings, e: Event)
    requires WellTyped(e)
    ensures var written, fixed := AnnouncementEmbedAsWritten(settings, e), AnnouncementEmbed(settings, e);
      written.Ok? == fixed.Ok?
      && (written.Ok? ==> written.value == fixed.value.(thumbnail := written.value.thumbnail))
  {
  }

  // Announcing and creating channels.

  /** `send_event_announcements` selects the live events with no announcement. */
  predicate Unannounced(e: Event) {
    !e.deleted && e.announcementMessageId.None?
  }

  /** `send_event_announcement`: the announcement channel must exist, then the
      embed is built and sent, and the new message's id is stored. Every
      stored row is well typed (Python's date types see to that), so the
      first branch is never taken on the table; it makes the action total. */
  function Announce(settings: Settings, channelOk: bool): RowAction {
    (e: Event, id: nat) =>
      if !WellTyped(e) || !channelOk then Err(ValueError)
      else match AnnouncementEmbed(settings, e)
        case Err(x) => Err(x)
        case Ok(embed) => Ok(Made(SendAnnouncement(id, embed), e.(announcementMessageId := Some(id))))
  }

  lemma AnnounceKeepsRows(settings: Settings, channelOk: bool)
    ensures KeepsRows(Announce(settings, channelOk))
    ensures forall e: Event, id: nat :: Announce(settings, channelOk)(e, id).Ok? ==>
      !Unannounced(Announce(settings, channelOk)(e, id).value.row)
  {
  }

  /** `send_event_announcements`. */
  method SendEventAnnouncements(s: Db.Store, c: Client, settings: Settings, channelOk: bool)
    returns (r: Outcome<Exception>)
    requires s.Valid()
    modifies s, c
    ensures s.Valid()
    ensures Run(s.events, c.log, c.nextId, s.commits, r)
            == Swept(Unannounced, Announce(settings, channelOk),
                     Run(old(s.events), old(c.log), old(c.nextId), old(s.commits), Pass), |old(s.events)|)
    ensures s.State() == old(s.State()).(events := s.events, commits := s.commits)
  {
    AnnounceKeepsRows(settings, channelOk);
    r := Sweep(s, c, Unannounced, Announce(settings, channelOk));
  }

  /** After announcing without an exception, an event that had no
      announcement carries the id of a message sent with its embed, and
      nothing else of it has changed. */
  lemma AnnouncementStored(settings: Settings, channelOk: bool, start: Run, j: nat)
    requires j < |start.events| && WellTyped(start.events[j]) && Unannounced(start.events[j])
    requires start.outcome.Pass?
    requires Swept(Unannounced, Announce(settings, channelOk), start, |start.events|).outcome.Pass?
    ensures var r := Swept(Unannounced, Announce(settings, channelOk), start, |start.events|);
      && r.events[j].announcementMessageId.Some?
      && r.events[j] == start.events[j].(announcementMessageId := r.events[j].announcementMessageId)
      && AnnouncementEmbed(settings, start.events[j]).Ok?
      && SendAnnouncement(r.events[j].announcementMessageId.value,
                          AnnouncementEmbed(settings, start.events[j]).value) in r.log
  {
    var act := Announce(settings, channelOk);
    var r := Swept(Unannounced, act, start, |start.events|);
    SweptMade(Unannounced, act, start, |start.events|, j);
  }

  /** Without the announcement channel nothing is sent: the step raises
      ValueError exactly when some event awaits its announcement. */
  lemma AnnouncementsNeedChannel(settings: Settings, start: Run)
    requires start.outcome.Pass?
    ensures var r := Swept(Unannounced, Announce(settings, false), start, |start.events|);
      r.events == start.events && r.log == start.log
      && (r.outcome.Fail? <==> exists j :: 0 <= j < |start.events| && Unannounced(start.events[j]))
  {
    SweptNothingMade(Unannounced, Announce(settings, false), start, |start.events|);
  }

  /** `create_event_channels` selects the live events that asked for a
      channel and have none. */
  predicate NeedsChannel(e: Event) {
    !e.deleted && e.createChannel && e.channelId.None?
  }

  /** `create_event_channel`: the guild (reached through the announcement
      channel), the active-events category and the all-events role must
      exist; then the channel is created, hidden from everyone but that role,
      and its id is stored. */
  function CreateChannelFor(channelOk: bool, categoryExists: bool, roleExists: bool): RowAction {
    (e: Event, id: nat) =>
      if !channelOk || !categoryExists || !roleExists then Err(ValueError)
      else Ok(Made(CreateChannel(id, e.channelName), e.(channelId := Some(id))))
  }

  lemma CreateChannelKeepsRows(channelOk: bool, categoryExists: bool, roleExists: bool)
    ensures KeepsRows(CreateChannelFor(channelOk, categoryExists, roleExists))
    ensures forall e: Event, id: nat :: CreateChannelFor(channelOk, categoryExists, roleExists)(e, id).Ok? ==>
      !NeedsChannel(CreateChannelFor(channelOk, categoryExists, roleExists)(e, id).value.row)
  {
  }

  /** `create_event_channels`. */
  method CreateEventChannels(s: Db.Store, c: Client, channelOk: bool, categoryExists: bool, roleExists: bool)
    returns (r: Outcome<Exception>)
    requires s.Valid()
    modifies s, c
    ensures s.Valid()
    ensures Run(s.events, c.log, c.nextId, s.commits, r)
            == Swept(NeedsChannel, CreateChannelFor(channelOk, categoryExists, roleExists),
                     Run(old(s.events), old(c.log), old(c.nextId), old(s.commits), Pass), |old(s.events)|)
    ensures s.State() == old(s.State()).(events := s.events, commits := s.commits)
  {
    CreateChannelKeepsRows(channelOk, categoryExists, roleExists);
    r := Sweep(s, c, NeedsChannel, CreateChannelFor(channelOk, categoryExists, roleExists));
  }

  /** With the category or the role missing, no channel is created: the
      step raises ValueError exactly when some event needs a channel. */
  lemma ChannelsNeedCategoryAndRole(channelOk: bool, categoryExists: bool, roleExists: bool, start: Run)
    requires start.outcome.Pass?
    requires !categoryExists || !roleExists
    ensures var r := Swept(NeedsChannel, CreateChannelFor(channelOk, categoryExists, roleExists), start, |start.events|);
      r.events == start.events && r.log == start.log
      && (r.outcome.Fail? <==> exists j :: 0 <= j < |start.events| && NeedsChannel(start.events[j]))
      && (r.outcome.Fail? ==> r.outcome.error == ValueError)
  {
    var act := CreateChannelFor(channelOk, categoryExists, roleExists);
    SweptNothingMade(NeedsChannel, act, start, |start.events|);
    SweptFailure(NeedsChannel, act, start, |start.events|);
  }

  // Re-announcing edited events.

  /** `update_out_of_sync_events` selects the live events marked out of sync. */
  predicate OutOfSync(e: Event) {
    !e.deleted && e.outOfSync
  }

  /** `update_event_google_calendar_events`: a calendar sync for each RSVP of
      the event, in table order, with the RSVP's own attendance. */
  function RsvpSyncs(rsvps: seq<Rsvp>, eventId: nat): (r: seq<Effect>)
    ensures |r| <= |rsvps|
    ensures forall eff :: eff in r ==> eff.CalendarSync? && Rsvp(eff.userId, eventId, eff.attendance) in rsvps
  {
    if rsvps == [] then []
    else
      var x := rsvps[|rsvps| - 1];
      RsvpSyncs(rsvps[..|rsvps| - 1], eventId)
      + if x.eventId == eventId then [CalendarSync(x.userId, eventId, x.attendanceType)] else []
  }

  /** Every RSVP of the event is synced. */
  lemma {:induction false} RsvpSyncsComplete(rsvps: seq<Rsvp>, eventId: nat)
    ensures forall x :: x in rsvps && x.eventId == eventId ==>
      CalendarSync(x.userId, eventId, x.attendanceType) in RsvpSyncs(rsvps, eventId)
  {
    if rsvps != [] {
      var init := rsvps[..|rsvps| - 1];
      RsvpSyncsComplete(init, eventId);
      assert rsvps == init + [rsvps[|rsvps| - 1]];
    }
  }

  /** What re-announcing an event meets on the platform: whether the
      announcement channel exists, the announcement messages that can be
      fetched, the users `fetch_user` finds, and the calendar syncs that
      raise. */
  datatype Env = Env(channelOk: bool, live: set<MessageId>, users: set<UserId>, faults: SyncFaults)

  /** Nothing on the platform stands in the way of re-announcing `e`. */
  predicate Reachable(env: Env, e: Event) {
    env.channelOk && e.announcementMessageId.Some? && e.announcementMessageId.value in env.live
  }

  /** `update_event_announcement` then `update_event_google_calendar_events`:
      an event that was never announced, or a missing announcement channel,
      raises ValueError and an announcement that cannot be fetched raises
      NotFound, before anything is made; otherwise the announcement is
      edited to the event's embed and the RSVPs are synced in table order
      until one raises. */
  function ResyncEffects(settings: Settings, env: Env, e: Event, rsvps: seq<Rsvp>): (r: Pushed)
    requires WellTyped(e)
    ensures e.announcementMessageId.None? || !env.channelOk ==> r == Pushed([], Fail(ValueError))
    ensures env.channelOk && e.announcementMessageId.Some? && e.announcementMessageId.value !in env.live ==>
      r == Pushed([], Fail(NotFound))
    ensures r.log == [] <==> !Reachable(env, e) || AnnouncementEmbed(settings, e).Err?
    ensures r.log != [] ==>
      && r.log[0] == EditAnnouncement(e.announcementMessageId.value, AnnouncementEmbed(settings, e).value)
      && r.log[1..] <= RsvpSyncs(rsvps, e.id)
    ensures r.outcome.Pass? <==>
      Reachable(env, e) && AnnouncementEmbed(settings, e).Ok? && SyncsClean(RsvpSyncs(rsvps, e.id), env.users, env.faults)
    ensures r.outcome.Pass? ==> r.log[1..] == RsvpSyncs(rsvps, e.id)
  {
    if e.announcementMessageId.None? || !env.channelOk then Pushed([], Fail(ValueError))
    else if e.announcementMessageId.value !in env.live then Pushed([], Fail(NotFound))
    else match AnnouncementEmbed(settings, e)
      case Err(x) => Pushed([], Fail(x))
      case Ok(embed) =>
        var syncs := SyncRun(RsvpSyncs(rsvps, e.id), env.users, env.faults);
        SyncRunClean(RsvpSyncs(rsvps, e.id), env.users, env.faults);
        assert ([EditAnnouncement(e.announcementMessageId.value, embed)] + syncs.log)[1..] == syncs.log;
        Pushed([EditAnnouncement(e.announcementMessageId.value, embed)] + syncs.log, syncs.outcome)
  }

  predicate AllWellTyped(events: seq<Event>) {
    forall i :: 0 <= i < |events| ==> WellTyped(events[i])
  }

  /** The effects of `update_out_of_sync_events` over the first `n` rows. */
  function Resynced(settings: Settings, env: Env, events: seq<Event>, rsvps: seq<Rsvp>, n: nat): Pushed
    requires n <= |events| && AllWellTyped(events)
  {
    if n == 0 then Pushed([], Pass)
    else
      var prev := Resynced(settings, env, events, rsvps, n - 1);
      if prev.outcome.Fail? || !OutOfSync(events[n - 1]) then prev
      else
        var made := ResyncEffects(settings, env, events[n - 1], rsvps);
        Pushed(prev.log + made.log, made.outcome)
  }

  /** The table after the loop, before its commit: the first `n` selected
      rows have their flag cleared and nothing else. */
  function ClearedUpTo(events: seq<Event>, n: nat): (r: seq<Event>)
    ensures |r| == |events|
    ensures forall i :: 0 <= i < |events| ==>
      r[i].(outOfSync := events[i].outOfSync) == events[i]
      && (i < n ==> !OutOfSync(r[i]))
      && (i >= n || !OutOfSync(events[i]) ==> r[i] == events[i])
  {
    seq(|events|, i requires 0 <= i < |events| =>
      if i < n && OutOfSync(events[i]) then events[i].(outOfSync := false) else events[i])
  }

  /** A table with no row out of sync makes nothing. */
  lemma {:induction false} ResyncQuiet(settings: Settings, env: Env, events: seq<Event>, rsvps: seq<Rsvp>, n: nat)
    requires n <= |events| && AllWellTyped(events)
    requires forall i :: 0 <= i < n ==> !OutOfSync(events[i])
    ensures Resynced(settings, env, events, rsvps, n) == Pushed([], Pass)
  {
    if n > 0 {
      ResyncQuiet(settings, env, events, rsvps, n - 1);
    }
  }

  /** After a run without an exception, every row that was out of sync had
      its re-announcement made in full: its edit and all its RSVPs' syncs
      are in the log (what they are, `ResyncEffects` states). */
  lemma {:induction false} ResyncedEvent(settings: Settings, env: Env, events: seq<Event>, rsvps: seq<Rsvp>,
                                         n: nat, j: nat)
    requires j < n <= |events| && AllWellTyped(events) && OutOfSync(events[j])
    requires Resynced(settings, env, events, rsvps, n).outcome.Pass?
    ensures ResyncEffects(settings, env, events[j], rsvps).outcome.Pass?
    ensures forall eff :: eff in ResyncEffects(settings, env, events[j], rsvps).log ==>
      eff in Resynced(settings, env, events, rsvps, n).log
  {
    var prev := Resynced(settings, env, events, rsvps, n - 1);
    var p := Resynced(settings, env, events, rsvps, n);
    if j < n - 1 {
      ResyncedEvent(settings, env, events, rsvps, n - 1, j);
      ResyncLogGrows(settings, env, events, rsvps, n);
    } else {
      var made := ResyncEffects(settings, env, events[j], rsvps);
      assert p.log == prev.log + made.log;
    }
  }

  /** Conversely, the run ends without an exception when every row out of
      sync can be re-announced: its announcement reachable, its embed
      rendered, and its syncs' users found with no sync raising. */
  lemma {:induction false} ResyncPasses(settings: Settings, env: Env, events: seq<Event>, rsvps: seq<Rsvp>, n: nat)
    requires n <= |events| && AllWellTyped(events)
    requires forall i :: 0 <= i < n && OutOfSync(events[i]) ==>
      Reachable(env, events[i]) && AnnouncementEmbed(settings, events[i]).Ok?
      && SyncsClean(RsvpSyncs(rsvps, events[i].id), env.users, env.faults)
    ensures Resynced(settings, env, events, rsvps, n).outcome.Pass?
  {
    if n > 0 {
      ResyncPasses(settings, env, events, rsvps, n - 1);
    }
  }

  /** A row's turn only adds to the log. */
  lemma ResyncLogGrows(settings: Settings, env: Env, events: seq<Event>, rsvps: seq<Rsvp>, n: nat)
    requires 0 < n <= |events| && AllWellTyped(events)
    ensures forall eff :: eff in Resynced(settings, env, events, rsvps, n - 1).log ==>
      eff in Resynced(settings, env, events, rsvps, n).log
  {
  }

  /** The same step again after one without an exception re-announces
      nothing: the commit cleared every flag it selected. */
  lemma ResyncIdempotent(settings: Settings, env: Env, events: seq<Event>, rsvps: seq<Rsvp>)
    requires AllWellTyped(events)
    ensures AllWellTyped(ClearedUpTo(events, |events|))
    ensures Resynced(settings, env, ClearedUpTo(events, |events|), rsvps, |events|) == Pushed([], Pass)
  {
    var cleared := ClearedUpTo(events, |events|);
    assert forall i :: 0 <= i < |events| ==> cleared[i] == events[i] || cleared[i] == events[i].(outOfSync := false);
    ResyncQuiet(settings, env, cleared, rsvps, |events|);
  }

  /** One event of `update_out_of_sync_events`: the checks, the edit, then
      the syncs until one raises. */
  method PushEventUpdate(c: Client, settings: Settings, env: Env, e: Event, rsvps: seq<Rsvp>)
    returns (r: Outcome<Exception>)
    requires WellTyped(e)
    modifies c
    ensures c.nextId == old(c.nextId)
    ensures var made := ResyncEffects(settings, env, e, rsvps);
      c.log == old(c.log) + made.log && r == made.outcome
  {
    if e.announcementMessageId.None? || !env.channelOk {
      return Fail(ValueError);
    }
    if e.announcementMessageId.value !in env.live {
      return Fail(NotFound);
    }
    var embed := AnnouncementEmbed(settings, e);
    if embed.Err? {
      return Fail(embed.error);
    }
    var edit := EditAnnouncement(e.announcementMessageId.value, embed.value);
    c.Record(edit);
    r := RunSyncs(c, RsvpSyncs(rsvps, e.id), env.users, env.faults);
    ghost var run := SyncRun(RsvpSyncs(rsvps, e.id), env.users, env.faults);
    assert ResyncEffects(settings, env, e, rsvps) == Pushed([edit] + run.log, run.outcome);
    AppendAssoc(old(c.log), [edit], run.log);
  }

  /** Where the loop of `update_out_of_sync_events` stands after `i` rows:
      the effects made since `log0`, the outcome, and the session's rows. */
  ghost predicate ResyncProgress(settings: Settings, env: Env, events: seq<Event>, rsvps: seq<Rsvp>,
                                 log0: seq<Effect>, i: nat, rows: seq<Event>, log: seq<Effect>, r: Outcome<Exception>)
  {
    && i <= |events| && AllWellTyped(events)
    && log == log0 + Resynced(settings, env, events, rsvps, i).log
    && r == Resynced(settings, env, events, rsvps, i).outcome
    && (r.Pass? ==> rows == ClearedUpTo(events, i))
  }

  /** What one row's turn does, as the loop body makes it. */
  ghost predicate ResyncRowDone(settings: Settings, env: Env, e: Event, rsvps: seq<Rsvp>, i: nat,
                                rows: seq<Event>, log: seq<Effect>, rows': seq<Event>, log': seq<Effect>,
                                r': Outcome<Exception>)
    requires WellTyped(e) && i < |rows|
  {
    if !OutOfSync(e) then rows' == rows && log' == log && r' == Pass
    else
      var made := ResyncEffects(settings, env, e, rsvps);
      log' == log + made.log && r' == made.outcome
      && (r'.Pass? ==> rows' == rows[i := e.(outOfSync := false)])
  }

  /** The loop's progress after one more row. */
  lemma ResyncProgressStep(settings: Settings, env: Env, events: seq<Event>, rsvps: seq<Rsvp>,
                           log0: seq<Effect>, i: nat, rows: seq<Event>, log: seq<Effect>,
                           rows': seq<Event>, log': seq<Effect>, r': Outcome<Exception>)
    requires ResyncProgress(settings, env, events, rsvps, log0, i, rows, log, Pass) && i < |events|
    requires ResyncRowDone(settings, env, events[i], rsvps, i, rows, log, rows', log', r')
    ensures ResyncProgress(settings, env, events, rsvps, log0, i + 1, rows', log', r')
  {
    ClearedNext(events, i);
    var prev := Resynced(settings, env, events, rsvps, i);
    var next := Resynced(settings, env, events, rsvps, i + 1);
    if OutOfSync(events[i]) {
      var made := ResyncEffects(settings, env, events[i], rsvps);
      assert next == Pushed(prev.log + made.log, made.outcome);
      AppendAssoc(log0, prev.log, made.log);
    } else {
      assert next == prev;
    }
  }


  /** Row `i`'s turn clears its flag, if it is selected, and nothing else. */
  lemma ClearedNext(events: seq<Event>, i: nat)
    requires i < |events|
    ensures ClearedUpTo(events, i)[i] == events[i]
    ensures ClearedUpTo(events, i + 1)
            == if OutOfSync(events[i]) then ClearedUpTo(events, i)[i := events[i].(outOfSync := false)]
               else ClearedUpTo(events, i)
  {
  }

  /** The loop body of `update_out_of_sync_events` on row `i`. */
  method ResyncRow(c: Client, settings: Settings, env: Env, e: Event, rsvps: seq<Rsvp>, i: nat, rows: seq<Event>)
    returns (rows': seq<Event>, r: Outcome<Exception>)
    requires WellTyped(e) && i < |rows|
    modifies c
    ensures c.nextId == old(c.nextId)
    ensures |rows'| == |rows|
    ensures ResyncRowDone(settings, env, e, rsvps, i, rows, old(c.log), rows', c.log, r)
  {
    rows' := rows;
    r := Pass;
    if OutOfSync(e) {
      r := PushEventUpdate(c, settings, env, e, rsvps);
      if r.Pass? {
        rows' := rows[i := e.(outOfSync := false)];
      }
    }
  }

  /** `update_out_of_sync_events`: each live row out of sync is re-announced
      and re-synced and its flag cleared in the session; the session is
      committed once after the loop, so an exception keeps every flag while
      the edits and syncs already made stay made. */
  method UpdateOutOfSyncEvents(s: Db.Store, c: Client, settings: Settings, env: Env)
    returns (r: Outcome<Exception>)
    requires s.Valid()
    modifies s, c
    ensures s.Valid()
    ensures var p := Resynced(settings, env, old(s.events), old(s.rsvps), |old(s.events)|);
      c.log == old(c.log) + p.log && r == p.outcome
    ensures c.nextId == old(c.nextId)
    ensures r.Pass? ==> s.State() == old(s.State()).(events := ClearedUpTo(old(s.events), |old(s.events)|),
                                                    commits := old(s.commits) + 1)
    ensures r.Fail? ==> s.State() == old(s.State())
  {
    var rows;
    rows, r := ResyncLoop(c, settings, env, s.events, s.rsvps);
    if r.Pass? {
      ClearedKeepsValid(s.events, s.nextEventId);
      s.events := rows;
      s.commits := s.commits + 1;
    }
  }

  /** The loop of `update_out_of_sync_events` over the rows it read: the
      edits and syncs of the rows out of sync, up to the first exception,
      and the rows with those flags cleared. */
  method ResyncLoop(c: Client, settings: Settings, env: Env, events: seq<Event>, rsvps: seq<Rsvp>)
    returns (rows: seq<Event>, r: Outcome<Exception>)
    requires AllWellTyped(events)
    modifies c
    ensures var p := Resynced(settings, env, events, rsvps, |events|);
      c.log == old(c.log) + p.log && r == p.outcome
    ensures r.Pass? ==> rows == ClearedUpTo(events, |events|)
    ensures c.nextId == old(c.nextId)
  {
    ghost var log0 := c.log;
    rows := events;
    r := Pass;
    var i := 0;
    while i < |events| && r.Pass?
      invariant |rows| == |events|
      invariant ResyncProgress(settings, env, events, rsvps, log0, i, rows, c.log, r)
      invariant c.nextId == old(c.nextId)
    {
      ghost var log := c.log;
      var rows', next := ResyncRow(c, settings, env, events[i], rsvps, i, rows);
      ResyncProgressStep(settings, env, events, rsvps, log0, i, rows, log, rows', c.log, next);
      rows, r := rows', next;
      i := i + 1;
    }
    if r.Fail? {
      ResyncStops(settings, env, events, rsvps, i, |events|);
    }
  }

  /** Clearing flags keeps the key and every row's types. */
  lemma ClearedKeepsValid(events: seq<Event>, next: nat)
    requires Db.UniqueIds(events) && forall i :: 0 <= i < |events| ==> events[i].id < next && WellTyped(events[i])
    ensures var cleared := ClearedUpTo(events, |events|);
      Db.UniqueIds(cleared) && forall i :: 0 <= i < |cleared| ==> cleared[i].id < next && WellTyped(cleared[i])
  {
    var cleared := ClearedUpTo(events, |events|);
    assert forall i :: 0 <= i < |events| ==> cleared[i].id == events[i].id;
  }

  /** Once an exception has ended the step, later rows add nothing. */
  lemma {:induction false} ResyncStops(settings: Settings, env: Env, events: seq<Event>, rsvps: seq<Rsvp>,
                                       i: nat, n: nat)
    requires i <= n <= |events| && AllWellTyped(events)
    requires Resynced(settings, env, events, rsvps, i).outcome.Fail?
    ensures Resynced(settings, env, events, rsvps, n) == Resynced(settings, env, events, rsvps, i)
    decreases n
  {
    if n > i {
      ResyncStops(settings, env, events, rsvps, i, n - 1);
    }
  }

  // The RSVP emojis.

  /** `populate_event_emojis` on a fetched announcement: the yes, maybe and no
      emojis, in that order, only when the message has no reactions at all. */
  function EmojiEffects(settings: Settings, messageId: MessageId, reactions: seq<Reaction>): (r: seq<Effect>)
    ensures r != [] <==> reactions == []
    ensures r != [] ==> r == seq(3, k requires 0 <= k < 3 => AddReaction(messageId, RsvpReactEmoji(settings, AllTypes[k])))
  {
    if |reactions| == 0 then
      [AddReaction(messageId, settings.rsvpYesEmoji), AddReaction(messageId, settings.rsvpMaybeEmoji),
       AddReaction(messageId, settings.rsvpNoEmoji)]
    else []
  }

  /** The members of `MoobloomEventAttendanceType`, in declaration order. */
  const AllTypes: seq<AttendanceType> := [Yes, Maybe, No]

  /** One live event's `populate_event_emojis`: the announcement channel must
      exist, and the announcement is fetched (`fetched` holds the reactions
      of each announcement message that exists; fetching any other raises
      NotFound). */
  function EventEmojis(settings: Settings, channelOk: bool, e: Event, fetched: map<MessageId, seq<Reaction>>)
    : (r: Result<seq<Effect>, Exception>)
    ensures r.Err? ==> r.error == (if !channelOk then ValueError else NotFound)
    ensures r.Ok? ==>
      && e.announcementMessageId.Some? && e.announcementMessageId.value in fetched
      && r.value == EmojiEffects(settings, e.announcementMessageId.value, fetched[e.announcementMessageId.value])
  {
    if !channelOk then Err(ValueError)
    else if e.announcementMessageId.None? || e.announcementMessageId.value !in fetched then Err(NotFound)
    else Ok(EmojiEffects(settings, e.announcementMessageId.value, fetched[e.announcementMessageId.value]))
  }

  /** `add_event_rsvp_emojis` over the first `n` rows: every live event is
      visited (an exception in one does not stop the others), and the
      step raises the first exception in table order. */
  function EmojiRun(settings: Settings, channelOk: bool, events: seq<Event>, fetched: map<MessageId, seq<Reaction>>,
                    n: nat): Pushed
    requires n <= |events|
  {
    if n == 0 then Pushed([], Pass)
    else
      var prev := EmojiRun(settings, channelOk, events, fetched, n - 1);
      if events[n - 1].deleted then prev
      else match EventEmojis(settings, channelOk, events[n - 1], fetched)
        case Err(x) => Pushed(prev.log, if prev.outcome.Fail? then prev.outcome else Fail(x))
        case Ok(effs) => Pushed(prev.log + effs, prev.outcome)
  }

  /** Emojis go only on announcements with no reactions at all, so a
      second run, once they are there, adds none. */
  lemma {:induction false} EmojisOnlyOnBareAnnouncements(settings: Settings, channelOk: bool, events: seq<Event>,
                                                          fetched: map<MessageId, seq<Reaction>>, n: nat)
    requires n <= |events|
    ensures forall eff :: eff in EmojiRun(settings, channelOk, events, fetched, n).log ==>
      eff.AddReaction? && eff.messageId in fetched && fetched[eff.messageId] == []
  {
    if n > 0 {
      EmojisOnlyOnBareAnnouncements(settings, channelOk, events, fetched, n - 1);
    }
  }

  /** `add_event_rsvp_emojis`: `populate_event_emojis` for every live event.
      The source runs them concurrently; here they run in table order. */
  method AddEventRsvpEmojis(s: Db.Store, c: Client, settings: Settings, channelOk: bool,
                            fetched: map<MessageId, seq<Reaction>>) returns (r: Outcome<Exception>)
    modifies c
    ensures var p := EmojiRun(settings, channelOk, s.events, fetched, |s.events|);
      c.log == old(c.log) + p.log && r == p.outcome
    ensures c.nextId == old(c.nextId)
  {
    r := Pass;
    for i := 0 to |s.events|
      invariant var p := EmojiRun(settings, channelOk, s.events, fetched, i);
        c.log == old(c.log) + p.log && r == p.outcome
      invariant c.nextId == old(c.nextId)
    {
      var e := s.events[i];
      if !e.deleted {
        var made := EventEmojis(settings, channelOk, e, fetched);
        if made.Err? {
          if r.Pass? {
            r := Fail(made.error);
          }
        } else {
          ghost var before := c.log;
          for k := 0 to |made.value|
            invariant c.log == before + made.value[..k]
            invariant c.nextId == old(c.nextId)
          {
            c.Record(made.value[k]);
          }
        }
      }
    }
  }

  // Deleting an announcement.

  /** `delete_event_announcement`: nothing for an event never announced;
      otherwise the announcement channel must exist and the message is
      fetched (`live` holds the messages that exist) and deleted. */
  method DeleteEventAnnouncement(c: Client, e: Event, channelOk: bool, live: set<MessageId>)
    returns (r: Outcome<Exception>)
    modifies c
    ensures c.nextId == old(c.nextId)
    ensures e.announcementMessageId.None? ==> r == Pass && c.log == old(c.log)
    ensures e.announcementMessageId.Some? ==>
      (r == Pass <==> channelOk && e.announcementMessageId.value in live)
      && c.log == old(c.log) + if r == Pass then [DeleteMessage(e.announcementMessageId.value)] else []
    ensures r.Fail? ==> r.error == if !channelOk then ValueError else NotFound
  {
    if e.announcementMessageId.None? {
      return Pass;
    }
    if !channelOk {
      return Fail(ValueError);
    }
    if e.announcementMessageId.value !in live {
      return Fail(NotFound);
    }
    c.Record(DeleteMessage(e.announcementMessageId.value));
    r := Pass;
  }
}

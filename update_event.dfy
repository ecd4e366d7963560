/** `moobot/discord/commands/update_event.py`: the callback the update form
    is given. A change of an existing channel name is refused; otherwise the
    row with the original's id is overwritten with the form's columns and
    marked out of sync, in one commit. */
module UpdateEventCommand {
  import opened Wrappers
  import opened Text
  import opened Dates
  import opened Models
  import opened Db
  import opened EventModal

  /** The two replies: the refusal to rename a channel, and the
      confirmation. */
  datatype Reply = RenameRefused | Updated

  /** The event has a channel name, and the form asks for another one
      (channels are not renamed). */
  predicate RenamesChannel(original: Event, draft: Event) {
    Truthy(original.channelName) && original.channelName != draft.channelName
  }

  /** The row as the accepted update leaves it: the eleven columns the form
      fills are the form's, `out_of_sync` is set, and every other column
      (the id, the thumbnail, the announcement, the channel, `deleted`) is
      the row's own. */
  function Overwritten(row: Event, draft: Event): (r: Event)
    ensures r == draft.(id := row.id, thumbnailUrl := row.thumbnailUrl,
                        announcementMessageId := row.announcementMessageId,
                        channelId := row.channelId, outOfSync := true, deleted := row.deleted)
  {
    row.(name := draft.name, createChannel := draft.createChannel, channelName := draft.channelName,
         startDate := draft.startDate, startTime := draft.startTime,
         endDate := draft.endDate, endTime := draft.endTime, location := draft.location,
         description := draft.description, url := draft.url, imageUrl := draft.imageUrl,
         outOfSync := true)
  }

  /** `update_event_callback`: a refused rename writes nothing; otherwise
      the row with the original's id, if it is still there, is overwritten
      and the session committed once. Python's dates and times are always
      real ones, so the form's event is well typed. */
  method UpdateEventCallback(s: Store, original: Event, draft: Event) returns (reply: Reply)
    requires s.Valid() && WellTyped(draft)
    modifies s
    ensures s.Valid()
    ensures reply == RenameRefused <==> RenamesChannel(original, draft)
    ensures reply == RenameRefused ==> s.State() == old(s.State())
    ensures reply == Updated ==>
      s.State() == old(s.State()).(events := UpdateEvent(old(s.events), original.id, (row: Event) => Overwritten(row, draft)),
                                   commits := old(s.commits) + 1)
  {
    if Truthy(original.channelName) && original.channelName != draft.channelName {
      return RenameRefused;
    }
    UpdateEventKeepsIds(s.events, original.id, (row: Event) => Overwritten(row, draft));
    s.events := UpdateEvent(s.events, original.id, (row: Event) => Overwritten(row, draft));
    s.commits := s.commits + 1;
    reply := Updated;
  }

  /** The update reaches the original's row and no other: that row, found by
      its id, now holds the form's columns and is out of sync; every other
      row is as it was. */
  lemma UpdateReachesOnlyOriginal(events: seq<Event>, original: Event, draft: Event, i: nat)
    requires i < |events|
    ensures var after := UpdateEvent(events, original.id, (row: Event) => Overwritten(row, draft));
      && (events[i].id == original.id ==>
            && after[i].id == original.id && after[i].outOfSync
            && after[i].name == draft.name && after[i].channelName == draft.channelName
            && after[i].startDate == draft.startDate && after[i].endDate == draft.endDate
            && after[i].announcementMessageId == events[i].announcementMessageId
            && after[i].channelId == events[i].channelId && after[i].deleted == events[i].deleted)
      && (events[i].id != original.id ==> after[i] == events[i])
  {
  }

  /** Submitting the same form twice leaves the row as submitting it once. */
  lemma OverwriteIdempotent(row: Event, draft: Event)
    ensures Overwritten(Overwritten(row, draft), draft) == Overwritten(row, draft)
  {
  }

  /** An event without a channel name may be given one. */
  lemma AddingChannelNameAccepted(original: Event, draft: Event)
    requires !Truthy(original.channelName)
    ensures !RenamesChannel(original, draft)
  {
  }

  /** The update form filled from an event and submitted untouched is
      accepted: its channel name is the event's own. */
  lemma UnchangedFormAccepted(e: Event, timeText: string, parse: Parser, now: DateTime)
    requires Truthy(e.url) ==> WholeUrl(e.url.value)
    requires Truthy(e.imageUrl) ==> WholeUrl(e.imageUrl.value)
    requires Truthy(e.description) ==> PlainDescription(e.description.value, LinkLines(e) == [])
    requires EventTimeOf(timeText, parse, now).Ok?
    ensures OnSubmit(Prefill(e, timeText, FormFields), parse, now).Submitted?
    ensures !RenamesChannel(e, OnSubmit(Prefill(e, timeText, FormFields), parse, now).event)
  {
    ResubmitKeepsEvent(e, timeText, parse, now);
  }
}

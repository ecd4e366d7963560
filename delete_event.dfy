/** `moobot/discord/commands/delete_event.py`: deleting an event once the
    user confirms. The announcement goes first; then every user who answered
    the event gets a "no" calendar sync, and the event's RSVP rows and the
    event row are deleted in one commit. */
module DeleteEventCommand {
  import opened Wrappers
  import opened Exceptions
  import opened Seqs
  import opened Models
  import opened Platform
  import opened Db
  import Reconcile

  /** `event.rsvps`: the RSVP rows of the event, in table order. */
  function RsvpsOf(rsvps: seq<Rsvp>, eventId: nat): (r: seq<Rsvp>)
    ensures forall x :: x in r <==> x in rsvps && x.eventId == eventId
  {
    FilterSound(rsvps, (x: Rsvp) => x.eventId == eventId);
    FilterAll(rsvps, (x: Rsvp) => x.eventId == eventId);
    Filter(rsvps, (x: Rsvp) => x.eventId == eventId)
  }

  /** The "no" calendar syncs the tasks `delete_google_calendar_event` ask
      for, one per RSVP of the event, in order. */
  function NoSyncs(rsvps: seq<Rsvp>, eventId: nat): (r: seq<Effect>)
    ensures |r| == |rsvps|
    ensures forall k :: 0 <= k < |rsvps| ==> r[k] == CalendarSync(rsvps[k].userId, eventId, No)
  {
    seq(|rsvps|, k requires 0 <= k < |rsvps| => CalendarSync(rsvps[k].userId, eventId, No))
  }

  /** The syncs of one more RSVP. */
  lemma NoSyncsAppend(rsvps: seq<Rsvp>, x: Rsvp, eventId: nat)
    ensures NoSyncs(rsvps + [x], eventId) == NoSyncs(rsvps, eventId) + [CalendarSync(x.userId, eventId, No)]
  {
  }

  /** The `for rsvp in event.rsvps` loop: one task per RSVP, each recorded
      as the "no" sync it asks for. */
  method ScheduleNoSyncs(c: Client, rsvps: seq<Rsvp>, eventId: nat)
    modifies c
    ensures c.log == old(c.log) + NoSyncs(rsvps, eventId)
    ensures c.nextId == old(c.nextId)
  {
    var i := 0;
    while i < |rsvps|
      invariant i <= |rsvps|
      invariant c.log == old(c.log) + NoSyncs(rsvps[..i], eventId)
      invariant c.nextId == old(c.nextId)
    {
      NoSyncsAppend(rsvps[..i], rsvps[i], eventId);
      assert rsvps[..i + 1] == rsvps[..i] + [rsvps[i]];
      c.Record(CalendarSync(rsvps[i].userId, eventId, No));
      i := i + 1;
    }
    assert rsvps[..i] == rsvps;
  }

  /** `delete_event_cmd` once the confirmation view is answered. The
      interaction was deferred before the wait, so without `confirmed` the
      "Operation cancelled." reply is a second response to it and raises
      InteractionResponded, with nothing changed. Otherwise the announcement
      is deleted (an exception there ends the command before anything
      else), the syncs are asked for, and the RSVP rows and the event row
      go in one commit. */
  method DeleteEvent(s: Store, c: Client, e: Event, confirmed: bool, channelOk: bool, live: set<MessageId>)
    returns (r: Outcome<Exception>)
    requires s.Valid()
    modifies s, c
    ensures s.Valid()
    ensures c.nextId == old(c.nextId)
    ensures !confirmed ==> r == Fail(InteractionResponded) && s.State() == old(s.State()) && c.log == old(c.log)
    ensures r.Fail? && confirmed ==> s.State() == old(s.State()) && c.log == old(c.log)
    ensures confirmed ==>
      (r.Fail? <==> e.announcementMessageId.Some? && (!channelOk || e.announcementMessageId.value !in live))
    ensures r.Pass? ==>
      && confirmed
      && c.log == old(c.log)
                  + (if e.announcementMessageId.Some? then [DeleteMessage(e.announcementMessageId.value)] else [])
                  + NoSyncs(RsvpsOf(old(s.rsvps), e.id), e.id)
      && s.State() == old(s.State()).(events := Filter(old(s.events), (row: Event) => row.id != e.id),
                                      rsvps := Filter(old(s.rsvps), (x: Rsvp) => x.eventId != e.id),
                                      commits := old(s.commits) + 1)
  {
    if !confirmed {
      return Fail(InteractionResponded);
    }
    var announced := Reconcile.DeleteEventAnnouncement(c, e, channelOk, live);
    if announced.Fail? {
      return announced;
    }
    ScheduleNoSyncs(c, RsvpsOf(s.rsvps, e.id), e.id);
    s.rsvps := Filter(s.rsvps, (x: Rsvp) => x.eventId != e.id);
    FilterKeepsValid(s.events, e.id, s.nextEventId);
    s.events := Filter(s.events, (row: Event) => row.id != e.id);
    s.commits := s.commits + 1;
    r := Pass;
  }

  /** Deleting rows keeps the key unique, below the sequence's next value,
      and the rows well typed. */
  lemma {:induction false} FilterKeepsValid(events: seq<Event>, id: nat, next: nat)
    requires UniqueIds(events) && (forall i :: 0 <= i < |events| ==> events[i].id < next && WellTyped(events[i]))
    ensures var kept := Filter(events, (row: Event) => row.id != id);
      UniqueIds(kept) && (forall i :: 0 <= i < |kept| ==> kept[i].id < next && WellTyped(kept[i]))
    decreases |events|
  {
    var p := (row: Event) => row.id != id;
    if events != [] {
      var init := events[..|events| - 1];
      var last := events[|events| - 1];
      assert events == init + [last];
      FilterKeepsValid(init, id, next);
      FilterAppend(init, last, p);
      FilterSound(init, p);
      var kept := Filter(init, p);
      forall i | 0 <= i < |kept| ensures kept[i].id != last.id {
        assert kept[i] in init;
      }
    }
  }

  /** After a confirmed deletion the event is gone and no RSVP row refers to
      it; every other event row and RSVP row is kept. */
  lemma DeletionRemovesExactlyTheEvent(events: seq<Event>, rsvps: seq<Rsvp>, id: nat)
    ensures var kept := Filter(events, (row: Event) => row.id != id);
      && (forall i :: 0 <= i < |kept| ==> kept[i].id != id)
      && (forall row :: row in kept <==> row in events && row.id != id)
    ensures var left := Filter(rsvps, (x: Rsvp) => x.eventId != id);
      && (forall x :: x in left <==> x in rsvps && x.eventId != id)
      && multiset(left) + multiset(RsvpsOf(rsvps, id)) == multiset(rsvps)
  {
    var kept := Filter(events, (row: Event) => row.id != id);
    FilterSound(events, (row: Event) => row.id != id);
    FilterAll(events, (row: Event) => row.id != id);
    assert forall i :: 0 <= i < |kept| ==> kept[i] in kept;
    FilterSound(rsvps, (x: Rsvp) => x.eventId != id);
    FilterAll(rsvps, (x: Rsvp) => x.eventId != id);
    FilterPartition(rsvps, (x: Rsvp) => x.eventId != id, (x: Rsvp) => x.eventId == id);
  }

  /** Every user who answered the event, whatever the answer, is synced as
      not going, once per RSVP row. */
  lemma EveryRsvpSyncedNo(rsvps: seq<Rsvp>, id: nat, x: Rsvp)
    requires x in rsvps && x.eventId == id
    ensures CalendarSync(x.userId, id, No) in NoSyncs(RsvpsOf(rsvps, id), id)
  {
    var mine := RsvpsOf(rsvps, id);
    var k :| 0 <= k < |mine| && mine[k] == x;
    assert NoSyncs(mine, id)[k] == CalendarSync(x.userId, id, No);
  }
}

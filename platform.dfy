/** The chat platform as the core sees it: every call that changes something
    there (sending, editing and deleting messages, reactions, channel
    permissions, roles, direct messages) is appended to an effects log, and
    every new message or channel gets the next id. Reads (fetching a message,
    a channel's history, a guild's roles) are inputs of the operations that
    make them. */
module Platform {
  import opened Wrappers
  import opened Exceptions
  import opened Models

  /** `ReactionAction`: whether a reaction was added or removed. */
  datatype Action = Added | Removed

  /** One reaction on a message: its emoji and whether the bot made it (`me`). */
  datatype Reaction = Reaction(emoji: string, me: bool)

  /** A message as read back from a channel's history or a fetch. */
  datatype Message = Message(id: MessageId, authorId: UserId, content: string, reactions: seq<Reaction>)

  /** The announcement embed: title, link, text, image and thumbnail. */
  datatype Embed = Embed(
    title: string,
    url: Option<string>,
    description: string,
    image: Option<string>,
    thumbnail: Option<string>)

  /** A direct message, by the message template it is formatted from. */
  datatype Notice =
    | SyncEnableLink(authUrl: string)
    | SyncAlreadyEnabled
    | SyncDisabled
    | SyncSetupComplete
    | SyncTokenNotAuthorized

  datatype Effect =
    | SendAnnouncement(messageId: MessageId, embed: Embed)
    | EditAnnouncement(messageId: MessageId, embed: Embed)
    | DeleteMessage(messageId: MessageId)
    | AddReaction(messageId: MessageId, emoji: string)
    | RemoveReaction(messageId: MessageId, emoji: string, userId: UserId)
      /** `set_permissions(user, overwrite=PermissionOverwrite(read_messages=True))` */
    | GrantChannel(channelId: ChannelId, userId: UserId)
      /** `set_permissions(user, overwrite=None)` */
    | RevokeChannel(channelId: ChannelId, userId: UserId)
    | CreateChannel(channelId: ChannelId, name: Option<string>)
    | SendCalendar(messageId: MessageId, content: string)
    | EditCalendar(messageId: MessageId, content: string)
    | AddRole(userId: UserId)
    | RemoveRole(userId: UserId)
    | DirectMessage(userId: UserId, notice: Notice)
      /** A call of `handle_google_calendar_sync_on_rsvp(user, event, attendance)`. */
    | CalendarSync(userId: UserId, eventId: nat, attendance: AttendanceType)
      /** The "Sorry <mention>! Something went wrong" reply to a command that raised. */
    | Apology(userId: UserId)

  /** The effects a step made and whether an exception ended it. */
  datatype Pushed = Pushed(log: seq<Effect>, outcome: Outcome<Exception>)

  /** The calls of `handle_google_calendar_sync_on_rsvp` that raise, each
      with what escapes it: the worker runs in the calling thread and catches
      only RefreshError, so an HttpError of Google's API reaches the caller.
      Every other call returns. */
  type SyncFaults = map<Effect, Exception>

  /** Calendar syncs made one after another until one raises. Each user is
      fetched first: `users` are those `fetch_user` finds, and any other
      raises NotFound before its sync is made. What is made is a prefix of
      the syncs. */
  function SyncRun(syncs: seq<Effect>, users: set<UserId>, faults: SyncFaults): (r: Pushed)
    requires forall eff :: eff in syncs ==> eff.CalendarSync?
    ensures r.log <= syncs
    ensures r.outcome.Pass? ==> r.log == syncs
  {
    if syncs == [] then Pushed([], Pass)
    else
      var prev := SyncRun(syncs[..|syncs| - 1], users, faults);
      var eff := syncs[|syncs| - 1];
      assert syncs == syncs[..|syncs| - 1] + [eff];
      if prev.outcome.Fail? then prev
      else if eff.userId !in users then Pushed(prev.log, Fail(NotFound))
      else Pushed(prev.log + [eff], if eff in faults then Fail(faults[eff]) else Pass)
  }

  /** Whether every user of the syncs is found and no sync raises. */
  predicate SyncsClean(syncs: seq<Effect>, users: set<UserId>, faults: SyncFaults)
    requires forall eff :: eff in syncs ==> eff.CalendarSync?
  {
    forall k :: 0 <= k < |syncs| ==> syncs[k].userId in users && syncs[k] !in faults
  }

  /** The run ends without an exception exactly when every user is found
      and no sync raises. */
  lemma {:induction false} SyncRunClean(syncs: seq<Effect>, users: set<UserId>, faults: SyncFaults)
    requires forall eff :: eff in syncs ==> eff.CalendarSync?
    ensures SyncRun(syncs, users, faults).outcome.Pass? <==> SyncsClean(syncs, users, faults)
  {
    if syncs != [] {
      var init := syncs[..|syncs| - 1];
      SyncRunClean(init, users, faults);
      assert forall k :: 0 <= k < |init| ==> init[k] == syncs[k];
    }
  }

  /** A run that raises stopped at sync `j`, the first whose user is not
      found (NotFound, that sync not made) or that raises (its exception,
      that sync made); every sync before it was made. */
  lemma {:induction false} SyncRunFailure(syncs: seq<Effect>, users: set<UserId>, faults: SyncFaults)
    returns (j: nat)
    requires forall eff :: eff in syncs ==> eff.CalendarSync?
    requires SyncRun(syncs, users, faults).outcome.Fail?
    ensures j < |syncs| && SyncsClean(syncs[..j], users, faults)
    ensures var r := SyncRun(syncs, users, faults);
      if syncs[j].userId !in users then r == Pushed(syncs[..j], Fail(NotFound))
      else syncs[j] in faults && r == Pushed(syncs[..j + 1], Fail(faults[syncs[j]]))
  {
    var init := syncs[..|syncs| - 1];
    var prev := SyncRun(init, users, faults);
    if prev.outcome.Fail? {
      j := SyncRunFailure(init, users, faults);
      assert syncs[..j] == init[..j] && syncs[..j + 1] == init[..j + 1];
    } else {
      j := |init|;
      SyncRunClean(init, users, faults);
      assert syncs[..j] == init && syncs[..j + 1] == syncs;
    }
  }

  /** Once a sync has raised, later syncs add nothing. */
  lemma {:induction false} SyncRunStops(syncs: seq<Effect>, users: set<UserId>, faults: SyncFaults, i: nat, n: nat)
    requires i <= n <= |syncs| && forall eff :: eff in syncs ==> eff.CalendarSync?
    requires SyncRun(syncs[..i], users, faults).outcome.Fail?
    ensures SyncRun(syncs[..n], users, faults) == SyncRun(syncs[..i], users, faults)
    decreases n
  {
    if n > i {
      assert syncs[..n][..n - 1] == syncs[..n - 1];
      SyncRunStops(syncs, users, faults, i, n - 1);
    }
  }

  /** `discord.Client`, logged in as the bot user `botId`. */
  class Client {
    const botId: UserId
    var log: seq<Effect>
    var nextId: nat

    constructor (botId: UserId, firstId: nat)
      ensures this.botId == botId && log == [] && nextId == firstId
    {
      this.botId := botId;
      log := [];
      nextId := firstId;
    }

    method Record(e: Effect)
      modifies this
      ensures log == old(log) + [e] && nextId == old(nextId)
    {
      log := log + [e];
    }

    /** The id of a message or channel the platform is about to create. */
    method NewId() returns (id: nat)
      modifies this
      ensures id == old(nextId) && nextId == old(nextId) + 1 && log == old(log)
    {
      id := nextId;
      nextId := nextId + 1;
    }
  }

  /** The loop that makes the syncs one after another, each after fetching
      its user, and stops at the first exception. */
  method RunSyncs(c: Client, syncs: seq<Effect>, users: set<UserId>, faults: SyncFaults)
    returns (r: Outcome<Exception>)
    requires forall eff :: eff in syncs ==> eff.CalendarSync?
    modifies c
    ensures c.nextId == old(c.nextId)
    ensures c.log == old(c.log) + SyncRun(syncs, users, faults).log
    ensures r == SyncRun(syncs, users, faults).outcome
  {
    r := Pass;
    var i := 0;
    while i < |syncs| && r.Pass?
      invariant i <= |syncs|
      invariant c.log == old(c.log) + SyncRun(syncs[..i], users, faults).log
      invariant r == SyncRun(syncs[..i], users, faults).outcome
      invariant c.nextId == old(c.nextId)
    {
      assert syncs[..i + 1][..i] == syncs[..i];
      var eff := syncs[i];
      if eff.userId !in users {
        r := Fail(NotFound);
      } else {
        c.Record(eff);
        if eff in faults {
          r := Fail(faults[eff]);
        }
      }
      i := i + 1;
    }
    if i < |syncs| {
      SyncRunStops(syncs, users, faults, i, |syncs|);
    }
    assert syncs[..|syncs|] == syncs;
  }
}

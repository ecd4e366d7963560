/** `moobot/discord/discord_bot.py`: how a chat message becomes a bot
    command, how the registered command patterns are tried on it, and how a
    reaction is routed to the handler registered for its message; with the
    registrations that `moobot/events.py` makes. */
module DiscordBot {
  import opened Wrappers
  import opened Exceptions
  import opened Seqs
  import opened Text
  import opened Models
  import opened Platform
  import Digest
  import Handlers

  // ---------------------------------------------------------------------
  // The command in a message
  // ---------------------------------------------------------------------

  /** `<@id>`, the text of a mention of user `id`. */
  function Mention(id: UserId): string {
    "<@" + NatToString(id) + ">"
  }

  /** `<@!id>`, the nickname form of the same mention. */
  function NickMention(id: UserId): string {
    "<@!" + NatToString(id) + ">"
  }

  /** The length of the match of `<@!?id>` that starts at `j` in `s`, or 0. */
  function MentionAt(s: string, id: UserId, j: nat): nat {
    if OccursAt(s, Mention(id), j) then |Mention(id)|
    else if OccursAt(s, NickMention(id), j) then |NickMention(id)|
    else 0
  }

  /** Where the leftmost match of `<@!?id>` at or after `j` starts. */
  function FirstMention(s: string, id: UserId, j: nat): (r: Option<nat>)
    ensures r.Some? ==> j <= r.value < |s| && r.value + MentionAt(s, id, r.value) <= |s|
    ensures r.Some? ==> MentionAt(s, id, r.value) > 0
    ensures r.Some? ==> forall k :: j <= k < r.value ==> MentionAt(s, id, k) == 0
    ensures r.None? ==> forall k :: j <= k < |s| ==> MentionAt(s, id, k) == 0
    decreases |s| - j
  {
    if j >= |s| then None
    else if MentionAt(s, id, j) > 0 then Some(j)
    else FirstMention(s, id, j + 1)
  }

  /** `re.sub(rf"<@!?{id}>", "", s, 1)`: the leftmost mention of `id` cut out. */
  function RemoveFirstMention(s: string, id: UserId): (r: string)
    ensures r == s <==> FirstMention(s, id, 0).None?
  {
    match FirstMention(s, id, 0)
    case None => s
    case Some(j) => s[..j] + s[j + MentionAt(s, id, j)..]
  }

  /** Text with no whitespace at either end, as `str.strip()` leaves it. */
  predicate Trimmed(s: string) {
    s == [] || (!IsWhitespace(s[0]) && !IsWhitespace(s[|s| - 1]))
  }

  /** `get_command_from_message`: a message that mentions the bot is a
      command, whatever it starts with; otherwise one that starts with the
      prefix is; the command is the rest of the text, stripped. `mentioned`
      is `client.user.mentioned_in(message)`. */
  function GetCommandFromMessage(content: string, botId: UserId, mentioned: bool, prefix: Option<string>)
    : (r: Option<string>)
    ensures r.None? <==> !mentioned && !(prefix.Some? && StartsWith(content, prefix.value))
    ensures r.Some? ==> Trimmed(r.value)
  {
    if mentioned then Some(Strip(RemoveFirstMention(content, botId)))
    else if prefix.Some? && StartsWith(content, prefix.value) then Some(Strip(content[|prefix.value|..]))
    else None
  }

  /** Removing a mention cuts out exactly one `<@id>` or `<@!id>`, the
      leftmost, and keeps the text on both sides of it. */
  lemma MentionCutOut(s: string, id: UserId) returns (j: nat, m: string)
    requires FirstMention(s, id, 0).Some?
    ensures m == Mention(id) || m == NickMention(id)
    ensures j + |m| <= |s| && s[j..j + |m|] == m
    ensures RemoveFirstMention(s, id) == s[..j] + s[j + |m|..]
    ensures forall k :: 0 <= k < j ==> MentionAt(s, id, k) == 0
  {
    j := FirstMention(s, id, 0).value;
    var n := MentionAt(s, id, j);
    m := s[j..j + n];
    MentionForms(s, id, j);
  }

  /** A mention found at `j` is one of the two forms. */
  lemma MentionForms(s: string, id: UserId, j: nat)
    requires MentionAt(s, id, j) > 0
    ensures j + MentionAt(s, id, j) <= |s|
    ensures s[j..j + MentionAt(s, id, j)] == Mention(id) || s[j..j + MentionAt(s, id, j)] == NickMention(id)
  {
  }

  /** A message that opens with the bot's mention is the command that follows
      it, stripped, whatever the prefix. */
  lemma MentionedCommand(botId: UserId, rest: string, prefix: Option<string>)
    ensures GetCommandFromMessage(Mention(botId) + rest, botId, true, prefix) == Some(Strip(rest))
    ensures GetCommandFromMessage(NickMention(botId) + rest, botId, true, prefix) == Some(Strip(rest))
  {
    var s := Mention(botId) + rest;
    assert s[0..|Mention(botId)|] == Mention(botId);
    assert RemoveFirstMention(s, botId) == s[|Mention(botId)|..];
    assert s[|Mention(botId)|..] == rest;
    var t := NickMention(botId) + rest;
    assert t[0..|NickMention(botId)|] == NickMention(botId);
    assert t[2] == '!' && Mention(botId)[2] != '!';
    assert !OccursAt(t, Mention(botId), 0);
    assert RemoveFirstMention(t, botId) == t[|NickMention(botId)|..];
    assert t[|NickMention(botId)|..] == rest;
  }

  /** Without a mention, text after the prefix is the command, stripped. */
  lemma PrefixedCommand(botId: UserId, p: string, rest: string)
    ensures GetCommandFromMessage(p + rest, botId, false, Some(p)) == Some(Strip(rest))
  {
    assert (p + rest)[..|p|] == p;
    assert (p + rest)[|p|..] == rest;
  }

  /** A mention takes precedence: the prefix plays no part in a message that
      mentions the bot. */
  lemma MentionTakesPrecedence(content: string, botId: UserId, prefix: Option<string>)
    ensures GetCommandFromMessage(content, botId, true, prefix) == GetCommandFromMessage(content, botId, true, None)
  {
  }

  // ---------------------------------------------------------------------
  // Command patterns
  // ---------------------------------------------------------------------

  /** The regexes given to `DiscordBot.command` here: a fixed text, or a
      fixed text followed by `(`(.+)`|(.+))`, one or more characters that
      may be quoted in backticks. */
  datatype Regex = Literal(text: string) | TextThenArgument(prefix: string)

  const RefreshRegex: Regex := Literal("e refresh")
  const AddRegex: Regex := TextThenArgument("e add ")
  const SyncCommandsRegex: Regex := Literal("sync_commands")

  /** The regex matches all of `body`, ignoring case; `.` does not match a
      newline. */
  predicate MatchesBody(r: Regex, body: string) {
    match r
    case Literal(t) => Lower(body) == Lower(t)
    case TextThenArgument(p) =>
      |body| > |p| && Lower(body[..|p|]) == Lower(p) && '\n' !in body[|p|..]
  }

  /** `re.compile(f"^{r}$", re.IGNORECASE).match(s)` succeeds: `$` matches at
      the end of `s` or just before a newline that ends it. */
  predicate FullMatch(r: Regex, s: string) {
    MatchesBody(r, s) || (s != [] && s[|s| - 1] == '\n' && MatchesBody(r, s[..|s| - 1]))
  }

  /** The command `get_command_from_message` returns has no trailing newline,
      so for it the anchor is the end of the text. */
  lemma TrimmedAnchorsAtEnd(r: Regex, s: string)
    requires Trimmed(s)
    ensures FullMatch(r, s) <==> MatchesBody(r, s)
  {
    if s != [] {
      assert IsWhitespace('\n');
    }
  }

  lemma LowerIdempotent(s: string)
    ensures Lower(Lower(s)) == Lower(s)
  {
  }

  lemma LowerSlices(s: string, i: nat, j: nat)
    requires i <= j <= |s|
    ensures Lower(s)[i..j] == Lower(s[i..j])
  {
  }

  lemma LowerKeepsNewlines(s: string)
    ensures '\n' in s <==> '\n' in Lower(s)
  {
    if '\n' in s {
      var k :| 0 <= k < |s| && s[k] == '\n';
      assert Lower(s)[k] == '\n';
    }
    if '\n' in Lower(s) {
      var k :| 0 <= k < |s| && Lower(s)[k] == '\n';
      assert s[k] == '\n';
    }
  }

  lemma MatchesBodyIgnoresCase(r: Regex, body: string)
    ensures MatchesBody(r, body) <==> MatchesBody(r, Lower(body))
  {
    LowerIdempotent(body);
    if r.TextThenArgument? && |body| > |r.prefix| {
      var p := r.prefix;
      var lowered := Lower(body);
      LowerSlices(body, 0, |p|);
      assert lowered[..|p|] == Lower(body[..|p|]);
      LowerIdempotent(body[..|p|]);
      LowerSlices(body, |p|, |body|);
      assert lowered[|p|..] == Lower(body[|p|..]);
      LowerKeepsNewlines(body[|p|..]);
    }
  }

  /** Patterns are case-insensitive: a command matches exactly when its
      lower-case form does. */
  lemma MatchIgnoresCase(r: Regex, s: string)
    ensures FullMatch(r, s) <==> FullMatch(r, Lower(s))
  {
    MatchesBodyIgnoresCase(r, s);
    if s != [] {
      LowerSlices(s, 0, |s| - 1);
      MatchesBodyIgnoresCase(r, s[..|s| - 1]);
    }
  }

  /** `command.group(2) or command.group(3)` for `e add (`(.+)`|(.+))`: the
      text between the backticks when the argument is quoted, else all of
      it. */
  function AddArgument(s: string): (arg: string)
    requires FullMatch(AddRegex, s)
    ensures |arg| >= 1 && '\n' !in arg
  {
    var body := if MatchesBody(AddRegex, s) then s else s[..|s| - 1];
    var rest := body[|AddRegex.prefix|..];
    if |rest| >= 3 && rest[0] == '`' && rest[|rest| - 1] == '`' then rest[1..|rest| - 1] else rest
  }

  /** A quoted argument is passed on without its backticks, an unquoted one
      as it is. */
  lemma AddArgumentUnquotes(x: string)
    requires |x| >= 1 && '\n' !in x
    ensures FullMatch(AddRegex, "e add `" + x + "`")
    ensures AddArgument("e add `" + x + "`") == x
    ensures !(|x| >= 3 && x[0] == '`' && x[|x| - 1] == '`') ==>
      FullMatch(AddRegex, "e add " + x) && AddArgument("e add " + x) == x
  {
    var q := "e add `" + x + "`";
    var p := AddRegex.prefix;
    assert q[..|p|] == p;
    assert q[|p|..] == "`" + x + "`";
    assert MatchesBody(AddRegex, q);
    var u := "e add " + x;
    assert u[..|p|] == p;
    assert u[|p|..] == x;
    assert MatchesBody(AddRegex, u);
  }

  /** The commands registered in `discord_bot.py`, by the function that runs. */
  datatype CommandName = RefreshEvents | AddEventJson | SyncCommands

  datatype Command = Command(regex: Regex, name: CommandName)

  /** The registry is a dict keyed by the compiled pattern: one entry per regex. */
  predicate DistinctRegexes(commands: seq<Command>) {
    forall i, j :: 0 <= i < j < |commands| ==> commands[i].regex != commands[j].regex
  }

  /** The position of the first registered pattern that matches `command`:
      the `for pattern in _discord_bot_commands` loop that breaks after the
      first match. */
  function Dispatch(commands: seq<Command>, command: string): (r: Option<nat>)
    ensures r.Some? ==> r.value < |commands| && FullMatch(commands[r.value].regex, command)
    ensures r.Some? ==> forall j :: 0 <= j < r.value ==> !FullMatch(commands[j].regex, command)
    ensures r.None? <==> forall j :: 0 <= j < |commands| ==> !FullMatch(commands[j].regex, command)
  {
    FirstIndex(commands, (c: Command) => FullMatch(c.regex, command))
  }

  /** `_discord_bot_commands[re.compile(...)] = f`: a regex registered again
      keeps its place and gets the new function; a new one goes last. */
  function Registered(commands: seq<Command>, r: Regex, name: CommandName): (result: seq<Command>)
    ensures DistinctRegexes(commands) ==> DistinctRegexes(result)
    ensures exists i :: 0 <= i < |result| && result[i] == Command(r, name)
  {
    match FirstIndex(commands, (c: Command) => c.regex == r)
    case Some(i) => assert commands[i := Command(r, name)][i] == Command(r, name); commands[i := Command(r, name)]
    case None => assert (commands + [Command(r, name)])[|commands|] == Command(r, name); commands + [Command(r, name)]
  }

  /** Registering keeps every other entry where it was, and the registered
      regex is found with the new function. */
  lemma RegisteredEntries(commands: seq<Command>, r: Regex, name: CommandName)
    requires DistinctRegexes(commands)
    ensures var result := Registered(commands, r, name);
      && |commands| <= |result| <= |commands| + 1
      && (forall i :: 0 <= i < |commands| && commands[i].regex != r ==> result[i] == commands[i])
      && (forall i :: 0 <= i < |result| && result[i].regex == r ==> result[i].name == name)
  {
  }

  /** The registry as the module is loaded: the three decorators, in order. */
  const BuiltInCommands: seq<Command> :=
    [Command(RefreshRegex, RefreshEvents), Command(AddRegex, AddEventJson), Command(SyncCommandsRegex, SyncCommands)]

  /** The fixed text a regex opens with. */
  function FixedText(r: Regex): string {
    match r
    case Literal(t) => t
    case TextThenArgument(p) => p
  }

  /** A command that a regex matches opens with the regex's fixed text,
      ignoring case. */
  lemma OpensWithFixedText(r: Regex, s: string)
    requires FullMatch(r, s)
    ensures |FixedText(r)| <= |s| && Lower(s)[..|FixedText(r)|] == Lower(FixedText(r))
  {
    var body := if MatchesBody(r, s) then s else s[..|s| - 1];
    var f := FixedText(r);
    assert |f| <= |body|;
    LowerSlices(body, 0, |f|);
    LowerSlices(s, 0, |f|);
    assert body[..|f|] == s[..|f|];
  }

  /** No command matches two of the built-in patterns, so their order does
      not decide which runs. */
  lemma BuiltInPatternsDisjoint(s: string)
    ensures !(FullMatch(RefreshRegex, s) && FullMatch(AddRegex, s))
    ensures !(FullMatch(RefreshRegex, s) && FullMatch(SyncCommandsRegex, s))
    ensures !(FullMatch(AddRegex, s) && FullMatch(SyncCommandsRegex, s))
  {
    assert Lower(FixedText(RefreshRegex))[2] == 'r' && Lower(FixedText(RefreshRegex))[0] == 'e';
    assert Lower(FixedText(AddRegex))[2] == 'a';
    assert Lower(FixedText(SyncCommandsRegex))[2] == 'n' && Lower(FixedText(SyncCommandsRegex))[0] == 's';
    if FullMatch(RefreshRegex, s) {
      OpensWithFixedText(RefreshRegex, s);
      assert Lower(s)[2] == 'r' && Lower(s)[0] == 'e';
    }
    if FullMatch(AddRegex, s) {
      OpensWithFixedText(AddRegex, s);
      assert Lower(s)[2] == 'a';
    }
    if FullMatch(SyncCommandsRegex, s) {
      OpensWithFixedText(SyncCommandsRegex, s);
      assert Lower(s)[2] == 'n' && Lower(s)[0] == 's';
    }
  }

  /** The registry the decorators build, as a class whose one field is the
      module-level `_discord_bot_commands` dict. */
  class CommandRegistry {
    var commands: seq<Command>

    predicate Valid()
      reads this
    {
      DistinctRegexes(commands)
    }

    constructor ()
      ensures Valid() && commands == []
    {
      commands := [];
    }

    /** The `deco` closure of `DiscordBot.command(r)` applied to `name`. */
    method Register(r: Regex, name: CommandName)
      requires Valid()
      modifies this
      ensures Valid()
      ensures commands == Registered(old(commands), r, name)
    {
      commands := Registered(commands, r, name);
    }
  }

  // ---------------------------------------------------------------------
  // Reaction handlers
  // ---------------------------------------------------------------------

  /** A registered reaction handler: the calendar message's, or an event
      announcement's, a closure over the event row as it was read when it was
      registered. */
  datatype Handler = CalendarHandler | EventHandler(event: Event)

  /** `RawReactionActionEvent`: the message, the guild (absent in a direct
      message), the reacting user and the emoji. */
  datatype Payload = Payload(messageId: MessageId, guildId: Option<nat>, userId: UserId, emoji: string)

  /** The call `self.reaction_handlers[message_id](action, emoji, user)`. */
  datatype HandlerCall = HandlerCall(handler: Handler, action: Action, emoji: string, user: Handlers.Reactor)

  /** A command that ran: which, on which command text. */
  datatype Invocation = Invocation(name: CommandName, command: string)

  /** Which command, if any, a message runs, with the bot logged in as
      `botId`. */
  function Routed(commands: seq<Command>, botId: UserId, prefix: Option<string>, m: Message, mentioned: bool)
    : (r: Option<Invocation>)
    ensures m.authorId == botId ==> r.None?
    ensures r.Some? ==>
      && GetCommandFromMessage(m.content, botId, mentioned, prefix) == Some(r.value.command)
      && exists i :: 0 <= i < |commands| && commands[i].name == r.value.name
           && FullMatch(commands[i].regex, r.value.command)
           && forall j :: 0 <= j < i ==> !FullMatch(commands[j].regex, r.value.command)
  {
    if m.authorId == botId then None
    else match GetCommandFromMessage(m.content, botId, mentioned, prefix)
      case None => None
      case Some(command) =>
        match Dispatch(commands, command)
        case None => None
        case Some(i) => Some(Invocation(commands[i].name, command))
  }

  /** The first matching pattern decides what a message routes to. */
  lemma RoutedTo(commands: seq<Command>, botId: UserId, prefix: Option<string>, m: Message, mentioned: bool,
                 command: string, i: nat)
    requires m.authorId != botId && GetCommandFromMessage(m.content, botId, mentioned, prefix) == Some(command)
    requires i < |commands| && FullMatch(commands[i].regex, command)
    requires forall j :: 0 <= j < i ==> !FullMatch(commands[j].regex, command)
    ensures Routed(commands, botId, prefix, m, mentioned) == Some(Invocation(commands[i].name, command))
  {
    var d := Dispatch(commands, command);
    assert d.Some?;
    assert d.value == i;
  }

  /** The `for pattern in _discord_bot_commands` loop of `on_message`, up to
      its `break`: the position of the first pattern that matches. */
  method FirstMatching(commands: seq<Command>, command: string) returns (found: Option<nat>)
    ensures found == Dispatch(commands, command)
  {
    var i := 0;
    while i < |commands|
      invariant i <= |commands|
      invariant forall j :: 0 <= j < i ==> !FullMatch(commands[j].regex, command)
    {
      if FullMatch(commands[i].regex, command) {
        found := Some(i);
        assert Dispatch(commands, command) == Some(i);
        return;
      }
      i := i + 1;
    }
    found := None;
  }

  /** Registering `event`'s handler: `add_event_reaction_handler`. */
  function WithEventHandler(handlers: map<MessageId, Handler>, e: Event, channelOk: bool)
    : (r: Result<map<MessageId, Handler>, Exception>)
    ensures r.Err? <==> !channelOk || e.announcementMessageId.None?
    ensures r.Err? ==> r.error == ValueError
    ensures r.Ok? ==>
      && r.value.Keys == handlers.Keys + {e.announcementMessageId.value}
      && r.value[e.announcementMessageId.value] == EventHandler(e)
      && forall id :: id in handlers && id != e.announcementMessageId.value ==> r.value[id] == handlers[id]
  {
    if !channelOk || e.announcementMessageId.None? then Err(ValueError)
    else Ok(handlers[e.announcementMessageId.value := EventHandler(e)])
  }

  /** The handlers and the outcome after the first `n` rows of
      `add_reaction_handlers`' loop: the rows that are not deleted are
      registered in table order, and an exception ends the loop. */
  datatype Registration = Registration(handlers: map<MessageId, Handler>, outcome: Outcome<Exception>)

  function RegisterEvents(start: map<MessageId, Handler>, events: seq<Event>, channelOk: bool, n: nat)
    : (r: Registration)
    requires n <= |events|
  {
    if n == 0 then Registration(start, Pass)
    else
      var prev := RegisterEvents(start, events, channelOk, n - 1);
      var e := events[n - 1];
      if prev.outcome.Fail? || e.deleted then prev
      else match WithEventHandler(prev.handlers, e, channelOk)
        case Err(x) => Registration(prev.handlers, Fail(x))
        case Ok(h) => Registration(h, Pass)
  }

  /** Handlers are never unregistered: a deleted event's handler stays. */
  lemma {:induction false} HandlersOnlyGrow(start: map<MessageId, Handler>, events: seq<Event>, channelOk: bool, n: nat)
    requires n <= |events|
    ensures start.Keys <= RegisterEvents(start, events, channelOk, n).handlers.Keys
  {
    if n > 0 {
      HandlersOnlyGrow(start, events, channelOk, n - 1);
    }
  }

  /** The loop raises exactly when some row it reaches is not deleted and
      cannot be registered, the announcement channel missing or the
      announcement not yet sent. */
  lemma {:induction false} RegistrationFails(start: map<MessageId, Handler>, events: seq<Event>, channelOk: bool, n: nat)
    requires n <= |events|
    ensures var r := RegisterEvents(start, events, channelOk, n);
      && (r.outcome.Fail? ==> r.outcome.error == ValueError)
      && (r.outcome.Fail? <==>
            exists i :: 0 <= i < n && !events[i].deleted && (!channelOk || events[i].announcementMessageId.None?))
  {
    if n > 0 {
      RegistrationFails(start, events, channelOk, n - 1);
    }
  }

  /** No two live events share an announcement. */
  predicate DistinctAnnouncements(events: seq<Event>) {
    forall i, j :: 0 <= i < j < |events| && !events[i].deleted && !events[j].deleted
      && events[i].announcementMessageId.Some? && events[j].announcementMessageId.Some?
      ==> events[i].announcementMessageId != events[j].announcementMessageId
  }

  /** When the loop raised nothing, the reactions on every live event's
      announcement reach that event's handler, and every other message keeps
      the handler it had. */
  lemma {:induction false} EveryLiveEventRegistered(start: map<MessageId, Handler>, events: seq<Event>, channelOk: bool, n: nat)
    requires n <= |events| && DistinctAnnouncements(events)
    requires RegisterEvents(start, events, channelOk, n).outcome.Pass?
    ensures var h := RegisterEvents(start, events, channelOk, n).handlers;
      && start.Keys <= h.Keys
      && (forall i :: 0 <= i < n && !events[i].deleted ==>
            events[i].announcementMessageId.Some?
            && events[i].announcementMessageId.value in h
            && h[events[i].announcementMessageId.value] == EventHandler(events[i]))
      && (forall id :: id in start
            && (forall i :: 0 <= i < n && !events[i].deleted ==> events[i].announcementMessageId != Some(id))
            ==> h[id] == start[id])
  {
    if n > 0 {
      var prev := RegisterEvents(start, events, channelOk, n - 1);
      assert prev.outcome.Pass?;
      EveryLiveEventRegistered(start, events, channelOk, n - 1);
      HandlersOnlyGrow(start, events, channelOk, n - 1);
    }
  }

  /** `DiscordBot`: the client it is logged in with, the command prefix, the
      command registry and `reaction_handlers`, message id to handler. */
  class Bot {
    const client: Client
    const commandPrefix: Option<string>
    const registry: CommandRegistry
    var reactionHandlers: map<MessageId, Handler>

    constructor (client: Client, commandPrefix: Option<string>, registry: CommandRegistry)
      ensures this.client == client && this.commandPrefix == commandPrefix && this.registry == registry
      ensures reactionHandlers == map[]
    {
      this.client := client;
      this.commandPrefix := commandPrefix;
      this.registry := registry;
      reactionHandlers := map[];
    }

    /** `on_message`: the bot's own messages are ignored; otherwise the
        first registered pattern that matches the command runs, with
        `outcome` what it raises; an exception is answered with an apology
        to the author and raised again. */
    method OnMessage(m: Message, mentioned: bool, outcome: Outcome<Exception>)
      returns (ran: Option<Invocation>, r: Outcome<Exception>)
      modifies client
      ensures ran == Routed(old(registry.commands), client.botId, commandPrefix, m, mentioned)
      ensures r == if ran.Some? then outcome else Pass
      ensures client.log == old(client.log) + (if ran.Some? && outcome.Fail? then [Apology(m.authorId)] else [])
      ensures client.nextId == old(client.nextId)
    {
      ran := Route(m, mentioned);
      r := Pass;
      if ran.Some? && outcome.Fail? {
        client.Record(Apology(m.authorId));
        r := outcome;
      }
    }

    /** The part of `on_message` that decides which command runs. */
    method Route(m: Message, mentioned: bool) returns (ran: Option<Invocation>)
      ensures ran == Routed(registry.commands, client.botId, commandPrefix, m, mentioned)
    {
      if m.authorId == client.botId {
        return None;
      }
      var command := GetCommandFromMessage(m.content, client.botId, mentioned, commandPrefix);
      if command.None? {
        return None;
      }
      var i := FirstMatching(registry.commands, command.value);
      if i.None? {
        return None;
      }
      RoutedTo(registry.commands, client.botId, commandPrefix, m, mentioned, command.value, i.value);
      ran := Some(Invocation(registry.commands[i.value].name, command.value));
    }

    /** `on_reaction_change`: reactions on a message with no handler are
        ignored; otherwise the reacting user is looked up (a guild member
        through `query_members`, else the cached user) and the handler is
        called. `guildFound`, `members` and `userFound` are what the platform
        answers. */
    function OnReactionChange(action: Action, p: Payload, guildFound: bool, members: seq<UserId>, userFound: bool)
      : (r: Result<Option<HandlerCall>, Exception>)
      reads this
      ensures r == Ok(None) <==> p.messageId !in reactionHandlers
      ensures r.Err? <==>
        && p.messageId in reactionHandlers
        && (if p.guildId.Some? then !guildFound || members == [] else !userFound)
      ensures r.Err? ==> r.error == if p.guildId.Some? && guildFound then IndexError else ValueError
      ensures r.Ok? && r.value.Some? ==>
        r.value.value == HandlerCall(reactionHandlers[p.messageId], action, p.emoji, r.value.value.user)
        && r.value.value.user.isMember == p.guildId.Some?
    {
      if p.messageId !in reactionHandlers then Ok(None)
      else if p.guildId.Some? then
        if !guildFound then Err(ValueError)
        else if members == [] then Err(IndexError)
        else Ok(Some(HandlerCall(reactionHandlers[p.messageId], action, p.emoji, Handlers.Reactor(members[0], true))))
      else if !userFound then Err(ValueError)
      else Ok(Some(HandlerCall(reactionHandlers[p.messageId], action, p.emoji, Handlers.Reactor(p.userId, false))))
    }

    /** `add_event_reaction_handler`: the announcement channel must exist and
        the event must have been announced. */
    method AddEventReactionHandler(e: Event, channelOk: bool) returns (r: Outcome<Exception>)
      modifies this
      ensures WithEventHandler(old(reactionHandlers), e, channelOk)
        == if r.Pass? then Ok(reactionHandlers) else Err(r.error)
      ensures r.Fail? ==> reactionHandlers == old(reactionHandlers)
    {
      if !channelOk {
        return Fail(ValueError);
      }
      if e.announcementMessageId.None? {
        return Fail(ValueError);
      }
      reactionHandlers := reactionHandlers[e.announcementMessageId.value := EventHandler(e)];
      r := Pass;
    }

    /** `add_calendar_reaction_handler`: the calendar channel must exist,
        both custom emojis must be found by name (`emojisFound`; a miss
        raises StopIteration inside the coroutine, seen as RuntimeError)
        and the channel must hold a message of the bot's; its `history` is
        what the channel holds, newest first. */
    method AddCalendarReactionHandler(channelOk: bool, emojisFound: bool, history: seq<Message>)
      returns (r: Outcome<Exception>)
      modifies this
      ensures r.Fail? <==> !channelOk || !emojisFound || Digest.CalendarMessage(history, client.botId).None?
      ensures r.Fail? ==> reactionHandlers == old(reactionHandlers)
      ensures r.Fail? ==> r.error == if channelOk && !emojisFound then RuntimeError else ValueError
      ensures r.Pass? ==>
        reactionHandlers == old(reactionHandlers)[Digest.CalendarMessage(history, client.botId).value.id := CalendarHandler]
    {
      if !channelOk {
        return Fail(ValueError);
      }
      var message := Digest.FindCalendarMessage(history, client.botId);
      if !emojisFound {
        return Fail(RuntimeError);
      }
      if message.None? {
        return Fail(ValueError);
      }
      reactionHandlers := reactionHandlers[message.value.id := CalendarHandler];
      r := Pass;
    }

    /** `add_reaction_handlers`: the calendar message's handler, then each
        event row that is not deleted, in table order. */
    method AddReactionHandlers(events: seq<Event>, calendarChannelOk: bool, emojisFound: bool,
                               history: seq<Message>, announceChannelOk: bool)
      returns (r: Outcome<Exception>)
      modifies this
      ensures var calendar := Digest.CalendarMessage(history, client.botId);
        if !calendarChannelOk || calendar.None? then
          r.Fail? && reactionHandlers == old(reactionHandlers)
          && r.error == if calendarChannelOk && !emojisFound then RuntimeError else ValueError
        else if !emojisFound then
          r == Fail(RuntimeError) && reactionHandlers == old(reactionHandlers)
        else
          Registration(reactionHandlers, r)
          == RegisterEvents(old(reactionHandlers)[calendar.value.id := CalendarHandler], events, announceChannelOk, |events|)
    {
      r := AddCalendarReactionHandler(calendarChannelOk, emojisFound, history);
      if r.Fail? {
        return;
      }
      ghost var start := reactionHandlers;
      var i := 0;
      while i < |events| && r.Pass?
        invariant i <= |events|
        invariant Registration(reactionHandlers, r) == RegisterEvents(start, events, announceChannelOk, i)
      {
        if !events[i].deleted {
          r := AddEventReactionHandler(events[i], announceChannelOk);
        }
        i := i + 1;
      }
      if i < |events| {
        RegisteredStops(start, events, announceChannelOk, i, |events|);
      }
    }
  }

  /** Once a registration has raised, later rows change nothing. */
  lemma {:induction false} RegisteredStops(start: map<MessageId, Handler>, events: seq<Event>, channelOk: bool, i: nat, n: nat)
    requires i <= n <= |events|
    requires RegisterEvents(start, events, channelOk, i).outcome.Fail?
    ensures RegisterEvents(start, events, channelOk, n) == RegisterEvents(start, events, channelOk, i)
    decreases n
  {
    if n > i {
      RegisteredStops(start, events, channelOk, i, n - 1);
    }
  }

  /** A reaction routed to an event's handler after a clean registration
      reaches the event whose announcement it is on. */
  lemma ReactionReachesItsEvent(b: Bot, start: map<MessageId, Handler>, events: seq<Event>, channelOk: bool,
                                i: nat, action: Action, p: Payload, guildFound: bool, members: seq<UserId>,
                                userFound: bool)
    requires i < |events| && !events[i].deleted && DistinctAnnouncements(events)
    requires RegisterEvents(start, events, channelOk, |events|).outcome.Pass?
    requires b.reactionHandlers == RegisterEvents(start, events, channelOk, |events|).handlers
    requires events[i].announcementMessageId == Some(p.messageId)
    ensures var r := b.OnReactionChange(action, p, guildFound, members, userFound);
      r.Ok? ==> r.value.Some? && r.value.value.handler == EventHandler(events[i])
  {
    EveryLiveEventRegistered(start, events, channelOk, |events|);
  }
}

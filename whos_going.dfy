/** `moobot/discord/commands/whos_going.py`: the attendee list of one event.
    The event's RSVP user ids are grouped by answer, in RSVP order, and each
    group is listed as `- <@id>` lines, or "None" when it is empty, under
    "Going", "Maybe" and "Not going". */
module WhosGoing {
  import opened Wrappers
  import opened Seqs
  import opened Text
  import opened Models
  import DiscordBot

  /** The user ids of the RSVPs that gave answer `t`, in RSVP order. */
  function UsersOf(rsvps: seq<Rsvp>, t: AttendanceType): (r: seq<UserId>)
    ensures |r| <= |rsvps|
  {
    if rsvps == [] then []
    else
      var last := rsvps[|rsvps| - 1];
      UsersOf(rsvps[..|rsvps| - 1], t) + if last.attendanceType == t then [last.userId] else []
  }

  /** The user ids of all the RSVPs, in order. */
  function UserIds(rsvps: seq<Rsvp>): (r: seq<UserId>)
    ensures |r| == |rsvps| && forall k :: 0 <= k < |rsvps| ==> r[k] == rsvps[k].userId
  {
    seq(|rsvps|, k requires 0 <= k < |rsvps| => rsvps[k].userId)
  }

  /** One more RSVP adds its user to its own answer's list only. */
  lemma UsersOfAppend(rsvps: seq<Rsvp>, x: Rsvp, t: AttendanceType)
    ensures UsersOf(rsvps + [x], t) == UsersOf(rsvps, t) + if x.attendanceType == t then [x.userId] else []
  {
    assert (rsvps + [x])[..|rsvps|] == rsvps;
  }

  /** The three groups split the RSVPs' users between them: every RSVP is
      listed once, under its own answer. */
  lemma {:induction false} UsersOfPartition(rsvps: seq<Rsvp>)
    ensures multiset(UsersOf(rsvps, Yes)) + multiset(UsersOf(rsvps, Maybe)) + multiset(UsersOf(rsvps, No))
            == multiset(UserIds(rsvps))
  {
    if rsvps != [] {
      var init, last := rsvps[..|rsvps| - 1], rsvps[|rsvps| - 1];
      UsersOfPartition(init);
      UserIdsLast(rsvps);
      AddOne(multiset(UsersOf(init, Yes)), multiset(UsersOf(init, Maybe)), multiset(UsersOf(init, No)),
             multiset(UserIds(init)), last.userId, last.attendanceType,
             multiset(UsersOf(rsvps, Yes)), multiset(UsersOf(rsvps, Maybe)), multiset(UsersOf(rsvps, No)));
    }
  }

  lemma UserIdsLast(rsvps: seq<Rsvp>)
    requires rsvps != []
    ensures multiset(UserIds(rsvps)) == multiset(UserIds(rsvps[..|rsvps| - 1])) + multiset{rsvps[|rsvps| - 1].userId}
  {
    assert UserIds(rsvps) == UserIds(rsvps[..|rsvps| - 1]) + [rsvps[|rsvps| - 1].userId];
  }

  /** The multiset step of the partition: one user added to one of three
      parts is one user added to their sum. */
  lemma AddOne(y: multiset<UserId>, m: multiset<UserId>, n: multiset<UserId>, all: multiset<UserId>,
               u: UserId, t: AttendanceType, y': multiset<UserId>, m': multiset<UserId>, n': multiset<UserId>)
    requires y + m + n == all
    requires y' == y + (if t == Yes then multiset{u} else multiset{})
    requires m' == m + (if t == Maybe then multiset{u} else multiset{})
    requires n' == n + (if t == No then multiset{u} else multiset{})
    ensures y' + m' + n' == all + multiset{u}
  {
  }

  /** A user is listed under an answer exactly when one of the RSVPs is
      theirs and gave that answer. */
  lemma {:induction false} ListedUnderOwnAnswer(rsvps: seq<Rsvp>, t: AttendanceType, u: UserId)
    ensures u in UsersOf(rsvps, t) <==> exists k :: 0 <= k < |rsvps| && rsvps[k].userId == u && rsvps[k].attendanceType == t
  {
    if rsvps != [] {
      var init, last := rsvps[..|rsvps| - 1], rsvps[|rsvps| - 1];
      ListedUnderOwnAnswer(init, t, u);
      if exists k :: 0 <= k < |init| && init[k].userId == u && init[k].attendanceType == t {
        var k :| 0 <= k < |init| && init[k].userId == u && init[k].attendanceType == t;
        assert rsvps[k] == init[k];
      }
      if exists k :: 0 <= k < |rsvps| && rsvps[k].userId == u && rsvps[k].attendanceType == t {
        var k :| 0 <= k < |rsvps| && rsvps[k].userId == u && rsvps[k].attendanceType == t;
        if k < |init| {
          assert init[k] == rsvps[k];
        }
      }
    }
  }

  /** The dictionary the command builds. */
  function Grouped(rsvps: seq<Rsvp>): map<AttendanceType, seq<UserId>> {
    map[Yes := UsersOf(rsvps, Yes), Maybe := UsersOf(rsvps, Maybe), No := UsersOf(rsvps, No)]
  }

  /** One more RSVP appends its user to its own answer's list. */
  lemma GroupedStep(rsvps: seq<Rsvp>, x: Rsvp)
    ensures x.attendanceType in Grouped(rsvps)
    ensures Grouped(rsvps + [x]) == Grouped(rsvps)[x.attendanceType := Grouped(rsvps)[x.attendanceType] + [x.userId]]
  {
    UsersOfAppend(rsvps, x, Yes);
    UsersOfAppend(rsvps, x, Maybe);
    UsersOfAppend(rsvps, x, No);
    var before, after := Grouped(rsvps), Grouped(rsvps + [x]);
    var t := x.attendanceType;
    var updated := before[t := before[t] + [x.userId]];
    assert updated.Keys == after.Keys;
    forall a | a in after ensures after[a] == updated[a] {
      if a == t {
      } else {
        assert after[a] == UsersOf(rsvps, a);
      }
    }
  }

  /** The grouping loop: a list per answer, each RSVP's user id appended to
      its answer's list. */
  method Group(rsvps: seq<Rsvp>) returns (groups: map<AttendanceType, seq<UserId>>)
    ensures groups == Grouped(rsvps)
  {
    groups := map[Yes := [], Maybe := [], No := []];
    var i := 0;
    while i < |rsvps|
      invariant i <= |rsvps|
      invariant groups == Grouped(rsvps[..i])
    {
      assert rsvps[..i + 1] == rsvps[..i] + [rsvps[i]];
      GroupedStep(rsvps[..i], rsvps[i]);
      var t := rsvps[i].attendanceType;
      groups := groups[t := groups[t] + [rsvps[i].userId]];
      i := i + 1;
    }
    assert rsvps[..i] == rsvps;
  }

  /** One listed user. */
  function UserLine(u: UserId): string {
    "- " + DiscordBot.Mention(u)
  }

  function UserLines(users: seq<UserId>): (r: seq<string>)
    ensures |r| == |users|
    ensures forall k :: 0 <= k < |users| ==> r[k] == UserLine(users[k])
  {
    seq(|users|, k requires 0 <= k < |users| => UserLine(users[k]))
  }

  /** One group as the command writes it: "None", or the user lines joined
      by newlines. */
  function Section(users: seq<UserId>): string {
    if users == [] then "None" else Join(UserLines(users), "\n")
  }

  /** The reply: who asked, the event's name, then the three groups. */
  function Response(requester: UserId, eventName: string, groups: map<AttendanceType, seq<UserId>>): string
    requires Yes in groups && Maybe in groups && No in groups
  {
    "Sure " + DiscordBot.Mention(requester) + ", here is the full list of attendees for **" + eventName + "**:"
    + "\n\n" + "**Going:**\n" + Section(groups[Yes])
    + "\n\n" + "**Maybe:**\n" + Section(groups[Maybe])
    + "\n\n" + "**Not going:**\n" + Section(groups[No])
  }

  /** `whos_going_cmd`'s reply for an event whose RSVPs are `rsvps`. */
  method WhosGoingReply(requester: UserId, eventName: string, rsvps: seq<Rsvp>) returns (reply: string)
    ensures reply == Response(requester, eventName, Grouped(rsvps))
  {
    var groups := Group(rsvps);
    reply := Response(requester, eventName, groups);
  }

  /** A mention is one line. */
  lemma MentionOneLine(u: UserId)
    ensures '\n' !in UserLine(u)
  {
    var digits := NatToString(u);
    assert UserLine(u) == "- <@" + digits + ">";
    assert forall k :: 0 <= k < |digits| ==> digits[k] != '\n';
  }

  /** A section names its users one per line, in order, and can be read
      back: each line gives back its user's id. An empty group is "None". */
  lemma SectionListsUsers(users: seq<UserId>)
    ensures users == [] <==> Section(users) == "None"
    ensures users != [] ==> Split(Section(users), "\n") == UserLines(users)
    ensures forall k :: 0 <= k < |users| ==> MentionedUser(UserLines(users)[k]) == Some(users[k])
  {
    if users != [] {
      forall k | 0 <= k < |users| ensures '\n' !in UserLines(users)[k] {
        MentionOneLine(users[k]);
      }
      SplitJoin(UserLines(users), '\n');
      assert UserLines(users)[0] == "- <@" + NatToString(users[0]) + ">";
      assert UserLines(users)[0][0] == '-';
    }
    forall k | 0 <= k < |users| ensures MentionedUser(UserLines(users)[k]) == Some(users[k]) {
      UserLineReadBack(users[k]);
    }
  }

  /** The user a line `- <@digits>` names. */
  function MentionedUser(line: string): Option<UserId> {
    if |line| >= 5 && line[..4] == "- <@" && line[|line| - 1] == '>' && AllDigits(line[4..|line| - 1])
    then Some(DigitsValue(line[4..|line| - 1]))
    else None
  }

  lemma UserLineReadBack(u: UserId)
    ensures MentionedUser(UserLine(u)) == Some(u)
  {
    var digits := NatToString(u);
    var line := UserLine(u);
    assert line == "- <@" + digits + ">";
    assert line[..4] == "- <@";
    assert line[4..|line| - 1] == digits;
    NatToStringRoundTrip(u);
  }
}

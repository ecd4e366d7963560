/** The database: the four tables the core reads and writes, and the lookups
    of `moobot/db/crud/events.py` and `moobot/db/crud/google.py`. A session's
    pending writes and the committed tables are one state here; `commits`
    counts the `session.commit()` calls. */
module Db {
  import opened Wrappers
  import opened Models
  import opened Seqs

  /** The primary key of the event table. */
  predicate UniqueIds(events: seq<Event>) {
    forall i, j :: 0 <= i < j < |events| ==> events[i].id != events[j].id
  }

  /** The primary key of the linked-account table. */
  predicate UniqueApiUserIds(users: seq<ApiUser>) {
    forall i, j :: 0 <= i < j < |users| ==> users[i].id != users[j].id
  }

  /** Every table, as one value, so that a method can say which parts it changes. */
  datatype Tables = Tables(
    events: seq<Event>,
    rsvps: seq<Rsvp>,
    apiUsers: seq<ApiUser>,
    authSessions: seq<AuthSession>,
    nextEventId: nat,
    nextApiUserId: nat,
    commits: nat)

  class Store {
    var events: seq<Event>
    var rsvps: seq<Rsvp>
    var apiUsers: seq<ApiUser>
    var authSessions: seq<AuthSession>
    /** The next value of each autoincrement primary key. */
    var nextEventId: nat
    var nextApiUserId: nat
    var commits: nat

    /** The primary keys are unique and below their sequences' next value,
        and every stored date and time is a real one. */
    predicate Valid()
      reads this
    {
      UniqueIds(events) && (forall i :: 0 <= i < |events| ==> events[i].id < nextEventId)
      && (forall i :: 0 <= i < |events| ==> WellTyped(events[i]))
      && UniqueApiUserIds(apiUsers)
      && (forall i :: 0 <= i < |apiUsers| ==> apiUsers[i].id < nextApiUserId)
    }

    function State(): Tables
      reads this
    {
      Tables(events, rsvps, apiUsers, authSessions, nextEventId, nextApiUserId, commits)
    }

    constructor ()
      ensures Valid()
      ensures State() == Tables([], [], [], [], 0, 0, 0)
    {
      events, rsvps, apiUsers, authSessions := [], [], [], [];
      nextEventId, nextApiUserId, commits := 0, 0, 0;
    }
  }

  /** `get_event_by_id`: the row with that id, or None. The `include_deleted`
      filter is built and then discarded, so deleted rows are found too. */
  function GetEventById(events: seq<Event>, id: int, includeDeleted: bool): (r: Option<Event>)
    requires UniqueIds(events)
    ensures r.Some? ==> r.value in events && r.value.id == id
    ensures r.None? <==> forall i :: 0 <= i < |events| ==> events[i].id != id
  {
    match FirstIndex(events, (e: Event) => e.id == id)
    case None => None
    case Some(i) => Some(events[i])
  }

  /** Every row, deleted or not, is found by its id. */
  lemma {:induction false} EveryRowFoundById(events: seq<Event>, i: nat, includeDeleted: bool)
    requires UniqueIds(events) && i < |events|
    ensures GetEventById(events, events[i].id, includeDeleted) == Some(events[i])
  {
    var j := FirstIndex(events, (e: Event) => e.id == events[i].id);
    assert j.Some?;
    assert j.value == i;
  }

  /** `get_event_by_name`: the first row with that name, or None; deleted rows
      are not excluded either. */
  function GetEventByName(events: seq<Event>, name: string, includeDeleted: bool): (r: Option<Event>)
    ensures r.None? <==> forall i :: 0 <= i < |events| ==> events[i].name != name
    ensures r.Some? ==> exists i :: 0 <= i < |events| && events[i] == r.value
                           && r.value.name == name
                           && forall j :: 0 <= j < i ==> events[j].name != name
  {
    match FirstIndex(events, (e: Event) => e.name == name)
    case None => None
    case Some(i) => Some(events[i])
  }

  /** `create_auth_session`: one row, committed only when asked. */
  method CreateAuthSession(s: Store, state: string, userId: UserId, commit: bool)
    modifies s
    ensures s.State() == old(s.State()).(
      authSessions := old(s.authSessions) + [AuthSession(state, userId)],
      commits := old(s.commits) + if commit then 1 else 0)
  {
    s.authSessions := s.authSessions + [AuthSession(state, userId)];
    if commit {
      s.commits := s.commits + 1;
    }
  }

  /** The position of `get_auth_session_by_state`'s row. */
  function FindAuthSession(sessions: seq<AuthSession>, state: string): (r: Option<nat>)
    ensures r.Some? ==> r.value < |sessions| && sessions[r.value].state == state
    ensures r.Some? ==> forall j :: 0 <= j < r.value ==> sessions[j].state != state
    ensures r.None? <==> forall j :: 0 <= j < |sessions| ==> sessions[j].state != state
  {
    FirstIndex(sessions, (a: AuthSession) => a.state == state)
  }

  /** `get_auth_session_by_state`: the first session with that state, or None. */
  function GetAuthSessionByState(sessions: seq<AuthSession>, state: string): (r: Option<AuthSession>)
    ensures r.Some? ==> r.value in sessions && r.value.state == state
    ensures r.None? <==> forall j :: 0 <= j < |sessions| ==> sessions[j].state != state
  {
    match FindAuthSession(sessions, state)
    case None => None
    case Some(i) => Some(sessions[i])
  }

  /** `create_api_user`: a new linked account with no calendar yet and its
      setup unfinished; committed only when asked. */
  method CreateApiUser(s: Store, userId: UserId, token: string, refreshToken: string,
                       tokenUri: string, scopes: string, commit: bool)
    modifies s
    requires s.Valid()
    ensures s.Valid()
    ensures s.State() == old(s.State()).(
      apiUsers := old(s.apiUsers)
        + [ApiUser(old(s.nextApiUserId), userId, token, refreshToken, tokenUri, scopes, None, false)],
      nextApiUserId := old(s.nextApiUserId) + 1,
      commits := old(s.commits) + if commit then 1 else 0)
  {
    s.apiUsers := s.apiUsers
      + [ApiUser(s.nextApiUserId, userId, token, refreshToken, tokenUri, scopes, None, false)];
    s.nextApiUserId := s.nextApiUserId + 1;
    if commit {
      s.commits := s.commits + 1;
    }
  }

  /** The position of `get_api_user_by_user_id`'s row. */
  function FindApiUser(users: seq<ApiUser>, userId: UserId): (r: Option<nat>)
    ensures r.Some? ==> r.value < |users| && users[r.value].userId == userId
    ensures r.Some? ==> forall j :: 0 <= j < r.value ==> users[j].userId != userId
    ensures r.None? <==> forall j :: 0 <= j < |users| ==> users[j].userId != userId
  {
    FirstIndex(users, (u: ApiUser) => u.userId == userId)
  }

  /** `get_api_user_by_user_id`: the first account linked to that user, or None. */
  function GetApiUserByUserId(users: seq<ApiUser>, userId: UserId): (r: Option<ApiUser>)
    ensures r.Some? ==> r.value in users && r.value.userId == userId
    ensures r.None? <==> forall j :: 0 <= j < |users| ==> users[j].userId != userId
  {
    match FindApiUser(users, userId)
    case None => None
    case Some(i) => Some(users[i])
  }

  /** A user whose account was just created is found by `get_api_user_by_user_id`. */
  lemma CreatedApiUserFound(users: seq<ApiUser>, row: ApiUser)
    ensures GetApiUserByUserId(users + [row], row.userId).Some?
  {
    assert (users + [row])[|users|].userId == row.userId;
  }

  /** `get_api_users_by_setup_finished`: exactly the accounts whose flag is `b`, in table order. */
  function GetApiUsersBySetupFinished(users: seq<ApiUser>, b: bool): (r: seq<ApiUser>)
    ensures forall u :: u in r <==> u in users && u.setupFinished == b
  {
    FilterSound(users, (u: ApiUser) => u.setupFinished == b);
    FilterAll(users, (u: ApiUser) => u.setupFinished == b);
    Filter(users, (u: ApiUser) => u.setupFinished == b)
  }

  /** `session.query(...).filter(id == id).update(...)` on the event table. */
  function UpdateEvent(events: seq<Event>, id: nat, f: Event -> Event): (r: seq<Event>)
    ensures |r| == |events|
    ensures forall i :: 0 <= i < |events| ==> r[i] == if events[i].id == id then f(events[i]) else events[i]
  {
    seq(|events|, i requires 0 <= i < |events| => if events[i].id == id then f(events[i]) else events[i])
  }

  /** An update that keeps ids keeps the key unique. */
  lemma UpdateEventKeepsIds(events: seq<Event>, id: nat, f: Event -> Event)
    requires forall e :: f(e).id == e.id
    ensures forall i :: 0 <= i < |events| ==> UpdateEvent(events, id, f)[i].id == events[i].id
  {
  }
}

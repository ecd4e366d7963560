/** `moobot/fastapi/routers/google_oauth.py`: the page Google redirects to
    after the user grants calendar access. A callback without a code, or
    with a state no auth session holds, changes nothing; otherwise the auth
    session is consumed and a linked account is created for its user, both
    in one commit. */
module GoogleOauth {
  import opened Wrappers
  import opened Seqs
  import opened Models
  import opened Db

  /** The three messages the page can show. */
  datatype Page = MissingCode | InvalidState | Success

  /** What `fetch_credentials(code)` returns; the exchange with Google is
      an input here. */
  datatype Credentials = Credentials(token: string, refreshToken: string, tokenUri: string, scopes: string)

  /** How many auth sessions hold `state`. */
  function Holding(sessions: seq<AuthSession>, state: string): (r: nat)
    ensures r == 0 <==> forall j :: 0 <= j < |sessions| ==> sessions[j].state != state
  {
    if sessions == [] then 0
    else Holding(sessions[..|sessions| - 1], state) + if sessions[|sessions| - 1].state == state then 1 else 0
  }

  /** `handle_oauth_response`. */
  method HandleOauthResponse(s: Store, code: Option<string>, state: string, credentials: Credentials)
    returns (page: Page)
    requires s.Valid()
    modifies s
    ensures s.Valid()
    ensures page == MissingCode <==> code.None?
    ensures page == InvalidState <==>
      code.Some? && forall j :: 0 <= j < |old(s.authSessions)| ==> old(s.authSessions)[j].state != state
    ensures page != Success ==> s.State() == old(s.State())
    ensures page == Success ==>
      var i := FindAuthSession(old(s.authSessions), state).value;
      s.State() == old(s.State()).(
        authSessions := RemoveAt(old(s.authSessions), i),
        apiUsers := old(s.apiUsers) + [ApiUser(old(s.nextApiUserId), old(s.authSessions)[i].userId,
                                               credentials.token, credentials.refreshToken,
                                               credentials.tokenUri, credentials.scopes, None, false)],
        nextApiUserId := old(s.nextApiUserId) + 1,
        commits := old(s.commits) + 1)
  {
    if code.None? {
      return MissingCode;
    }
    var found := FindAuthSession(s.authSessions, state);
    if found.None? {
      return InvalidState;
    }
    var i := found.value;
    var userId := s.authSessions[i].userId;
    s.authSessions := RemoveAt(s.authSessions, i);
    CreateApiUser(s, userId, credentials.token, credentials.refreshToken, credentials.tokenUri,
                  credentials.scopes, true);
    page := Success;
  }

  /** Removing one of the sessions holding a state leaves one fewer holding it. */
  lemma RemoveOneHolder(sessions: seq<AuthSession>, i: nat)
    requires i < |sessions|
    ensures Holding(RemoveAt(sessions, i), sessions[i].state) + 1 == Holding(sessions, sessions[i].state)
  {
    var state := sessions[i].state;
    var before, after := sessions[..i], sessions[i + 1..];
    AroundIndex(sessions, i);
    HoldingAdditive(before + [sessions[i]], after, state);
    HoldingAdditive(before, [sessions[i]], state);
    HoldingAdditive(before, after, state);
    assert Holding([sessions[i]], state) == 1 by {
      assert [sessions[i]][..0] == [];
    }
  }

  lemma AroundIndex<T>(s: seq<T>, i: nat)
    requires i < |s|
    ensures s == (s[..i] + [s[i]]) + s[i + 1..]
    ensures RemoveAt(s, i) == s[..i] + s[i + 1..]
  {
  }

  /** The count of a concatenation is the sum of the counts. */
  lemma {:induction false} HoldingAdditive(a: seq<AuthSession>, b: seq<AuthSession>, state: string)
    ensures Holding(a + b, state) == Holding(a, state) + Holding(b, state)
    decreases |b|
  {
    if b == [] {
      assert a + b == a;
    } else {
      var init := b[..|b| - 1];
      assert (a + b)[..|a + b| - 1] == a + init;
      assert (a + b)[|a + b| - 1] == b[|b| - 1];
      HoldingAdditive(a, init, state);
    }
  }

  /** A state is consumed once: after a successful callback one fewer auth
      session holds it, so when it was held once (Google's state is a fresh
      random token per flow) a repeated callback shows the invalid-state
      page. */
  lemma StateConsumedOnce(sessions: seq<AuthSession>, state: string)
    requires FindAuthSession(sessions, state).Some?
    ensures var i := FindAuthSession(sessions, state).value;
      && Holding(RemoveAt(sessions, i), state) + 1 == Holding(sessions, state)
      && (Holding(sessions, state) == 1 ==> FindAuthSession(RemoveAt(sessions, i), state).None?)
  {
    RemoveOneHolder(sessions, FindAuthSession(sessions, state).value);
  }
}

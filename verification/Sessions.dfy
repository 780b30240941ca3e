/**
 Sessions, token records and the Redis blacklist (`SessionService`, `TokenBlacklistService`,
 `AuthService.refreshToken`, `JwtStrategy.validate`).  Tokens are unforgeable records; times are seconds.
 */
module Sessions {
  import opened Options

  type SessionId = string
  type UserId = string
  type Jti = string
  type Time = int

  const ACCESS_TTL: int := 15 * 60
  const REFRESH_TTL: int := 7 * 24 * 60 * 60

  datatype Session = Session(userId: UserId, revoked: bool)
  datatype TokenRecord = TokenRecord(userId: UserId, sessionId: SessionId, revoked: bool)
  datatype Kind = Access | Refresh
  datatype Token = Token(jti: Jti, userId: UserId, sessionId: SessionId, kind: Kind, issuedAt: Time, expiresAt: Time)

  // The last password change is kept in milliseconds.
  datatype User = User(active: bool, passwordChangedAt: Option<int>)

  // The two tables, and the expiry times of the blacklist entries.
  datatype Store = Store(
    sessions: map<SessionId, Session>,
    tokens: map<Jti, TokenRecord>,
    blacklist: map<Jti, Time>)

  // ---------- Reading ----------

  predicate SessionAlive(st: Store, id: SessionId) {
    id in st.sessions && !st.sessions[id].revoked
  }

  // A read that fails counts as "not listed".
  predicate IsBlacklisted(st: Store, jti: Jti, now: Time, redisUp: bool) {
    redisUp && jti in st.blacklist && now < st.blacklist[jti]
  }

  predicate IsTokenRevoked(st: Store, jti: Jti, now: Time, redisUp: bool) {
    IsBlacklisted(st, jti, now, redisUp) || (jti in st.tokens && st.tokens[jti].revoked)
  }

  // ---------- Revoking ----------

  function MarkRevoked(tokens: map<Jti, TokenRecord>, jtis: set<Jti>): map<Jti, TokenRecord> {
    map j | j in tokens :: if j in jtis then tokens[j].(revoked := true) else tokens[j]
  }

  // Revokes the records of `jtis` and lists those for which the Redis write succeeds.
  function RevokeTokens(st: Store, jtis: set<Jti>, now: Time, ttl: int, redisUp: Jti -> bool): Store {
    st.(tokens := MarkRevoked(st.tokens, jtis),
        blacklist := st.blacklist + Listed(jtis, now + ttl, redisUp))
  }

  function Listed(jtis: set<Jti>, expiry: Time, redisUp: Jti -> bool): map<Jti, Time> {
    map j | j in jtis && redisUp(j) :: expiry
  }

  function ActiveTokens(st: Store, sessionIds: set<SessionId>): set<Jti> {
    set j | j in st.tokens && st.tokens[j].sessionId in sessionIds && !st.tokens[j].revoked
  }

  function ActiveTokensOfUser(st: Store, user: UserId): set<Jti> {
    set j | j in st.tokens && st.tokens[j].userId == user && !st.tokens[j].revoked
  }

  function ActiveSessions(st: Store, user: UserId): set<SessionId> {
    set s | s in st.sessions && st.sessions[s].userId == user && !st.sessions[s].revoked
  }

  function RevokeSessions(st: Store, ids: set<SessionId>, now: Time, redisUp: Jti -> bool): Store {
    var after := RevokeTokens(st, ActiveTokens(st, ids), now, REFRESH_TTL, redisUp);
    after.(sessions := map s | s in st.sessions ::
      if s in ids then st.sessions[s].(revoked := true) else st.sessions[s])
  }

  function RevokeAllForUser(st: Store, user: UserId, now: Time, redisUp: Jti -> bool): Store {
    var after := RevokeTokens(st, ActiveTokensOfUser(st, user), now, REFRESH_TTL, redisUp);
    RevokeSessions(after, ActiveSessions(after, user), now, redisUp)
  }

  function StoreTokens(st: Store, user: UserId, session: SessionId, refreshJti: Jti, accessJti: Jti): Store {
    var record := TokenRecord(user, session, false);
    st.(tokens := st.tokens[refreshJti := record][accessJti := record])
  }

  // Revoking in two rounds is revoking at once.
  lemma {:induction false} RevokeTwice(st: Store, a: set<Jti>, b: set<Jti>, now: Time, ttl: int, redisUp: Jti -> bool)
    ensures RevokeTokens(RevokeTokens(st, a, now, ttl, redisUp), b, now, ttl, redisUp)
         == RevokeTokens(st, a + b, now, ttl, redisUp)
  {
    hide MarkRevoked, Listed;
    MarkTwice(st.tokens, a, b);
    ListTwice(a, b, now + ttl, redisUp);
    var first, second := Listed(a, now + ttl, redisUp), Listed(b, now + ttl, redisUp);
    assert st.blacklist + first + second == st.blacklist + (first + second);
  }

  lemma {:induction false} ListTwice(a: set<Jti>, b: set<Jti>, expiry: Time, redisUp: Jti -> bool)
    ensures Listed(a, expiry, redisUp) + Listed(b, expiry, redisUp) == Listed(a + b, expiry, redisUp)
  {
  }

  lemma {:induction false} MarkTwice(tokens: map<Jti, TokenRecord>, a: set<Jti>, b: set<Jti>)
    ensures MarkRevoked(MarkRevoked(tokens, a), b) == MarkRevoked(tokens, a + b)
  {
  }

  lemma {:induction false} ActiveTokensSplit(st: Store, done: set<SessionId>, s: SessionId, now: Time,
                                             redisUp: Jti -> bool)
    requires s !in done
    ensures ActiveTokens(RevokeSessions(st, done, now, redisUp), {s}) == ActiveTokens(st, {s})
    ensures ActiveTokens(st, done + {s}) == ActiveTokens(st, done) + ActiveTokens(st, {s})
  {
  }

  lemma {:induction false} RevokeOneMoreSession(st: Store, done: set<SessionId>, s: SessionId, now: Time,
                                                redisUp: Jti -> bool)
    requires s !in done
    ensures RevokeSessions(RevokeSessions(st, done, now, redisUp), {s}, now, redisUp)
         == RevokeSessions(st, done + {s}, now, redisUp)
  {
    hide ActiveTokens, MarkRevoked;
    ActiveTokensSplit(st, done, s, now, redisUp);
    RevokeTwice(st, ActiveTokens(st, done), ActiveTokens(st, {s}), now, REFRESH_TTL, redisUp);
    assert RevokeSessions(RevokeSessions(st, done, now, redisUp), {s}, now, redisUp).sessions
        == RevokeSessions(st, done + {s}, now, redisUp).sessions;
  }

  // ---------- Accepting a token ----------

  datatype Refusal =
    | TokenInvalid | TokenRevoked | DeviceMismatch | UserNotFound | AccountInactive | PasswordChanged | SessionNotFound

  // Why an access token is refused, in the order in which `JwtStrategy.validate` checks.
  function AccessRefusal(st: Store, users: map<UserId, User>, t: Token, now: Time, redisUp: bool): Option<Refusal> {
    if now >= t.expiresAt || t.kind != Access then Some(TokenInvalid)
    else if IsBlacklisted(st, t.jti, now, redisUp) then Some(TokenRevoked)
    else if !SessionAlive(st, t.sessionId) then Some(SessionNotFound)
    else if t.userId !in users then Some(UserNotFound)
    else if !users[t.userId].active then Some(AccountInactive)
    else None
  }

  // Why a refresh is refused, in the order in which `refreshToken` checks.
  function RefreshRefusal(st: Store, users: map<UserId, User>, t: Token, deviceOk: bool, now: Time, redisUp: bool)
    : Option<Refusal>
  {
    if now >= t.expiresAt || t.kind != Refresh then Some(TokenInvalid)
    else if IsTokenRevoked(st, t.jti, now, redisUp) then Some(TokenRevoked)
    else if !deviceOk then Some(DeviceMismatch)
    else if t.userId !in users then Some(UserNotFound)
    else if !users[t.userId].active then Some(AccountInactive)
    else if users[t.userId].passwordChangedAt.Some? && users[t.userId].passwordChangedAt.value > t.issuedAt * 1000 then
      Some(PasswordChanged)
    else if !SessionAlive(st, t.sessionId) then Some(SessionNotFound)
    else None
  }

  // ---------- What the checks mean ----------

  // The refusal of the first check that fails.
  function FirstFailure(checks: seq<(bool, Refusal)>): Option<Refusal> {
    if checks == [] then None else if !checks[0].0 then Some(checks[0].1) else FirstFailure(checks[1..])
  }

  // The first k checks pass, and the next one fails.
  lemma {:induction false} FailsAt(checks: seq<(bool, Refusal)>, k: nat)
    requires k < |checks| && !checks[k].0 && forall j :: 0 <= j < k ==> checks[j].0
    ensures FirstFailure(checks) == Some(checks[k].1)
  {
    if k > 0 { FailsAt(checks[1..], k - 1); }
  }

  lemma {:induction false} AllPass(checks: seq<(bool, Refusal)>)
    requires forall j :: 0 <= j < |checks| ==> checks[j].0
    ensures FirstFailure(checks).None?
  {
    if checks != [] { AllPass(checks[1..]); }
  }

  // Redis, if it answers, holds no entry for the token that is still running.
  predicate Unlisted(st: Store, t: Token, now: Time, redisUp: bool) {
    redisUp && t.jti in st.blacklist ==> st.blacklist[t.jti] <= now
  }

  predicate Unexpired(t: Token, kind: Kind, now: Time) {
    t.kind == kind && now < t.expiresAt
  }

  predicate LiveSession(st: Store, t: Token) {
    t.sessionId in st.sessions && !st.sessions[t.sessionId].revoked
  }

  predicate ActiveUser(users: map<UserId, User>, t: Token) {
    t.userId in users && users[t.userId].active
  }

  predicate PasswordKept(users: map<UserId, User>, t: Token) {
    t.userId in users && users[t.userId].passwordChangedAt.Some? ==>
      users[t.userId].passwordChangedAt.value <= t.issuedAt * 1000
  }

  // The conditions of a refresh in order, each with the refusal of a token that fails it.
  function RefreshChecks(st: Store, users: map<UserId, User>, t: Token, deviceOk: bool, now: Time, redisUp: bool)
    : seq<(bool, Refusal)>
  {
    [(Unexpired(t, Refresh, now), TokenInvalid),
     (Unlisted(st, t, now, redisUp) && (t.jti in st.tokens ==> !st.tokens[t.jti].revoked), TokenRevoked),
     (deviceOk, DeviceMismatch),
     (t.userId in users, UserNotFound),
     (ActiveUser(users, t), AccountInactive),
     (PasswordKept(users, t), PasswordChanged),
     (LiveSession(st, t), SessionNotFound)]
  }

  function AccessChecks(st: Store, users: map<UserId, User>, t: Token, now: Time, redisUp: bool): seq<(bool, Refusal)> {
    [(Unexpired(t, Access, now), TokenInvalid),
     (Unlisted(st, t, now, redisUp), TokenRevoked),
     (LiveSession(st, t), SessionNotFound),
     (t.userId in users, UserNotFound),
     (ActiveUser(users, t), AccountInactive)]
  }

  // A refresh is refused for the first condition that fails, and accepted exactly when all hold.
  lemma {:induction false} RefreshRefusalIs(st: Store, users: map<UserId, User>, t: Token, deviceOk: bool, now: Time,
                                            redisUp: bool)
    ensures RefreshRefusal(st, users, t, deviceOk, now, redisUp)
         == FirstFailure(RefreshChecks(st, users, t, deviceOk, now, redisUp))
    ensures RefreshRefusal(st, users, t, deviceOk, now, redisUp).None?
       <==> && t.kind == Refresh && now < t.expiresAt
            && (t.jti in st.tokens ==> !st.tokens[t.jti].revoked)
            && !(redisUp && t.jti in st.blacklist && now < st.blacklist[t.jti])
            && deviceOk && t.userId in users && users[t.userId].active
            && (users[t.userId].passwordChangedAt.Some? ==>
                  users[t.userId].passwordChangedAt.value <= t.issuedAt * 1000)
            && t.sessionId in st.sessions && !st.sessions[t.sessionId].revoked
  {
    var c := RefreshChecks(st, users, t, deviceOk, now, redisUp);
    if !c[0].0 {
      FailsAt(c, 0);
    } else if !c[1].0 {
      FailsAt(c, 1);
    } else if !c[2].0 {
      FailsAt(c, 2);
    } else if !c[3].0 {
      FailsAt(c, 3);
    } else if !c[4].0 {
      FailsAt(c, 4);
    } else if !c[5].0 {
      FailsAt(c, 5);
    } else if !c[6].0 {
      FailsAt(c, 6);
    } else {
      AllPass(c);
    }
  }

  lemma {:induction false} AccessRefusalIs(st: Store, users: map<UserId, User>, t: Token, now: Time, redisUp: bool)
    ensures AccessRefusal(st, users, t, now, redisUp)
         == FirstFailure(AccessChecks(st, users, t, now, redisUp))
    ensures AccessRefusal(st, users, t, now, redisUp).None?
       <==> && t.kind == Access && now < t.expiresAt
            && !(redisUp && t.jti in st.blacklist && now < st.blacklist[t.jti])
            && t.sessionId in st.sessions && !st.sessions[t.sessionId].revoked
            && t.userId in users && users[t.userId].active
  {
    var c := AccessChecks(st, users, t, now, redisUp);
    if !c[0].0 {
      FailsAt(c, 0);
    } else if !c[1].0 {
      FailsAt(c, 1);
    } else if !c[2].0 {
      FailsAt(c, 2);
    } else if !c[3].0 {
      FailsAt(c, 3);
    } else if !c[4].0 {
      FailsAt(c, 4);
    } else {
      AllPass(c);
    }
  }

  // The store after a refresh taken as one step.
  function AfterRefresh(st: Store, users: map<UserId, User>, t: Token, deviceOk: bool, now: Time, redisUp: Jti -> bool,
                        refreshJti: Jti, accessJti: Jti): Store
  {
    match RefreshRefusal(st, users, t, deviceOk, now, redisUp(t.jti))
    case None =>
      StoreTokens(RevokeTokens(st, {t.jti}, now, ACCESS_TTL, redisUp), t.userId, t.sessionId, refreshJti, accessJti)
    case Some(PasswordChanged) => RevokeSessions(st, ActiveSessions(st, t.userId), now, redisUp)
    case Some(_) => st
  }

  // ---------- The services ----------

  class AuthStore {
    var st: Store
    var lastActive: map<SessionId, Time>

    constructor ()
      ensures st == Store(map[], map[], map[]) && lastActive == map[]
    {
      st, lastActive := Store(map[], map[], map[]), map[];
    }

    method StoreTokenId(jti: Jti, user: UserId, session: SessionId)
      modifies this`st
      ensures st == old(st).(tokens := old(st).tokens[jti := TokenRecord(user, session, false)])
    {
      st := st.(tokens := st.tokens[jti := TokenRecord(user, session, false)]);
    }

    // Updates the durable record first, then writes the blacklist; a failed write is only logged.
    method RevokeTokenWithTtl(jti: Jti, ttl: int, now: Time, redisUp: Jti -> bool)
      modifies this`st
      ensures st == RevokeTokens(old(st), {jti}, now, ttl, redisUp)
    {
      ghost var before := st;
      if jti in st.tokens {
        st := st.(tokens := st.tokens[jti := st.tokens[jti].(revoked := true)]);
      }
      if redisUp(jti) {
        st := st.(blacklist := st.blacklist[jti := now + ttl]);
      }
      assert st.tokens == MarkRevoked(before.tokens, {jti});
      assert st.blacklist == before.blacklist + Listed({jti}, now + ttl, redisUp);
    }

    // The loop over the tokens that a query returned, in whatever order it returned them.
    method RevokeEach(jtis: set<Jti>, now: Time, redisUp: Jti -> bool)
      modifies this`st
      ensures st == RevokeTokens(old(st), jtis, now, REFRESH_TTL, redisUp)
    {
      var rest := jtis;
      assert st.tokens == MarkRevoked(st.tokens, {});
      assert st == RevokeTokens(st, {}, now, REFRESH_TTL, redisUp);
      while rest != {}
        invariant rest <= jtis
        invariant st == RevokeTokens(old(st), jtis - rest, now, REFRESH_TTL, redisUp)
      {
        var j :| j in rest;
        RevokeTwice(old(st), jtis - rest, {j}, now, REFRESH_TTL, redisUp);
        assert jtis - (rest - {j}) == jtis - rest + {j};
        RevokeTokenWithTtl(j, REFRESH_TTL, now, redisUp);
        rest := rest - {j};
      }
      assert jtis - {} == jtis;
    }

    method RevokeSessionWithTokens(id: SessionId, now: Time, redisUp: Jti -> bool)
      modifies this`st
      ensures st == RevokeSessions(old(st), {id}, now, redisUp)
    {
      ghost var before := st;
      RevokeEach(ActiveTokens(st, {id}), now, redisUp);
      if id in st.sessions {
        st := st.(sessions := st.sessions[id := st.sessions[id].(revoked := true)]);
      }
      assert st.sessions == RevokeSessions(before, {id}, now, redisUp).sessions;
    }

    method RevokeAllUserSessions(user: UserId, now: Time, redisUp: Jti -> bool)
      modifies this`st
      ensures st == RevokeSessions(old(st), ActiveSessions(old(st), user), now, redisUp)
    {
      ghost var before := st;
      var sessions := ActiveSessions(st, user);
      var rest := sessions;
      NothingRevoked(st, now, redisUp);
      while rest != {}
        invariant rest <= sessions
        invariant st == RevokeSessions(before, sessions - rest, now, redisUp)
      {
        var s :| s in rest;
        RevokeOneMoreSession(before, sessions - rest, s, now, redisUp);
        assert sessions - (rest - {s}) == sessions - rest + {s};
        RevokeSessionWithTokens(s, now, redisUp);
        rest := rest - {s};
      }
      assert sessions - {} == sessions;
    }

    method RevokeAndBlacklistAllForUser(user: UserId, now: Time, redisUp: Jti -> bool)
      modifies this`st
      ensures st == RevokeAllForUser(old(st), user, now, redisUp)
    {
      RevokeEach(ActiveTokensOfUser(st, user), now, redisUp);
      RevokeAllUserSessions(user, now, redisUp);
    }

    // `refreshToken`; the new IDs are fresh UUIDs.
    method RefreshToken(users: map<UserId, User>, t: Token, deviceOk: bool, now: Time, redisUp: Jti -> bool,
                        refreshJti: Jti, accessJti: Jti)
      returns (refusal: Option<Refusal>, tokens: Option<(Token, Token)>)
      modifies this`st
      ensures refusal == RefreshRefusal(old(st), users, t, deviceOk, now, redisUp(t.jti))
      ensures st == AfterRefresh(old(st), users, t, deviceOk, now, redisUp, refreshJti, accessJti)
      ensures tokens.Some?
         <==> && t.kind == Refresh && now < t.expiresAt
              && (t.jti in old(st).tokens ==> !old(st).tokens[t.jti].revoked)
              && !(redisUp(t.jti) && t.jti in old(st).blacklist && now < old(st).blacklist[t.jti])
              && deviceOk && t.userId in users && users[t.userId].active
              && (users[t.userId].passwordChangedAt.Some? ==>
                    users[t.userId].passwordChangedAt.value <= t.issuedAt * 1000)
              && t.sessionId in old(st).sessions && !old(st).sessions[t.sessionId].revoked
      ensures tokens == if refusal.Some? then None else
                          Some((Token(accessJti, t.userId, t.sessionId, Access, now, now + ACCESS_TTL),
                                Token(refreshJti, t.userId, t.sessionId, Refresh, now, now + REFRESH_TTL)))
    {
      tokens := None;
      if now >= t.expiresAt || t.kind != Refresh { return Some(TokenInvalid), None; }
      var inRedis := IsBlacklisted(st, t.jti, now, redisUp(t.jti));
      if inRedis || (t.jti in st.tokens && st.tokens[t.jti].revoked) { return Some(TokenRevoked), None; }
      if !deviceOk { return Some(DeviceMismatch), None; }
      if t.userId !in users { return Some(UserNotFound), None; }
      if !users[t.userId].active { return Some(AccountInactive), None; }
      var changed := users[t.userId].passwordChangedAt;
      if changed.Some? && changed.value > t.issuedAt * 1000 {
        RevokeAllUserSessions(t.userId, now, redisUp);
        return Some(PasswordChanged), None;
      }
      if !SessionAlive(st, t.sessionId) { return Some(SessionNotFound), None; }
      RevokeTokenWithTtl(t.jti, ACCESS_TTL, now, redisUp);
      StoreTokenId(refreshJti, t.userId, t.sessionId);
      StoreTokenId(accessJti, t.userId, t.sessionId);
      refusal := None;
      tokens := Some((Token(accessJti, t.userId, t.sessionId, Access, now, now + ACCESS_TTL),
                      Token(refreshJti, t.userId, t.sessionId, Refresh, now, now + REFRESH_TTL)));
    }

    // `validate`; the session counts as active even when its user is then refused.
    method Validate(users: map<UserId, User>, t: Token, now: Time, redisUp: bool) returns (refusal: Option<Refusal>)
      modifies this`lastActive
      ensures refusal == AccessRefusal(st, users, t, now, redisUp)
      ensures refusal.None?
         <==> && t.kind == Access && now < t.expiresAt
              && !(redisUp && t.jti in st.blacklist && now < st.blacklist[t.jti])
              && t.sessionId in st.sessions && !st.sessions[t.sessionId].revoked
              && t.userId in users && users[t.userId].active
      ensures lastActive == if refusal in {Some(TokenInvalid), Some(TokenRevoked), Some(SessionNotFound)}
                            then old(lastActive) else old(lastActive)[t.sessionId := now]
    {
      if now >= t.expiresAt || t.kind != Access { return Some(TokenInvalid); }
      if IsBlacklisted(st, t.jti, now, redisUp) { return Some(TokenRevoked); }
      if !SessionAlive(st, t.sessionId) { return Some(SessionNotFound); }
      lastActive := lastActive[t.sessionId := now];
      if t.userId !in users { return Some(UserNotFound); }
      if !users[t.userId].active { return Some(AccountInactive); }
      refusal := None;
    }
  }

  lemma {:induction false} NothingRevoked(st: Store, now: Time, redisUp: Jti -> bool)
    ensures RevokeSessions(st, {}, now, redisUp) == st
  {
  }

  // ---------- What revocation changes ----------

  // Revoking tokens marks their records and no others, and lists those whose write to Redis succeeds.
  lemma {:induction false} RevokedTokens(st: Store, jtis: set<Jti>, now: Time, ttl: int, redisUp: Jti -> bool)
    ensures var after := RevokeTokens(st, jtis, now, ttl, redisUp);
            && after.sessions == st.sessions
            && after.tokens.Keys == st.tokens.Keys
            && (forall j :: j in st.tokens ==>
                  after.tokens[j]
                  == TokenRecord(st.tokens[j].userId, st.tokens[j].sessionId, st.tokens[j].revoked || j in jtis))
            && (forall j :: j in after.blacklist <==> j in st.blacklist || (j in jtis && redisUp(j)))
            && (forall j :: j in after.blacklist ==>
                  after.blacklist[j] == if j in jtis && redisUp(j) then now + ttl else st.blacklist[j])
  {
  }

  // Revoking sessions revokes their rows and the records of all their tokens, and lists for seven days the tokens that
  // were not revoked before.
  lemma {:induction false} RevokedSessions(st: Store, ids: set<SessionId>, now: Time, redisUp: Jti -> bool)
    ensures var after := RevokeSessions(st, ids, now, redisUp);
            && after.sessions.Keys == st.sessions.Keys && after.tokens.Keys == st.tokens.Keys
            && (forall s :: s in st.sessions ==>
                  after.sessions[s] == Session(st.sessions[s].userId, st.sessions[s].revoked || s in ids))
            && (forall j :: j in st.tokens ==>
                  var r := st.tokens[j];
                  after.tokens[j] == TokenRecord(r.userId, r.sessionId, r.revoked || r.sessionId in ids))
            && (forall j ::
                  var listed := j in st.tokens && st.tokens[j].sessionId in ids && !st.tokens[j].revoked && redisUp(j);
                  && (j in after.blacklist <==> j in st.blacklist || listed)
                  && (j in after.blacklist ==>
                        after.blacklist[j] == if listed then now + 7 * 24 * 3600 else st.blacklist[j]))
  {
    hide RevokeTokens, MarkRevoked, Listed;
    RevokedTokens(st, ActiveTokens(st, ids), now, REFRESH_TTL, redisUp);
  }

  // Revoking all that a user has revokes each of the user's sessions, each record of the user, and each record of a
  // session of the user that was not revoked.
  lemma {:induction false} RevokedUser(st: Store, user: UserId, now: Time, redisUp: Jti -> bool)
    ensures var after := RevokeAllForUser(st, user, now, redisUp);
            && after.sessions.Keys == st.sessions.Keys && after.tokens.Keys == st.tokens.Keys
            && (forall s :: s in st.sessions ==>
                  after.sessions[s]
                  == Session(st.sessions[s].userId, st.sessions[s].revoked || st.sessions[s].userId == user))
            && (forall j :: j in st.tokens ==>
                  var r := st.tokens[j];
                  after.tokens[j]
                  == TokenRecord(r.userId, r.sessionId,
                                 r.revoked || r.userId == user
                                 || (r.sessionId in st.sessions && st.sessions[r.sessionId] == Session(user, false))))
  {
    hide RevokeTokens, RevokeSessions, MarkRevoked, Listed;
    RevokedTokens(st, ActiveTokensOfUser(st, user), now, REFRESH_TTL, redisUp);
    var after := RevokeTokens(st, ActiveTokensOfUser(st, user), now, REFRESH_TTL, redisUp);
    RevokedSessions(after, ActiveSessions(after, user), now, redisUp);
  }

  // An accepted refresh revokes the old record, lists it for 15 minutes, and adds two records of the same session.
  lemma {:induction false} RefreshedStore(st: Store, users: map<UserId, User>, t: Token, deviceOk: bool, now: Time,
                                          redisUp: Jti -> bool, refreshJti: Jti, accessJti: Jti)
    ensures var after := AfterRefresh(st, users, t, deviceOk, now, redisUp, refreshJti, accessJti);
            var refusal := RefreshRefusal(st, users, t, deviceOk, now, redisUp(t.jti));
            && (refusal.None? ==>
                  && after.sessions == st.sessions && after.tokens.Keys == st.tokens.Keys + {refreshJti, accessJti}
                  && (forall j :: j in after.tokens ==>
                        after.tokens[j]
                        == if j in {refreshJti, accessJti} then TokenRecord(t.userId, t.sessionId, false)
                           else TokenRecord(st.tokens[j].userId, st.tokens[j].sessionId,
                                            st.tokens[j].revoked || j == t.jti))
                  && after.blacklist
                     == if redisUp(t.jti) then st.blacklist[t.jti := now + 15 * 60] else st.blacklist)
            && (refusal == Some(PasswordChanged) ==>
                  && after.sessions.Keys == st.sessions.Keys
                  && (forall s :: s in st.sessions ==>
                        after.sessions[s]
                        == Session(st.sessions[s].userId, st.sessions[s].revoked || st.sessions[s].userId == t.userId)))
            && (refusal.Some? && refusal != Some(PasswordChanged) ==> after == st)
  {
    hide RevokeTokens, RevokeSessions, StoreTokens, RefreshRefusal;
    Exchanged(st, t, now, redisUp, refreshJti, accessJti);
    RevokedSessions(st, ActiveSessions(st, t.userId), now, redisUp);
  }

  lemma {:induction false} Exchanged(st: Store, t: Token, now: Time, redisUp: Jti -> bool, refreshJti: Jti,
                                     accessJti: Jti)
    ensures var revoked := RevokeTokens(st, {t.jti}, now, ACCESS_TTL, redisUp);
            var after := StoreTokens(revoked, t.userId, t.sessionId, refreshJti, accessJti);
            && after.sessions == st.sessions && after.tokens.Keys == st.tokens.Keys + {refreshJti, accessJti}
            && (forall j :: j in after.tokens ==>
                  after.tokens[j]
                  == if j in {refreshJti, accessJti} then TokenRecord(t.userId, t.sessionId, false)
                     else TokenRecord(st.tokens[j].userId, st.tokens[j].sessionId, st.tokens[j].revoked || j == t.jti))
            && after.blacklist == if redisUp(t.jti) then st.blacklist[t.jti := now + 15 * 60] else st.blacklist
  {
    hide RevokeTokens;
    RevokedTokens(st, {t.jti}, now, ACCESS_TTL, redisUp);
    var blacklist := RevokeTokens(st, {t.jti}, now, ACCESS_TTL, redisUp).blacklist;
    assert blacklist == if redisUp(t.jti) then st.blacklist[t.jti := now + ACCESS_TTL] else st.blacklist;
  }

  // ---------- What revocation guarantees ----------

  // After a password change or reset, no token of any session of the user is accepted, whether or not Redis works.
  lemma {:induction false} EverythingOfUserIsRefused(st: Store, user: UserId, now: Time, redisUp: Jti -> bool, t: Token,
                                                     users: map<UserId, User>, later: Time, up: bool, deviceOk: bool)
    requires t.sessionId in st.sessions ==> st.sessions[t.sessionId].userId == user
    ensures AccessRefusal(RevokeAllForUser(st, user, now, redisUp), users, t, later, up).Some?
    ensures RefreshRefusal(RevokeAllForUser(st, user, now, redisUp), users, t, deviceOk, later, up).Some?
  {
  }
}

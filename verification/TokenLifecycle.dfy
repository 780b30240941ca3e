/** Runs of the session machine: logins, refreshes, revocations, and a Redis that may fail or forget at any time. */
module TokenLifecycle {
  import opened Options
  import opened Sessions

  // ---------- Refreshes interleaved with revocations ----------

  // A refresh has passed its first checks, found its session alive, revoked its token, and issued new tokens.
  datatype Phase = Presented | Accepted | OldRevoked | Done

  // A refresh under way; its position is its name.
  datatype Flight = Flight(token: Token, phase: Phase)

  // `presented` are the access tokens that have passed the checks made before their session is read.
  datatype State = State(store: Store, issued: set<Token>, presented: set<Token>, flights: seq<Flight>)

  datatype Step =
    | Login(session: SessionId, access: Token, refresh: Token)
    | PresentRefresh(token: Token, deviceOk: bool, now: Time, redisUp: bool)
    | AcceptRefresh(flight: nat)             // the session is read and alive
    | RevokeOld(flight: nat, now: Time, redisUp: bool)
    | Issue(flight: nat, access: Token, refresh: Token)
    | PresentAccess(token: Token, now: Time, redisUp: bool)
    | AcceptAccess(token: Token)
    | RevokeOneToken(jti: Jti, now: Time, ttl: int, redisUp: bool)
    | RevokeSessionRow(session: SessionId)
    | Forget(jti: Jti)                       // a blacklist entry is lost or dropped after its time

  predicate TokenPair(access: Token, refresh: Token, session: SessionId, user: UserId) {
    && access.kind == Access && refresh.kind == Refresh && access.jti != refresh.jti
    && access.sessionId == session && refresh.sessionId == session
    && access.userId == user && refresh.userId == user
  }

  predicate FreshPair(s: Store, access: Token, refresh: Token) {
    access.jti !in s.tokens && refresh.jti !in s.tokens
  }

  predicate InPhase(s: State, i: nat, phase: Phase) {
    i < |s.flights| && s.flights[i].phase == phase
  }

  function Advance(flights: seq<Flight>, i: nat, phase: Phase): seq<Flight>
    requires i < |flights|
  {
    flights[i := flights[i].(phase := phase)]
  }

  predicate Enabled(s: State, users: map<UserId, User>, step: Step) {
    match step
    case Login(session, access, refresh) =>
      && session !in s.store.sessions && TokenPair(access, refresh, session, access.userId)
      && FreshPair(s.store, access, refresh)
    case PresentRefresh(t, deviceOk, now, up) =>
      t in s.issued && RefreshRefusal(s.store, users, t, deviceOk, now, up) in {None, Some(SessionNotFound)}
    case AcceptRefresh(i) =>
      InPhase(s, i, Presented) && SessionAlive(s.store, s.flights[i].token.sessionId)
    case RevokeOld(i, now, up) => InPhase(s, i, Accepted)
    case Issue(i, access, refresh) =>
      && InPhase(s, i, OldRevoked)
      && TokenPair(access, refresh, s.flights[i].token.sessionId, s.flights[i].token.userId)
      && FreshPair(s.store, access, refresh)
    case PresentAccess(t, now, up) =>
      t in s.issued && t.kind == Access && now < t.expiresAt && !IsBlacklisted(s.store, t.jti, now, up)
    case AcceptAccess(t) => t in s.presented && t.kind == Access && SessionAlive(s.store, t.sessionId)
    case RevokeOneToken(_, _, _, _) => true
    case RevokeSessionRow(_) => true
    case Forget(_) => true
  }

  function StoreRevoked(st: Store, jti: Jti, now: Time, ttl: int, up: bool): Store {
    RevokeTokens(st, {jti}, now, ttl, (j: Jti) => up)
  }

  function StorePair(st: Store, access: Token, refresh: Token): Store {
    StoreTokens(st, access.userId, access.sessionId, refresh.jti, access.jti)
  }

  function Next(s: State, users: map<UserId, User>, step: Step): State
    requires Enabled(s, users, step)
  {
    match step
    case Login(session, access, refresh) =>
      var st := s.store.(sessions := s.store.sessions[session := Session(access.userId, false)]);
      s.(store := StorePair(st, access, refresh), issued := s.issued + {access, refresh})
    case PresentRefresh(t, _, _, _) => s.(flights := s.flights + [Flight(t, Presented)])
    case AcceptRefresh(i) => s.(flights := Advance(s.flights, i, Accepted))
    case RevokeOld(i, now, up) =>
      s.(store := StoreRevoked(s.store, s.flights[i].token.jti, now, ACCESS_TTL, up),
         flights := Advance(s.flights, i, OldRevoked))
    case Issue(i, access, refresh) =>
      s.(store := StorePair(s.store, access, refresh), issued := s.issued + {access, refresh},
         flights := Advance(s.flights, i, Done))
    case PresentAccess(t, _, _) => s.(presented := s.presented + {t})
    case AcceptAccess(_) => s
    case RevokeOneToken(jti, now, ttl, up) => s.(store := StoreRevoked(s.store, jti, now, ttl, up))
    case RevokeSessionRow(session) =>
      if session in s.store.sessions
      then s.(store := s.store.(sessions := s.store.sessions[session := s.store.sessions[session].(revoked := true)]))
      else s
    case Forget(jti) => s.(store := s.store.(blacklist := s.store.blacklist - {jti}))
  }

  ghost predicate Execution(trace: seq<State>, users: seq<map<UserId, User>>, steps: seq<Step>) {
    && |trace| == |steps| + 1 && |users| == |steps|
    && trace[0] == State(Store(map[], map[], map[]), {}, {}, [])
    && forall i :: 0 <= i < |steps| ==>
         Enabled(trace[i], users[i], steps[i]) && trace[i + 1] == Next(trace[i], users[i], steps[i])
  }

  // The token that a step accepts, for access or for exchange.
  function AcceptedToken(s: State, step: Step): Option<Token> {
    match step
    case AcceptRefresh(i) => if i < |s.flights| then Some(s.flights[i].token) else None
    case AcceptAccess(t) => Some(t)
    case _ => None
  }

  predicate Revoked(s: State, session: SessionId) {
    session in s.store.sessions && s.store.sessions[session].revoked
  }

  lemma {:induction false} RevokedStays(trace: seq<State>, users: seq<map<UserId, User>>, steps: seq<Step>,
                                        i: nat, j: nat, session: SessionId)
    requires Execution(trace, users, steps) && i <= j < |trace| && Revoked(trace[i], session)
    ensures Revoked(trace[j], session)
  {
    if i < j {
      RevokedStays(trace, users, steps, i, j - 1, session);
      assert trace[j] == Next(trace[j - 1], users[j - 1], steps[j - 1]);
    }
  }

  // Once the row of a session is revoked, no step accepts an access or refresh token of that session, including
  // tokens issued later by a refresh that had already passed its session check, and tokens whose other checks were
  // made before the revocation.
  lemma {:induction false} RevokedSessionAcceptsNothing(trace: seq<State>, users: seq<map<UserId, User>>,
                                                        steps: seq<Step>, i: nat, j: nat, session: SessionId)
    requires Execution(trace, users, steps) && i <= j < |steps| && Revoked(trace[i], session)
    ensures AcceptedToken(trace[j], steps[j]).Some? ==>
              AcceptedToken(trace[j], steps[j]).value.sessionId != session
  {
    RevokedStays(trace, users, steps, i, j, session);
    assert Enabled(trace[j], users[j], steps[j]);
  }

  // From the step that revokes the row of a session on, no step accepts a token of that session.
  lemma {:induction false} NothingAfterRevocation(trace: seq<State>, users: seq<map<UserId, User>>, steps: seq<Step>,
                                                  i: nat, j: nat, session: SessionId)
    requires Execution(trace, users, steps) && i < j < |steps|
    requires steps[i] == RevokeSessionRow(session) && session in trace[i].store.sessions
    ensures AcceptedToken(trace[j], steps[j]).Some? ==>
              AcceptedToken(trace[j], steps[j]).value.sessionId != session
  {
    assert trace[i + 1] == Next(trace[i], users[i], steps[i]);
    RevokedSessionAcceptsNothing(trace, users, steps, i + 1, j, session);
  }

  // A refresh may be presented with an issued token that passes every check but that of its session, which is read
  // later.
  lemma {:induction false} PresentableIff(s: State, users: map<UserId, User>, t: Token, deviceOk: bool, now: Time,
                                          redisUp: bool)
    ensures Enabled(s, users, PresentRefresh(t, deviceOk, now, redisUp))
       <==> && t in s.issued && t.kind == Refresh && now < t.expiresAt
            && (t.jti in s.store.tokens ==> !s.store.tokens[t.jti].revoked)
            && !(redisUp && t.jti in s.store.blacklist && now < s.store.blacklist[t.jti])
            && deviceOk && t.userId in users && users[t.userId].active
            && (users[t.userId].passwordChangedAt.Some? ==>
                  users[t.userId].passwordChangedAt.value <= t.issuedAt * 1000)
  {
  }

  // Every issued token belongs to a session of its user, and the tokens under way have been issued.
  ghost predicate SessionsExist(s: State) {
    && (forall t :: t in s.issued ==>
          t.sessionId in s.store.sessions && s.store.sessions[t.sessionId].userId == t.userId)
    && (forall t :: t in s.presented ==> t in s.issued)
    && (forall i :: 0 <= i < |s.flights| ==> s.flights[i].token in s.issued)
  }

  // Every token has a durable record that names its session and its user.
  ghost predicate Recorded(s: State) {
    forall t :: t in s.issued ==> t.jti in s.store.tokens
                                  && s.store.tokens[t.jti].sessionId == t.sessionId
                                  && s.store.tokens[t.jti].userId == t.userId
  }

  lemma {:induction false} NextKeepsSessions(s: State, users: map<UserId, User>, step: Step)
    requires SessionsExist(s) && Enabled(s, users, step)
    ensures SessionsExist(Next(s, users, step))
  {
    hide RefreshRefusal, MarkRevoked;
    assert forall id :: id in s.store.sessions ==> id in Next(s, users, step).store.sessions;
  }

  lemma {:induction false} NextKeepsRecorded(s: State, users: map<UserId, User>, step: Step)
    requires Recorded(s) && Enabled(s, users, step)
    ensures Recorded(Next(s, users, step))
  {
    hide RefreshRefusal, SessionAlive;
  }

  lemma {:induction false} IssuedTokensAreRecorded(trace: seq<State>, users: seq<map<UserId, User>>, steps: seq<Step>,
                                                   n: nat)
    requires Execution(trace, users, steps) && n < |trace|
    ensures SessionsExist(trace[n]) && Recorded(trace[n])
  {
    if n > 0 {
      hide Enabled, Next, SessionsExist, Recorded;
      IssuedTokensAreRecorded(trace, users, steps, n - 1);
      NextKeepsSessions(trace[n - 1], users[n - 1], steps[n - 1]);
      NextKeepsRecorded(trace[n - 1], users[n - 1], steps[n - 1]);
    }
  }
}

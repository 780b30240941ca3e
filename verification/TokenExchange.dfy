/** How often a refresh token is exchanged: once when refreshes do not interleave, and more often only in a race. */
module TokenExchange {
  import opened Sessions
  import opened TokenLifecycle

  predicate RecordRevoked(s: State, jti: Jti) {
    jti in s.store.tokens && s.store.tokens[jti].revoked
  }

  lemma {:induction false} RecordStaysRevoked(trace: seq<State>, users: seq<map<UserId, User>>, steps: seq<Step>,
                                              i: nat, j: nat, jti: Jti)
    requires Execution(trace, users, steps) && i <= j < |trace| && RecordRevoked(trace[i], jti)
    ensures RecordRevoked(trace[j], jti)
  {
    hide Enabled, Next;
    if i < j {
      RecordStaysRevoked(trace, users, steps, i, j - 1, jti);
      NextKeepsRevoked(trace[j - 1], users[j - 1], steps[j - 1], jti);
    }
  }

  lemma {:induction false} NextKeepsRevoked(s: State, users: map<UserId, User>, step: Step, jti: Jti)
    requires Enabled(s, users, step) && RecordRevoked(s, jti)
    ensures RecordRevoked(Next(s, users, step), jti)
  {
    hide RefreshRefusal, SessionAlive;
  }

  // A refresh under way was presented by one step and, if it has got so far, revoked its token by a later one.
  lemma {:induction false} PresentedBy(trace: seq<State>, users: seq<map<UserId, User>>, steps: seq<Step>, n: nat,
                                       a: nat)
    returns (p: nat)
    requires Execution(trace, users, steps) && n < |trace| && a < |trace[n].flights|
    ensures p < n && steps[p].PresentRefresh? && steps[p].token == trace[n].flights[a].token
    ensures |trace[p].flights| == a
  {
    var before := trace[n - 1];
    assert Enabled(before, users[n - 1], steps[n - 1]) && trace[n] == Next(before, users[n - 1], steps[n - 1]);
    if a < |before.flights| {
      p := PresentedBy(trace, users, steps, n - 1, a);
    } else {
      p := n - 1;
    }
  }

  lemma {:induction false} RevokedBy(trace: seq<State>, users: seq<map<UserId, User>>, steps: seq<Step>, n: nat, a: nat)
    returns (r: nat)
    requires Execution(trace, users, steps) && n < |trace| && a < |trace[n].flights|
    requires trace[n].flights[a].phase in {OldRevoked, Done}
    ensures r < n && steps[r].RevokeOld? && steps[r].flight == a
    ensures a < |trace[r].flights| && trace[r].flights[a].token == trace[n].flights[a].token
  {
    var before := trace[n - 1];
    assert Enabled(before, users[n - 1], steps[n - 1]) && trace[n] == Next(before, users[n - 1], steps[n - 1]);
    if a < |before.flights| && before.flights[a].phase in {OldRevoked, Done} {
      r := RevokedBy(trace, users, steps, n - 1, a);
    } else {
      r := n - 1;
    }
  }

  // Once a refresh has revoked its token, the token is never presented again.
  lemma {:induction false} NotPresentedAfterRevoke(trace: seq<State>, users: seq<map<UserId, User>>, steps: seq<Step>,
                                                   r: nat, p: nat)
    requires Execution(trace, users, steps) && r < |steps| && p < |steps|
    requires steps[r].RevokeOld? && steps[r].flight < |trace[r].flights|
    requires steps[p].PresentRefresh? && steps[p].token.jti == trace[r].flights[steps[r].flight].token.jti
    ensures p < r
  {
    hide Recorded, SessionsExist;
    var jti := steps[p].token.jti;
    if r <= p {
      RevokeMarks(trace, users, steps, r);
      assert Enabled(trace[p], users[p], steps[p]);
      if r < p {
        RecordStaysRevoked(trace, users, steps, r + 1, p, jti);
      }
    }
  }

  lemma {:induction false} RevokeMarks(trace: seq<State>, users: seq<map<UserId, User>>, steps: seq<Step>, r: nat)
    requires Execution(trace, users, steps) && r < |steps|
    requires steps[r].RevokeOld? && steps[r].flight < |trace[r].flights|
    ensures RecordRevoked(trace[r + 1], trace[r].flights[steps[r].flight].token.jti)
  {
    IssuedTokensAreRecorded(trace, users, steps, r);
    assert Enabled(trace[r], users[r], steps[r]) && trace[r + 1] == Next(trace[r], users[r], steps[r]);
    assert trace[r].flights[steps[r].flight].token in trace[r].issued;
  }

  // Two refreshes both exchange one token only if each was presented before either revoked the token.
  lemma {:induction false} ExchangedTwiceOnlyInRace(trace: seq<State>, users: seq<map<UserId, User>>, steps: seq<Step>,
                                                    n: nat, a: nat, b: nat)
    returns (presentedA: nat, presentedB: nat, revokedA: nat, revokedB: nat)
    requires Execution(trace, users, steps) && n < |trace| && a < |trace[n].flights| && b < |trace[n].flights|
    requires a != b && trace[n].flights[a].token.jti == trace[n].flights[b].token.jti
    requires trace[n].flights[a].phase in {OldRevoked, Done} && trace[n].flights[b].phase in {OldRevoked, Done}
    ensures presentedA < n && steps[presentedA].PresentRefresh? && |trace[presentedA].flights| == a
    ensures presentedB < n && steps[presentedB].PresentRefresh? && |trace[presentedB].flights| == b
    ensures steps[presentedA].token == trace[n].flights[a].token && steps[presentedB].token == trace[n].flights[b].token
    ensures revokedA < n && steps[revokedA].RevokeOld? && steps[revokedA].flight == a
    ensures revokedB < n && steps[revokedB].RevokeOld? && steps[revokedB].flight == b
    ensures presentedA < revokedA && presentedA < revokedB && presentedB < revokedA && presentedB < revokedB
  {
    hide Enabled, Next;
    presentedA := PresentedBy(trace, users, steps, n, a);
    presentedB := PresentedBy(trace, users, steps, n, b);
    revokedA := RevokedBy(trace, users, steps, n, a);
    revokedB := RevokedBy(trace, users, steps, n, b);
    NotPresentedAfterRevoke(trace, users, steps, revokedA, presentedA);
    NotPresentedAfterRevoke(trace, users, steps, revokedA, presentedB);
    NotPresentedAfterRevoke(trace, users, steps, revokedB, presentedA);
    NotPresentedAfterRevoke(trace, users, steps, revokedB, presentedB);
  }

  // Whatever the interleaving, a refresh under way carries an issued refresh token that had passed every check but that
  // of its session when it was presented.
  lemma {:induction false} FlightsCarryRefresh(trace: seq<State>, users: seq<map<UserId, User>>, steps: seq<Step>,
                                               n: nat, a: nat)
    returns (p: nat)
    requires Execution(trace, users, steps) && n < |trace| && a < |trace[n].flights|
    ensures p < n && steps[p].PresentRefresh? && |trace[p].flights| == a
    ensures var t, st := trace[n].flights[a].token, trace[p].store;
            && steps[p].token == t && t in trace[p].issued && t.kind == Refresh && steps[p].now < t.expiresAt
            && t.jti in st.tokens && !st.tokens[t.jti].revoked
            && !(steps[p].redisUp && t.jti in st.blacklist && steps[p].now < st.blacklist[t.jti])
            && steps[p].deviceOk && t.userId in users[p] && users[p][t.userId].active
            && (users[p][t.userId].passwordChangedAt.Some? ==>
                  users[p][t.userId].passwordChangedAt.value <= t.issuedAt * 1000)
  {
    hide Next, SessionsExist;
    p := PresentedBy(trace, users, steps, n, a);
    IssuedTokensAreRecorded(trace, users, steps, p);
    assert Enabled(trace[p], users[p], steps[p]);
  }

  // An access token whose session is about to be read has passed every check made before.
  lemma {:induction false} PresentedAccessTokens(trace: seq<State>, users: seq<map<UserId, User>>, steps: seq<Step>,
                                                 n: nat, t: Token)
    returns (p: nat)
    requires Execution(trace, users, steps) && n < |trace| && t in trace[n].presented
    ensures p < n && steps[p].PresentAccess? && steps[p].token == t
    ensures t in trace[p].issued && t.kind == Access && steps[p].now < t.expiresAt
    ensures !(steps[p].redisUp && t.jti in trace[p].store.blacklist && steps[p].now < trace[p].store.blacklist[t.jti])
  {
    var before := trace[n - 1];
    assert Enabled(before, users[n - 1], steps[n - 1]) && trace[n] == Next(before, users[n - 1], steps[n - 1]);
    if t in before.presented {
      p := PresentedAccessTokens(trace, users, steps, n - 1, t);
    } else {
      p := n - 1;
    }
  }

  // ---------- Refreshes taken as one step ----------

  datatype AtomicState = AtomicState(store: Store, issued: set<Token>, exchanged: seq<Jti>)

  datatype AtomicStep =
    | LogIn(session: SessionId, access: Token, refresh: Token)
    | Exchange(token: Token, deviceOk: bool, now: Time, redisUp: Jti -> bool, access: Token, refresh: Token)
    | RevokeSet(jtis: set<Jti>, now: Time, ttl: int, redisUp: Jti -> bool)
    | EndSessions(sessions: set<SessionId>, now: Time, redisUp: Jti -> bool)
    | LoseEntry(jti: Jti)

  predicate Possible(s: AtomicState, users: map<UserId, User>, step: AtomicStep) {
    match step
    case LogIn(session, access, refresh) =>
      && session !in s.store.sessions && TokenPair(access, refresh, session, access.userId)
      && FreshPair(s.store, access, refresh)
    case Exchange(t, deviceOk, now, up, access, refresh) =>
      t in s.issued && TokenPair(access, refresh, t.sessionId, t.userId) && FreshPair(s.store, access, refresh)
    case _ => true
  }

  function Then(s: AtomicState, users: map<UserId, User>, step: AtomicStep): AtomicState {
    match step
    case LogIn(session, access, refresh) =>
      var st := s.store.(sessions := s.store.sessions[session := Session(access.userId, false)]);
      s.(store := StorePair(st, access, refresh), issued := s.issued + {access, refresh})
    case Exchange(t, deviceOk, now, up, access, refresh) =>
      var next := s.(store := AfterRefresh(s.store, users, t, deviceOk, now, up, refresh.jti, access.jti));
      if RefreshRefusal(s.store, users, t, deviceOk, now, up(t.jti)).None?
      then next.(issued := s.issued + {access, refresh}, exchanged := s.exchanged + [t.jti]) else next
    case RevokeSet(jtis, now, ttl, up) => s.(store := RevokeTokens(s.store, jtis, now, ttl, up))
    case EndSessions(sessions, now, up) => s.(store := RevokeSessions(s.store, sessions, now, up))
    case LoseEntry(jti) => s.(store := s.store.(blacklist := s.store.blacklist - {jti}))
  }

  ghost predicate AtomicExecution(trace: seq<AtomicState>, users: seq<map<UserId, User>>, steps: seq<AtomicStep>) {
    && |trace| == |steps| + 1 && |users| == |steps|
    && trace[0] == AtomicState(Store(map[], map[], map[]), {}, [])
    && forall i :: 0 <= i < |steps| ==>
         Possible(trace[i], users[i], steps[i]) && trace[i + 1] == Then(trace[i], users[i], steps[i])
  }

  // Issued tokens have durable records, and those of exchanged tokens are revoked.
  ghost predicate ExchangesRecorded(s: AtomicState) {
    && (forall t :: t in s.issued ==> t.jti in s.store.tokens)
    && (forall i :: 0 <= i < |s.exchanged| ==>
          s.exchanged[i] in s.store.tokens && s.store.tokens[s.exchanged[i]].revoked)
    && (forall i, j :: 0 <= i < j < |s.exchanged| ==> s.exchanged[i] != s.exchanged[j])
  }

  lemma {:induction false} ThenKeepsRecords(s: AtomicState, users: map<UserId, User>, step: AtomicStep)
    requires ExchangesRecorded(s) && Possible(s, users, step)
    ensures ExchangesRecorded(Then(s, users, step))
  {
    var s' := Then(s, users, step);
    assert forall j :: j in s.store.tokens ==> j in s'.store.tokens;
    if step.Exchange? && |s'.exchanged| > |s.exchanged| {
      assert step.token.jti in s.store.tokens && !s.store.tokens[step.token.jti].revoked;
      assert s'.store.tokens[step.token.jti].revoked;
    }
  }

  // A refresh token is exchanged at most once, whatever Redis forgets and whenever it fails.
  lemma {:induction false} ExchangedAtMostOnce(trace: seq<AtomicState>, users: seq<map<UserId, User>>,
                                               steps: seq<AtomicStep>, n: nat)
    requires AtomicExecution(trace, users, steps) && n < |trace|
    ensures ExchangesRecorded(trace[n])
    ensures forall i, j :: 0 <= i < j < |trace[n].exchanged| ==> trace[n].exchanged[i] != trace[n].exchanged[j]
  {
    if n > 0 {
      ExchangedAtMostOnce(trace, users, steps, n - 1);
      ThenKeepsRecords(trace[n - 1], users[n - 1], steps[n - 1]);
    }
  }
}

/** When two refreshes of one token can both exchange it, and a run in which they do. */
module TokenRace {
  import opened Options
  import opened Sequences
  import opened Sessions
  import opened TokenExchange
  import opened TokenLifecycle

  // A run that goes on from another.
  ghost predicate Extends(longer: seq<State>, moreUsers: seq<map<UserId, User>>, more: seq<Step>, trace: seq<State>,
                          users: seq<map<UserId, User>>, steps: seq<Step>)
  {
    && Execution(longer, moreUsers, more)
    && trace <= longer && users <= moreUsers && steps <= more && |trace| == |steps| + 1
  }

  lemma {:induction false} OneMoreStep(trace: seq<State>, users: seq<map<UserId, User>>, steps: seq<Step>,
                                       u: map<UserId, User>, step: Step)
    returns (longer: seq<State>, moreUsers: seq<map<UserId, User>>, more: seq<Step>)
    requires Execution(trace, users, steps) && Enabled(trace[|steps|], u, step)
    ensures Extends(longer, moreUsers, more, trace, users, steps) && |more| == |steps| + 1
    ensures longer[|more|] == Next(trace[|steps|], u, step)
  {
    hide Enabled, Next;
    longer := trace + [Next(trace[|steps|], u, step)];
    moreUsers, more := users + [u], steps + [step];
  }

  // A refresh can go on unless its session has ended before it was read.
  predicate CanFinish(s: State, i: nat)
    requires i < |s.flights|
  {
    s.flights[i].phase == Presented ==> SessionAlive(s.store, s.flights[i].token.sessionId)
  }

  lemma {:induction false} UnusedIds(s: State) returns (a: Jti, b: Jti)
    ensures a != b && a !in s.store.tokens && b !in s.store.tokens
  {
    var n := LongerThan(s.store.tokens.Keys);
    a, b := seq(n, _ => 'x'), seq(n + 1, _ => 'x');
    assert |a| == n && |b| == n + 1;
  }

  function NextPhase(phase: Phase): Phase {
    match phase
    case Presented => Accepted
    case Accepted => OldRevoked
    case OldRevoked => Done
    case Done => Done
  }

  // The next step of a refresh is possible; it moves no other refresh and ends no session.
  lemma {:induction false} NextOfFlight(s: State, i: nat) returns (step: Step)
    requires i < |s.flights| && s.flights[i].phase != Done && CanFinish(s, i)
    ensures Enabled(s, map[], step)
    ensures Next(s, map[], step).flights == Advance(s.flights, i, NextPhase(s.flights[i].phase))
    ensures Next(s, map[], step).store.sessions == s.store.sessions
  {
    hide RefreshRefusal;
    var t := s.flights[i].token;
    match s.flights[i].phase
    case Presented => step := AcceptRefresh(i);
    case Accepted => step := RevokeOld(i, 0, false);
    case OldRevoked =>
      var a, b := UnusedIds(s);
      step := Issue(i, Token(a, t.userId, t.sessionId, Access, 0, ACCESS_TTL),
                    Token(b, t.userId, t.sessionId, Refresh, 0, REFRESH_TTL));
  }

  function StepsLeft(phase: Phase): nat {
    match phase
    case Presented => 3
    case Accepted => 2
    case OldRevoked => 1
    case Done => 0
  }

  lemma {:induction false} FinishFlight(trace: seq<State>, users: seq<map<UserId, User>>, steps: seq<Step>, i: nat)
    returns (longer: seq<State>, moreUsers: seq<map<UserId, User>>, more: seq<Step>)
    requires Execution(trace, users, steps) && i < |trace[|steps|].flights| && CanFinish(trace[|steps|], i)
    ensures Extends(longer, moreUsers, more, trace, users, steps)
    ensures longer[|more|].flights == Advance(trace[|steps|].flights, i, Done)
    ensures longer[|more|].store.sessions == trace[|steps|].store.sessions
    decreases StepsLeft(trace[|steps|].flights[i].phase)
  {
    hide Enabled, Next;
    var s := trace[|steps|];
    if s.flights[i].phase == Done {
      longer, moreUsers, more := trace, users, steps;
      assert Advance(s.flights, i, Done) == s.flights;
    } else {
      var step := NextOfFlight(s, i);
      longer, moreUsers, more := OneMoreStep(trace, users, steps, map[], step);
      longer, moreUsers, more := FinishFlight(longer, moreUsers, more, i);
    }
  }

  // A refresh that cannot go on stays where it is.
  lemma {:induction false} StuckStays(trace: seq<State>, users: seq<map<UserId, User>>, steps: seq<Step>, n: nat,
                                      m: nat, i: nat)
    requires Execution(trace, users, steps) && n <= m < |trace| && i < |trace[n].flights| && !CanFinish(trace[n], i)
    ensures i < |trace[m].flights| && trace[m].flights[i] == trace[n].flights[i] && !CanFinish(trace[m], i)
  {
    hide Recorded, SessionsExist, Enabled, Next, CanFinish;
    if n < m {
      StuckStays(trace, users, steps, n, m - 1, i);
      IssuedTokensAreRecorded(trace, users, steps, m - 1);
      StuckOnce(trace[m - 1], users[m - 1], steps[m - 1], i);
    }
  }

  lemma {:induction false} StuckOnce(s: State, users: map<UserId, User>, step: Step, i: nat)
    requires SessionsExist(s) && Enabled(s, users, step) && i < |s.flights| && !CanFinish(s, i)
    ensures var next := Next(s, users, step);
            i < |next.flights| && next.flights[i] == s.flights[i] && !CanFinish(next, i)
  {
    hide RefreshRefusal, MarkRevoked;
    assert s.flights[i].token in s.issued;
  }

  ghost predicate CanBothFinish(trace: seq<State>, users: seq<map<UserId, User>>, steps: seq<Step>, a: nat, b: nat) {
    exists longer, moreUsers, more ::
      Extends(longer, moreUsers, more, trace, users, steps) && InPhase(longer[|more|], a, Done)
      && InPhase(longer[|more|], b, Done)
  }

  // Two refreshes under way can both exchange their token exactly when neither still waits for a session that has
  // ended.
  lemma {:induction false} RaceCanEnd(trace: seq<State>, users: seq<map<UserId, User>>, steps: seq<Step>, a: nat,
                                      b: nat)
    requires Execution(trace, users, steps) && a != b
    requires a < |trace[|steps|].flights| && b < |trace[|steps|].flights|
    ensures CanBothFinish(trace, users, steps, a, b) <==> CanFinish(trace[|steps|], a) && CanFinish(trace[|steps|], b)
  {
    hide Enabled, Next;
    if CanFinish(trace[|steps|], a) && CanFinish(trace[|steps|], b) {
      var longer, moreUsers, more := FinishFlight(trace, users, steps, a);
      longer, moreUsers, more := FinishFlight(longer, moreUsers, more, b);
      assert Extends(longer, moreUsers, more, trace, users, steps);
    }
    if CanBothFinish(trace, users, steps, a, b) {
      var longer, moreUsers, more :|
        Extends(longer, moreUsers, more, trace, users, steps) && InPhase(longer[|more|], a, Done)
        && InPhase(longer[|more|], b, Done);
      assert longer[|steps|] == trace[|steps|];
      if !CanFinish(trace[|steps|], a) { StuckStays(longer, moreUsers, more, |steps|, |more|, a); }
      if !CanFinish(trace[|steps|], b) { StuckStays(longer, moreUsers, more, |steps|, |more|, b); }
    }
  }

  // A refresh under way for this token.
  predicate UnderWay(s: State, i: nat, jti: Jti) {
    i < |s.flights| && s.flights[i].token.jti == jti && s.flights[i].phase in {Presented, Accepted}
  }

  // A token that is never presented while another refresh of it is under way is exchanged at most once.
  lemma {:induction false} NoOverlapNoRace(trace: seq<State>, users: seq<map<UserId, User>>, steps: seq<Step>, n: nat,
                                           jti: Jti, a: nat, b: nat)
    requires Execution(trace, users, steps) && n < |trace| && a < b < |trace[n].flights|
    requires forall p, i: nat :: 0 <= p < |steps| && steps[p].PresentRefresh? && steps[p].token.jti == jti ==>
               !UnderWay(trace[p], i, jti)
    requires trace[n].flights[a].token.jti == jti && trace[n].flights[b].token.jti == jti
    ensures !(trace[n].flights[a].phase in {OldRevoked, Done} && trace[n].flights[b].phase in {OldRevoked, Done})
  {
    hide Enabled, Next;
    if trace[n].flights[a].phase in {OldRevoked, Done} && trace[n].flights[b].phase in {OldRevoked, Done} {
      var pa, pb, ra, rb := ExchangedTwiceOnlyInRace(trace, users, steps, n, a, b);
      UnderWayAt(trace, users, steps, n, pb, ra, a);
    }
  }

  // Before it revokes its token, a refresh that has been presented is under way.
  lemma {:induction false} UnderWayAt(trace: seq<State>, users: seq<map<UserId, User>>, steps: seq<Step>, n: nat,
                                      p: nat, r: nat, a: nat)
    requires Execution(trace, users, steps) && p < r < |steps| && r < n < |trace|
    requires a < |trace[p].flights| && steps[r].RevokeOld? && steps[r].flight == a
    ensures a < |trace[n].flights| && UnderWay(trace[p], a, trace[n].flights[a].token.jti)
  {
    hide Enabled, Next;
    FlightKept(trace, users, steps, p, r, a);
    FlightKept(trace, users, steps, r, n, a);
    RevokeNeedsAccepted(trace[r], users[r], steps[r]);
  }

  lemma {:induction false} RevokeNeedsAccepted(s: State, users: map<UserId, User>, step: Step)
    requires Enabled(s, users, step) && step.RevokeOld?
    ensures InPhase(s, step.flight, Accepted)
  {
  }

  lemma {:induction false} FlightKept(trace: seq<State>, users: seq<map<UserId, User>>, steps: seq<Step>, p: nat,
                                      r: nat, a: nat)
    requires Execution(trace, users, steps) && p <= r < |trace| && a < |trace[p].flights|
    ensures a < |trace[r].flights| && trace[r].flights[a].token == trace[p].flights[a].token
    ensures StepsLeft(trace[r].flights[a].phase) <= StepsLeft(trace[p].flights[a].phase)
  {
    if p < r {
      FlightKept(trace, users, steps, p, r - 1, a);
      FlightKeptOnce(trace[r - 1], users[r - 1], steps[r - 1], a);
    }
  }

  lemma {:induction false} FlightKeptOnce(s: State, users: map<UserId, User>, step: Step, a: nat)
    requires Enabled(s, users, step) && a < |s.flights|
    ensures var next := Next(s, users, step);
            && a < |next.flights| && next.flights[a].token == s.flights[a].token
            && StepsLeft(next.flights[a].phase) <= StepsLeft(s.flights[a].phase)
  {
    hide RefreshRefusal;
  }

  // A presentation while another refresh of the token is under way can end in two exchanges exactly when the sessions
  // that are still to be read live.
  lemma {:induction false} OverlapCanRace(trace: seq<State>, users: seq<map<UserId, User>>, steps: seq<Step>, a: nat)
    requires Execution(trace, users, steps) && steps != [] && steps[|steps| - 1].PresentRefresh?
    requires UnderWay(trace[|steps| - 1], a, steps[|steps| - 1].token.jti)
    ensures a < |trace[|steps| - 1].flights| < |trace[|steps|].flights|
    ensures CanBothFinish(trace, users, steps, a, |trace[|steps| - 1].flights|)
       <==> && SessionAlive(trace[|steps| - 1].store, steps[|steps| - 1].token.sessionId)
            && CanFinish(trace[|steps| - 1], a)
  {
    hide CanBothFinish;
    var s, b := trace[|steps| - 1], |trace[|steps| - 1].flights|;
    PresentationAdds(s, users[|steps| - 1], steps[|steps| - 1]);
    RaceCanEnd(trace, users, steps, a, b);
  }

  lemma {:induction false} PresentationAdds(s: State, users: map<UserId, User>, step: Step)
    requires step.PresentRefresh? && Enabled(s, users, step)
    ensures Next(s, users, step).flights == s.flights + [Flight(step.token, Presented)]
    ensures Next(s, users, step).store == s.store
  {
  }

  // ---------- A race ----------

  function SampleToken(jti: Jti, kind: Kind): Token {
    Token(jti, "user", "session", kind, 0, 100)
  }

  const SAMPLE_USERS: map<UserId, User> := map["user" := User(true, None)]

  // A living session, its refresh token, the refreshes under way for it, and IDs that no token has yet.
  ghost predicate Racing(s: State, flights: seq<Flight>, revoked: bool, unused: set<Jti>) {
    && s.flights == flights && SampleToken("r1", Refresh) in s.issued && SessionAlive(s.store, "session")
    && "r1" in s.store.tokens && s.store.tokens["r1"].revoked == revoked && "r1" !in unused
    && forall j :: j in unused ==> j !in s.store.tokens
  }

  lemma {:induction false} RaceLogin(s: State, login: Step)
    requires s == State(Store(map[], map[], map[]), {}, {}, [])
    requires login == Login("session", SampleToken("a1", Access), SampleToken("r1", Refresh))
    ensures Enabled(s, SAMPLE_USERS, login)
    ensures Racing(Next(s, SAMPLE_USERS, login), [], false, {"a2", "r2", "a3", "r3"})
  {
  }

  lemma {:induction false} RacePresent(s: State, flights: seq<Flight>, unused: set<Jti>, step: Step)
    requires Racing(s, flights, false, unused) && step == PresentRefresh(SampleToken("r1", Refresh), true, 1, false)
    ensures Enabled(s, SAMPLE_USERS, step)
    ensures var presented := Flight(SampleToken("r1", Refresh), Presented);
            Racing(Next(s, SAMPLE_USERS, step), flights + [presented], false, unused)
  {
  }

  lemma {:induction false} RaceAccept(s: State, flights: seq<Flight>, unused: set<Jti>, i: nat)
    requires Racing(s, flights, false, unused)
    requires i < |flights| && flights[i] == Flight(SampleToken("r1", Refresh), Presented)
    ensures Enabled(s, SAMPLE_USERS, AcceptRefresh(i))
    ensures Racing(Next(s, SAMPLE_USERS, AcceptRefresh(i)), Advance(flights, i, Accepted), false, unused)
  {
  }

  lemma {:induction false} RaceRevoke(s: State, flights: seq<Flight>, revoked: bool, unused: set<Jti>, i: nat)
    requires Racing(s, flights, revoked, unused)
    requires i < |flights| && flights[i] == Flight(SampleToken("r1", Refresh), Accepted)
    ensures Enabled(s, SAMPLE_USERS, RevokeOld(i, 2, true))
    ensures Racing(Next(s, SAMPLE_USERS, RevokeOld(i, 2, true)), Advance(flights, i, OldRevoked), true, unused)
  {
  }

  lemma {:induction false} RaceIssue(s: State, flights: seq<Flight>, unused: set<Jti>, i: nat, access: Jti,
                                     refresh: Jti)
    requires Racing(s, flights, true, unused) && access in unused && refresh in unused && access != refresh
    requires i < |flights| && flights[i] == Flight(SampleToken("r1", Refresh), OldRevoked)
    ensures var step := Issue(i, SampleToken(access, Access), SampleToken(refresh, Refresh));
            && Enabled(s, SAMPLE_USERS, step)
            && Racing(Next(s, SAMPLE_USERS, step), Advance(flights, i, Done), true, unused - {access, refresh})
  {
  }

  // Two refreshes of one token, both past their checks before either revokes it, both issue tokens.
  lemma RaceExample() returns (trace: seq<State>, users: seq<map<UserId, User>>, steps: seq<Step>)
    ensures Execution(trace, users, steps)
    ensures var last := trace[|steps|].flights;
            |last| == 2 && last[0].token == last[1].token && last[0].phase == Done && last[1].phase == Done
  {
    trace, users, steps := RaceStart();
    trace, users, steps := RaceEnd(trace, users, steps);
  }

  // Both refreshes have passed their checks.
  lemma RaceStart() returns (trace: seq<State>, users: seq<map<UserId, User>>, steps: seq<Step>)
    ensures Execution(trace, users, steps)
    ensures var passed := Flight(SampleToken("r1", Refresh), Accepted);
            Racing(trace[|steps|], [passed, passed], false, {"a2", "r2", "a3", "r3"})
  {
    hide Enabled, Next, Racing, SAMPLE_USERS;
    var t := SampleToken("r1", Refresh);
    var unused := {"a2", "r2", "a3", "r3"};
    var login := Login("session", SampleToken("a1", Access), t);
    var present := PresentRefresh(t, true, 1, false);
    var presented := [Flight(t, Presented), Flight(t, Presented)];
    trace, users, steps := [State(Store(map[], map[], map[]), {}, {}, [])], [], [];
    RaceLogin(trace[0], login);
    trace, users, steps := OneMoreStep(trace, users, steps, SAMPLE_USERS, login);
    RacePresent(trace[|steps|], [], unused, present);
    trace, users, steps := OneMoreStep(trace, users, steps, SAMPLE_USERS, present);
    RacePresent(trace[|steps|], [] + [Flight(t, Presented)], unused, present);
    trace, users, steps := OneMoreStep(trace, users, steps, SAMPLE_USERS, present);
    assert [] + [Flight(t, Presented)] + [Flight(t, Presented)] == presented;
    RaceAccept(trace[|steps|], presented, unused, 0);
    trace, users, steps := OneMoreStep(trace, users, steps, SAMPLE_USERS, AcceptRefresh(0));
    RaceAccept(trace[|steps|], Advance(presented, 0, Accepted), unused, 1);
    trace, users, steps := OneMoreStep(trace, users, steps, SAMPLE_USERS, AcceptRefresh(1));
    assert Advance(Advance(presented, 0, Accepted), 1, Accepted) == [Flight(t, Accepted), Flight(t, Accepted)];
  }

  lemma {:induction false} RaceEnd(trace: seq<State>, users: seq<map<UserId, User>>, steps: seq<Step>)
    returns (longer: seq<State>, moreUsers: seq<map<UserId, User>>, more: seq<Step>)
    requires Execution(trace, users, steps)
    requires var passed := Flight(SampleToken("r1", Refresh), Accepted);
             Racing(trace[|steps|], [passed, passed], false, {"a2", "r2", "a3", "r3"})
    ensures Execution(longer, moreUsers, more)
    ensures var done := Flight(SampleToken("r1", Refresh), Done); longer[|more|].flights == [done, done]
  {
    hide Enabled, Next, Racing, SAMPLE_USERS;
    var t := SampleToken("r1", Refresh);
    var unused := {"a2", "r2", "a3", "r3"};
    var f0 := [Flight(t, Accepted), Flight(t, Accepted)];
    RaceRevoke(trace[|steps|], f0, false, unused, 0);
    longer, moreUsers, more := OneMoreStep(trace, users, steps, SAMPLE_USERS, RevokeOld(0, 2, true));
    var f1 := Advance(f0, 0, OldRevoked);
    RaceRevoke(longer[|more|], f1, true, unused, 1);
    longer, moreUsers, more := OneMoreStep(longer, moreUsers, more, SAMPLE_USERS, RevokeOld(1, 2, true));
    var f2 := Advance(f1, 1, OldRevoked);
    RaceIssue(longer[|more|], f2, unused, 0, "a2", "r2");
    longer, moreUsers, more :=
      OneMoreStep(longer, moreUsers, more, SAMPLE_USERS,
                  Issue(0, SampleToken("a2", Access), SampleToken("r2", Refresh)));
    var f3 := Advance(f2, 0, Done);
    RaceIssue(longer[|more|], f3, unused - {"a2", "r2"}, 1, "a3", "r3");
    longer, moreUsers, more :=
      OneMoreStep(longer, moreUsers, more, SAMPLE_USERS,
                  Issue(1, SampleToken("a3", Access), SampleToken("r3", Refresh)));
    FlightsOf(longer[|more|], Advance(f3, 1, Done), unused - {"a2", "r2"} - {"a3", "r3"});
  }

  lemma {:induction false} FlightsOf(s: State, flights: seq<Flight>, unused: set<Jti>)
    requires Racing(s, flights, true, unused)
    ensures s.flights == flights
  {
  }
}

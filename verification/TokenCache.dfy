/** What the blacklist does for a single revoked access token, over every run of the session machine. */
module TokenCache {
  import opened Options
  import opened Sessions
  import opened TokenLifecycle

  // The expiry time that a step writes to the blacklist for this token.
  function Listing(s: State, step: Step, jti: Jti): Option<Time> {
    match step
    case RevokeOld(i, now, up) =>
      if up && i < |s.flights| && s.flights[i].token.jti == jti then Some(now + ACCESS_TTL) else None
    case RevokeOneToken(j, now, ttl, up) => if up && j == jti then Some(now + ttl) else None
    case _ => None
  }

  // A step that writes or drops the entry of this token.
  predicate Touches(s: State, step: Step, jti: Jti) {
    step == Forget(jti) || Listing(s, step, jti).Some?
  }

  // The entry of a token is the last one written for it, unless it was dropped since.
  ghost predicate LiveListing(trace: seq<State>, steps: seq<Step>, n: nat, jti: Jti, now: Time)
    requires |trace| == |steps| + 1 && n < |trace|
  {
    exists i :: 0 <= i < n && ListedAt(trace, steps, i, n, jti, now)
  }

  ghost predicate ListedAt(trace: seq<State>, steps: seq<Step>, i: nat, n: nat, jti: Jti, now: Time)
    requires |trace| == |steps| + 1 && i < n < |trace|
  {
    && Listing(trace[i], steps[i], jti).Some? && now < Listing(trace[i], steps[i], jti).value
    && forall k :: i < k < n ==> !Touches(trace[k], steps[k], jti)
  }

  lemma {:induction false} EntryAfter(s: State, users: map<UserId, User>, step: Step, jti: Jti)
    requires Enabled(s, users, step)
    ensures var after := Next(s, users, step).store.blacklist;
            var written := Listing(s, step, jti);
            if written.Some? then jti in after && after[jti] == written.value
            else if step == Forget(jti) then jti !in after
            else (jti in after <==> jti in s.store.blacklist)
                 && (jti in after ==> after[jti] == s.store.blacklist[jti])
  {
    hide RefreshRefusal, SessionAlive, MarkRevoked;
  }

  lemma {:induction false} BlacklistIsListing(trace: seq<State>, users: seq<map<UserId, User>>, steps: seq<Step>,
                                              n: nat, jti: Jti, now: Time)
    requires Execution(trace, users, steps) && n < |trace|
    ensures IsBlacklisted(trace[n].store, jti, now, true) <==> LiveListing(trace, steps, n, jti, now)
  {
    hide Enabled, Next, Listing;
    if n > 0 {
      BlacklistIsListing(trace, users, steps, n - 1, jti, now);
      EntryAfter(trace[n - 1], users[n - 1], steps[n - 1], jti);
      ListingExtends(trace, steps, n, jti, now);
    }
  }

  lemma {:induction false} ListedBefore(trace: seq<State>, steps: seq<Step>, i: nat, n: nat, jti: Jti, now: Time)
    requires |trace| == |steps| + 1 && i < n < |trace| && ListedAt(trace, steps, i, n, jti, now)
    ensures i < n - 1 ==> LiveListing(trace, steps, n - 1, jti, now)
  {
    hide Listing, Touches;
    if i < n - 1 { assert ListedAt(trace, steps, i, n - 1, jti, now); }
  }

  lemma {:induction false} ListingExtends(trace: seq<State>, steps: seq<Step>, n: nat, jti: Jti, now: Time)
    requires |trace| == |steps| + 1 && 0 < n < |trace|
    ensures LiveListing(trace, steps, n, jti, now)
       <==> if Touches(trace[n - 1], steps[n - 1], jti)
            then Listing(trace[n - 1], steps[n - 1], jti).Some? && now < Listing(trace[n - 1], steps[n - 1], jti).value
            else LiveListing(trace, steps, n - 1, jti, now)
  {
    hide Listing;
    if Touches(trace[n - 1], steps[n - 1], jti) {
      if Listing(trace[n - 1], steps[n - 1], jti).Some? && now < Listing(trace[n - 1], steps[n - 1], jti).value {
        assert ListedAt(trace, steps, n - 1, n, jti, now);
      }
    } else if LiveListing(trace, steps, n - 1, jti, now) {
      var i :| 0 <= i < n - 1 && ListedAt(trace, steps, i, n - 1, jti, now);
      assert ListedAt(trace, steps, i, n, jti, now);
    } else if LiveListing(trace, steps, n, jti, now) {
      var i :| 0 <= i < n && ListedAt(trace, steps, i, n, jti, now);
      ListedBefore(trace, steps, i, n, jti, now);
    }
  }

  // An issued access token that has not expired and whose session lives is turned away by the cache exactly when
  // Redis answers and the last entry written for the token is still there and has not run out.
  lemma {:induction false} RevokedAccessToken(trace: seq<State>, users: seq<map<UserId, User>>, steps: seq<Step>,
                                              n: nat, t: Token, now: Time, redisUp: bool, usersNow: map<UserId, User>)
    requires Execution(trace, users, steps) && n < |trace|
    requires t in trace[n].issued && t.kind == Access && now < t.expiresAt
    ensures !Enabled(trace[n], usersNow, PresentAccess(t, now, redisUp))
       <==> redisUp && LiveListing(trace, steps, n, t.jti, now)
    ensures SessionAlive(trace[n].store, t.sessionId) && t.userId in usersNow && usersNow[t.userId].active ==>
              (AccessRefusal(trace[n].store, usersNow, t, now, redisUp).Some?
               <==> redisUp && LiveListing(trace, steps, n, t.jti, now))
  {
    BlacklistIsListing(trace, users, steps, n, t.jti, now);
  }

  // An entry that outlasts the token never runs out first: one written for an access token by its own revocation.
  lemma {:induction false} OwnListingOutlasts(trace: seq<State>, steps: seq<Step>, i: nat, n: nat, t: Token, at: Time,
                                              now: Time)
    requires |trace| == |steps| + 1 && i < n < |trace|
    requires steps[i] == RevokeOneToken(t.jti, at, ACCESS_TTL, true) && t.issuedAt <= at
    requires t.expiresAt == t.issuedAt + ACCESS_TTL && now < t.expiresAt
    requires forall k :: i < k < n ==> !Touches(trace[k], steps[k], t.jti)
    ensures LiveListing(trace, steps, n, t.jti, now)
  {
    assert ListedAt(trace, steps, i, n, t.jti, now);
  }
}

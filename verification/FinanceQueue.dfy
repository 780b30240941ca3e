/**
 The per-user chain of finance syncs (`syncUserTransactionsForFinance`).  Each call waits for the promise that
 the map held for its user, runs, settles (fulfilled or rejected), and afterwards deletes the map entry if it
 is still its own.  Other calls may arrive between any two of these steps.
 */
module FinanceQueue {
  import opened Options

  type User = string

  datatype Phase = Waiting | Running | Settled | Finished

  // `previous` is the call whose promise was found in the map; None stands for a promise already fulfilled.
  datatype Call = Call(user: User, previous: Option<nat>, phase: Phase, failed: bool)

  datatype State = State(
    calls: seq<Call>,               // in call order
    financeSyncs: map<User, nat>,   // the call whose promise the map holds
    started: seq<nat>)              // calls in the order in which their bodies started

  datatype Step =
    | Arrive(user: User)
    | Start(call: nat)
    | Settle(call: nat, failed: bool)
    | Finish(call: nat)             // the clean-up after the run

  predicate HasSettled(s: State, call: nat) {
    call < |s.calls| && (s.calls[call].phase == Settled || s.calls[call].phase == Finished)
  }

  predicate Enabled(s: State, step: Step) {
    match step
    case Arrive(user) => true
    // A failed predecessor releases the call as well.
    case Start(c) =>
      && c < |s.calls| && s.calls[c].phase == Waiting
      && (s.calls[c].previous.Some? ==> HasSettled(s, s.calls[c].previous.value))
    case Settle(c, failed) => c < |s.calls| && s.calls[c].phase == Running
    case Finish(c) => c < |s.calls| && s.calls[c].phase == Settled
  }

  function Next(s: State, step: Step): State
    requires Enabled(s, step)
  {
    match step
    case Arrive(user) =>
      var previous := if user in s.financeSyncs then Some(s.financeSyncs[user]) else None;
      s.(calls := s.calls + [Call(user, previous, Waiting, false)], financeSyncs := s.financeSyncs[user := |s.calls|])
    case Start(c) => s.(calls := s.calls[c := s.calls[c].(phase := Running)], started := s.started + [c])
    case Settle(c, failed) => s.(calls := s.calls[c := s.calls[c].(phase := Settled, failed := failed)])
    case Finish(c) =>
      var user := s.calls[c].user;
      s.(calls := s.calls[c := s.calls[c].(phase := Finished)],
         financeSyncs := if user in s.financeSyncs && s.financeSyncs[user] == c then s.financeSyncs - {user}
                         else s.financeSyncs)
  }

  const INITIAL := State([], map[], [])

  ghost predicate Execution(trace: seq<State>, steps: seq<Step>) {
    && |trace| == |steps| + 1
    && trace[0] == INITIAL
    && forall i :: 0 <= i < |steps| ==> Enabled(trace[i], steps[i]) && trace[i + 1] == Next(trace[i], steps[i])
  }

  // ---------- The invariant ----------

  predicate SameUser(s: State, a: nat, b: nat)
    requires a < |s.calls| && b < |s.calls|
  {
    s.calls[a].user == s.calls[b].user
  }

  // Of two calls of one user, the earlier has settled once the later is released, and also when the later
  // one waits for nothing or for a call before it.
  ghost predicate PairInOrder(s: State, a: nat, b: nat)
    requires a < b < |s.calls|
  {
    (s.calls[b].phase != Waiting
     || s.calls[b].previous.None?
     || s.calls[b].previous.value < a)
    ==> HasSettled(s, a)
  }

  ghost predicate InOrder(s: State) {
    forall a, b :: 0 <= a < b < |s.calls| && SameUser(s, a, b) ==> PairInOrder(s, a, b)
  }

  ghost predicate PreviousIsEarlier(s: State) {
    forall b :: 0 <= b < |s.calls| && s.calls[b].previous.Some? ==>
      s.calls[b].previous.value < b && SameUser(s, s.calls[b].previous.value, b)
  }

  // The map holds the last call of each user, and a user absent from it has no unsettled call.
  ghost predicate MapHoldsLast(s: State) {
    && (forall u :: u in s.financeSyncs ==>
          && s.financeSyncs[u] < |s.calls| && s.calls[s.financeSyncs[u]].user == u
          && s.calls[s.financeSyncs[u]].phase != Finished)
    && (forall a :: 0 <= a < |s.calls| ==>
          var u := s.calls[a].user;
          if u in s.financeSyncs then a <= s.financeSyncs[u] else HasSettled(s, a))
  }

  // `started` lists exactly the released calls, in call order per user.
  ghost predicate StartsInOrder(s: State) {
    && (forall i :: 0 <= i < |s.started| ==> s.started[i] < |s.calls| && s.calls[s.started[i]].phase != Waiting)
    && (forall i, j :: 0 <= i < j < |s.started| && SameUser(s, s.started[i], s.started[j]) ==>
          s.started[i] < s.started[j])
  }

  ghost predicate Inv(s: State) {
    InOrder(s) && PreviousIsEarlier(s) && MapHoldsLast(s) && StartsInOrder(s)
  }

  // Once a call has settled it stays settled.
  lemma {:induction false} SettledStays(s: State, step: Step, c: nat)
    requires Enabled(s, step) && HasSettled(s, c)
    ensures HasSettled(Next(s, step), c)
  {
  }

  // All earlier calls of the user of a call that may start have settled.
  lemma {:induction false} PredecessorsSettled(s: State, a: nat, b: nat)
    requires Inv(s) && a < b < |s.calls| && SameUser(s, a, b)
    requires s.calls[b].previous.Some? ==> HasSettled(s, s.calls[b].previous.value)
    ensures HasSettled(s, a)
  {
    if s.calls[b].previous.Some? {
      var p := s.calls[b].previous.value;
      assert SameUser(s, p, b);
      if a < p { assert SameUser(s, a, p) && PairInOrder(s, a, p); }
      assert PairInOrder(s, a, b);
    }
  }

  lemma {:induction false} ArriveKeepsInv(s: State, step: Step)
    requires Inv(s) && step.Arrive?
    ensures Inv(Next(s, step))
  {
    var s' := Next(s, step);
    forall a, b | 0 <= a < b < |s'.calls| && SameUser(s', a, b)
      ensures PairInOrder(s', a, b)
    {
      if b < |s.calls| { assert SameUser(s, a, b) && PairInOrder(s, a, b); }
    }
    forall i, j | 0 <= i < j < |s'.started| && SameUser(s', s'.started[i], s'.started[j])
      ensures s'.started[i] < s'.started[j]
    {
      assert SameUser(s, s.started[i], s.started[j]);
    }
  }

  lemma {:induction false} StartKeepsOrder(s: State, step: Step)
    requires Inv(s) && step.Start? && Enabled(s, step)
    ensures InOrder(Next(s, step)) && PreviousIsEarlier(Next(s, step)) && MapHoldsLast(Next(s, step))
  {
    hide StartsInOrder;
    var s' := Next(s, step);
    forall a, b | 0 <= a < b < |s'.calls| && SameUser(s', a, b) ensures PairInOrder(s', a, b) {
      assert SameUser(s, a, b);
      assert PairInOrder(s, a, b);
      if b == step.call { PredecessorsSettled(s, a, b); }
    }
  }

  lemma {:induction false} StartKeepsStarts(s: State, step: Step)
    requires Inv(s) && step.Start? && Enabled(s, step)
    ensures StartsInOrder(Next(s, step))
  {
    hide PreviousIsEarlier, MapHoldsLast;
    var s' := Next(s, step);
    var c := step.call;
    // No later call of the user has started while c is waiting.
    forall d | c < d < |s.calls| && SameUser(s, c, d) ensures s.calls[d].phase == Waiting {
      assert PairInOrder(s, c, d);
    }
    forall i, j | 0 <= i < j < |s'.started| && SameUser(s', s'.started[i], s'.started[j])
      ensures s'.started[i] < s'.started[j]
    {
      assert SameUser(s, s'.started[i], s'.started[j]) && SameUser(s, s'.started[j], s'.started[i]);
    }
  }

  lemma {:induction false} StartKeepsInv(s: State, step: Step)
    requires Inv(s) && step.Start? && Enabled(s, step)
    ensures Inv(Next(s, step))
  {
    StartKeepsOrder(s, step);
    StartKeepsStarts(s, step);
  }

  lemma {:induction false} SettleKeepsOrder(s: State, step: Step)
    requires Inv(s) && (step.Settle? || step.Finish?) && Enabled(s, step)
    ensures var s' := Next(s, step);
            InOrder(s') && PreviousIsEarlier(s') && StartsInOrder(s')
  {
    var s' := Next(s, step);
    assert forall c :: 0 <= c < |s.calls| ==>
             s'.calls[c].user == s.calls[c].user && s'.calls[c].previous == s.calls[c].previous
             && (s'.calls[c].phase != Waiting <==> s.calls[c].phase != Waiting);
    forall a, b | 0 <= a < b < |s'.calls| && SameUser(s', a, b) ensures PairInOrder(s', a, b) {
      assert SameUser(s, a, b) && PairInOrder(s, a, b);
      if HasSettled(s, a) { SettledStays(s, step, a); }
    }
    forall b | 0 <= b < |s'.calls| && s'.calls[b].previous.Some?
      ensures s'.calls[b].previous.value < b && SameUser(s', s'.calls[b].previous.value, b)
    {
      assert SameUser(s, s.calls[b].previous.value, b);
    }
    forall i, j | 0 <= i < j < |s'.started| && SameUser(s', s'.started[i], s'.started[j])
      ensures s'.started[i] < s'.started[j]
    {
      assert SameUser(s, s.started[i], s.started[j]);
    }
  }

  lemma {:induction false} SettleKeepsMap(s: State, step: Step)
    requires Inv(s) && (step.Settle? || step.Finish?) && Enabled(s, step)
    ensures MapHoldsLast(Next(s, step))
  {
    var s' := Next(s, step);
    forall a | 0 <= a < |s'.calls|
      ensures var u := s'.calls[a].user;
              if u in s'.financeSyncs then a <= s'.financeSyncs[u] else HasSettled(s', a)
    {
      var u := s.calls[a].user;
      if u in s.financeSyncs && u !in s'.financeSyncs && a != step.call {
        assert SameUser(s, a, step.call) && PairInOrder(s, a, step.call);
        SettledStays(s, step, a);
      }
    }
  }

  lemma {:induction false} SettleKeepsInv(s: State, step: Step)
    requires Inv(s) && (step.Settle? || step.Finish?) && Enabled(s, step)
    ensures Inv(Next(s, step))
  {
    SettleKeepsOrder(s, step);
    SettleKeepsMap(s, step);
  }

  lemma {:induction false} Invariant(trace: seq<State>, steps: seq<Step>, n: nat)
    requires Execution(trace, steps) && n < |trace|
    ensures Inv(trace[n])
  {
    hide Inv;
    if n == 0 {
      InitialInv();
    } else {
      Invariant(trace, steps, n - 1);
      match steps[n - 1]
      case Arrive(_) => ArriveKeepsInv(trace[n - 1], steps[n - 1]);
      case Start(_) => StartKeepsInv(trace[n - 1], steps[n - 1]);
      case Settle(_, _) => SettleKeepsInv(trace[n - 1], steps[n - 1]);
      case Finish(_) => SettleKeepsInv(trace[n - 1], steps[n - 1]);
    }
  }

  lemma InitialInv()
    ensures Inv(INITIAL)
  {
  }

  lemma {:induction false} NotBothRunning(s: State, a: nat, b: nat)
    requires Inv(s) && a < b < |s.calls| && SameUser(s, a, b)
    ensures s.calls[b].phase != Waiting ==> s.calls[a].phase != Running
  {
  }

  lemma {:induction false} EntryUnfinished(s: State, u: User)
    requires Inv(s) && u in s.financeSyncs
    ensures s.financeSyncs[u] < |s.calls| && s.calls[s.financeSyncs[u]].phase != Finished
  {
  }

  // ---------- What callers may rely on ----------

  // At most one sync per user runs at any moment.
  lemma {:induction false} OneRunPerUser(trace: seq<State>, steps: seq<Step>, n: nat, a: nat, b: nat)
    requires Execution(trace, steps) && n < |trace| && a < |trace[n].calls| && b < |trace[n].calls|
    requires trace[n].calls[a].user == trace[n].calls[b].user
    requires trace[n].calls[a].phase == Running && trace[n].calls[b].phase == Running
    ensures a == b
  {
    hide Inv;
    Invariant(trace, steps, n);
    if a < b { NotBothRunning(trace[n], a, b); }
    if b < a { NotBothRunning(trace[n], b, a); }
  }

  // The syncs of one user start in call order, whether earlier ones succeed or fail.
  lemma {:induction false} RunsStartInCallOrder(trace: seq<State>, steps: seq<Step>, n: nat, i: nat, j: nat)
    requires Execution(trace, steps) && n < |trace| && i < j < |trace[n].started|
    ensures var s := trace[n];
            && s.started[i] < |s.calls| && s.started[j] < |s.calls|
            && (s.calls[s.started[i]].user == s.calls[s.started[j]].user ==> s.started[i] < s.started[j])
  {
    Invariant(trace, steps, n);
    assert SameUser(trace[n], trace[n].started[i], trace[n].started[j])
      <==> trace[n].calls[trace[n].started[i]].user == trace[n].calls[trace[n].started[j]].user;
  }

  // A waiting sync may start exactly when every earlier sync of its user is over or cleaning up, whatever its outcome.
  lemma {:induction false} StartsWhenEarlierSettled(trace: seq<State>, steps: seq<Step>, n: nat, b: nat)
    requires Execution(trace, steps) && n < |trace| && b < |trace[n].calls| && trace[n].calls[b].phase == Waiting
    ensures var calls := trace[n].calls;
            Enabled(trace[n], Start(b))
            <==> forall a :: 0 <= a < b && calls[a].user == calls[b].user ==> calls[a].phase in {Settled, Finished}
  {
    Invariant(trace, steps, n);
    var s := trace[n];
    if Enabled(s, Start(b)) {
      forall a | 0 <= a < b && s.calls[a].user == s.calls[b].user ensures s.calls[a].phase in {Settled, Finished} {
        assert SameUser(s, a, b);
        PredecessorsSettled(s, a, b);
      }
    }
    if s.calls[b].previous.Some? { assert SameUser(s, s.calls[b].previous.value, b); }
  }

  // A user absent from the map has no unsettled sync, so a new call may start at once.
  lemma {:induction false} AbsentMeansSettled(trace: seq<State>, steps: seq<Step>, n: nat, c: nat)
    requires Execution(trace, steps) && n < |trace| && c < |trace[n].calls|
    requires trace[n].calls[c].user !in trace[n].financeSyncs
    ensures HasSettled(trace[n], c)
  {
    Invariant(trace, steps, n);
  }

  // When every call is over, the map is empty: no entry is leaked.
  lemma {:induction false} MapEndsEmpty(trace: seq<State>, steps: seq<Step>, n: nat)
    requires Execution(trace, steps) && n < |trace|
    requires forall c :: 0 <= c < |trace[n].calls| ==> trace[n].calls[c].phase == Finished
    ensures trace[n].financeSyncs == map[]
  {
    hide Inv;
    Invariant(trace, steps, n);
    var s := trace[n];
    if s.financeSyncs.Keys != {} {
      var u :| u in s.financeSyncs.Keys;
      EntryUnfinished(s, u);
    }
  }

  // No call waits for ever: as long as some call is not over, some step other than an arrival is possible.
  lemma {:induction false} NeverStuck(trace: seq<State>, steps: seq<Step>, n: nat, c: nat) returns (step: Step)
    requires Execution(trace, steps) && n < |trace|
    requires c < |trace[n].calls| && trace[n].calls[c].phase != Finished
    ensures Enabled(trace[n], step) && !step.Arrive?
  {
    Invariant(trace, steps, n);
    step := Unblocked(trace[n], c);
  }

  lemma {:induction false} Unblocked(s: State, c: nat) returns (step: Step)
    requires Inv(s) && c < |s.calls| && s.calls[c].phase != Finished
    ensures Enabled(s, step) && !step.Arrive?
    decreases c
  {
    match s.calls[c].phase
    case Running => step := Settle(c, false);
    case Settled => step := Finish(c);
    case Waiting =>
      if s.calls[c].previous.Some? && !HasSettled(s, s.calls[c].previous.value) {
        step := Unblocked(s, s.calls[c].previous.value);
      } else {
        step := Start(c);
      }
  }
}

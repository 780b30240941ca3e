/**
 The synchronised window of a bank account (`syncTransactionsForAccount`): the instants
 [earliestSyncedAt, lastSyncedAt) that the account claims to have downloaded.
 */
module SyncWindow {
  import opened Options

  // Milliseconds.
  type Time = int

  const COOLDOWN: int := 60 * 60 * 1000

  // The current instant together with 1 January, 00:00 UTC, of its year.
  datatype ClockReading = ClockReading(now: Time, yearStart: Time)
  type Clock = c: ClockReading | c.yearStart <= c.now witness ClockReading(0, 0)

  datatype Window = Window(from: Time, to: Time)

  // The two boundary columns of an account row.
  datatype Boundaries = Boundaries(last: Option<Time>, earliest: Option<Time>)

  datatype Request = Request(start: Option<Time>, force: bool, reuseRecent: bool)

  // ---------- One run ----------

  predicate ForwardIsFresh(b: Boundaries, r: Request, now: Time) {
    r.reuseRecent && !r.force && b.last.Some? && 0 <= now - b.last.value < COOLDOWN
  }

  predicate NeedsBackfill(b: Boundaries, r: Request) {
    r.start.Some? && (b.earliest.None? || r.start.value < b.earliest.value)
  }

  predicate NothingToDo(b: Boundaries, r: Request, now: Time) {
    ForwardIsFresh(b, r, now) && !NeedsBackfill(b, r)
  }

  function ForwardStart(b: Boundaries, r: Request, clock: Clock): Time {
    if b.last.None? || r.force then clock.yearStart else b.last.value
  }

  function ForwardFetch(b: Boundaries, r: Request, clock: Clock): seq<Window> {
    if !ForwardIsFresh(b, r, clock.now) && ForwardStart(b, r, clock) < clock.now
    then [Window(ForwardStart(b, r, clock), clock.now)] else []
  }

  function BackfillFetch(b: Boundaries, r: Request, clock: Clock): seq<Window> {
    if NeedsBackfill(b, r)
    then [Window(r.start.value, if b.earliest.Some? then b.earliest.value else ForwardStart(b, r, clock))] else []
  }

  // The downloads a run asks for, in order.
  function Fetches(b: Boundaries, r: Request, clock: Clock): seq<Window> {
    ForwardFetch(b, r, clock) + BackfillFetch(b, r, clock)
  }

  // The boundaries a run writes when every download succeeds.
  function NewBoundaries(b: Boundaries, r: Request, clock: Clock): Boundaries {
    Boundaries(
      if ForwardIsFresh(b, r, clock.now) then b.last else Some(clock.now),
      if r.start.Some? then
        if b.earliest.Some? then Some(if r.start.value < b.earliest.value then r.start.value else b.earliest.value)
        else r.start
      else if b.earliest.Some? then b.earliest
      else Some(ForwardStart(b, r, clock)))
  }

  // ---------- What a run should download and claim, on instants ----------

  ghost predicate Downloaded(t: Time, fetched: seq<Window>) {
    exists w :: w in fetched && w.from <= t < w.to
  }

  // A normal run that may reuse data less than an hour old.
  predicate Recent(b: Boundaries, r: Request, now: Time) {
    r.reuseRecent && !r.force && b.last.Some? && b.last.value <= now < b.last.value + 60 * 60 * 1000
  }

  // A run that is not recent asks for the year so far when it is forced or the first, and otherwise for what followed
  // the last one.  A requested start before the window adds all that lies between it and the window, or between it and
  // the newer part when there is no window yet.
  predicate AsksFor(t: Time, b: Boundaries, r: Request, clock: Clock) {
    var fromJanuary := r.force || b.last.None?;
    || AsksForward(t, b, r, clock)
    || (r.start.Some? && r.start.value <= t
        && if b.earliest.Some? then t < b.earliest.value
           else if fromJanuary then t < clock.yearStart else t < b.last.value)
  }

  predicate AsksForward(t: Time, b: Boundaries, r: Request, clock: Clock) {
    !Recent(b, r, clock.now) && t < clock.now
    && if r.force || b.last.None? then clock.yearStart <= t else b.last.value <= t
  }

  // A run that is not recent moves the end of the window to now.  The window starts at the earliest of its old start
  // and the requested one, and without either where a run without a request would start.
  predicate IsNewWindow(next: Boundaries, b: Boundaries, r: Request, clock: Clock) {
    && next.last == (if Recent(b, r, clock.now) then b.last else Some(clock.now))
    && next.earliest.Some?
    && (r.start.Some? ==> next.earliest.value <= r.start.value)
    && (b.earliest.Some? ==> next.earliest.value <= b.earliest.value)
    && (next.earliest == r.start || next.earliest == b.earliest || (r.start.None? && b.earliest.None?))
    && (r.start.None? && b.earliest.None? && (r.force || b.last.None?) ==> next.earliest.value == clock.yearStart)
    && (r.start.None? && b.earliest.None? && !r.force && b.last.Some? ==> next.earliest == b.last)
  }

  // The windows that a run fetches hold exactly the instants that it should ask for.
  lemma {:induction false} FetchesAskedFor(b: Boundaries, r: Request, clock: Clock, t: Time)
    ensures Downloaded(t, Fetches(b, r, clock)) <==> AsksFor(t, b, r, clock)
    ensures Downloaded(t, ForwardFetch(b, r, clock)) <==> AsksForward(t, b, r, clock)
    ensures IsNewWindow(NewBoundaries(b, r, clock), b, r, clock)
  {
    var forward, backfill := ForwardFetch(b, r, clock), BackfillFetch(b, r, clock);
    DownloadedEither(t, forward, backfill);
    if forward != [] { assert forward[0] in forward; }
    if backfill != [] { assert backfill[0] in backfill; }
  }

  lemma {:induction false} RunDownloads(fetched: seq<Window>, b: Boundaries, r: Request, clock: Clock)
    ensures forall t :: Downloaded(t, fetched + Fetches(b, r, clock))
                   <==> Downloaded(t, fetched) || AsksFor(t, b, r, clock)
    ensures forall t :: Downloaded(t, fetched + ForwardFetch(b, r, clock))
                   <==> Downloaded(t, fetched) || AsksForward(t, b, r, clock)
    ensures IsNewWindow(NewBoundaries(b, r, clock), b, r, clock)
  {
    hide Downloaded, Fetches, ForwardFetch, NewBoundaries, AsksFor, AsksForward, IsNewWindow;
    FetchesAskedFor(b, r, clock, clock.now);
    forall t
      ensures Downloaded(t, fetched + Fetches(b, r, clock)) <==> Downloaded(t, fetched) || AsksFor(t, b, r, clock)
      ensures Downloaded(t, fetched + ForwardFetch(b, r, clock))
         <==> Downloaded(t, fetched) || AsksForward(t, b, r, clock)
    {
      DownloadedEither(t, fetched, Fetches(b, r, clock));
      DownloadedEither(t, fetched, ForwardFetch(b, r, clock));
      FetchesAskedFor(b, r, clock, t);
    }
  }

  lemma {:induction false} DownloadedEither(t: Time, a: seq<Window>, b: seq<Window>)
    ensures Downloaded(t, a + b) <==> Downloaded(t, a) || Downloaded(t, b)
  {
    if Downloaded(t, a) {
      var w :| w in a && w.from <= t < w.to;
      assert w in a + b;
    }
    if Downloaded(t, b) {
      var w :| w in b && w.from <= t < w.to;
      assert w in a + b;
    }
  }

  // A first run downloads the year so far, and claims it.
  lemma {:induction false} FirstRun(clock: Clock, t: Time)
    ensures var b, r := Boundaries(None, None), Request(None, false, true);
            && (Downloaded(t, Fetches(b, r, clock)) <==> clock.yearStart <= t < clock.now)
            && NewBoundaries(b, r, clock) == Boundaries(Some(clock.now), Some(clock.yearStart))
  {
    FetchesAskedFor(Boundaries(None, None), Request(None, false, true), clock, t);
  }

  // ---------- The method ----------

  // The entity object a run works on.
  class AccountEntity {
    var boundaries: Boundaries

    constructor (b: Boundaries)
      ensures boundaries == b
    {
      boundaries := b;
    }
  }

  // The stored row, and the windows downloaded and stored so far.
  class AccountStore {
    var row: Boundaries
    var fetched: seq<Window>

    constructor (b: Boundaries)
      ensures row == b && fetched == []
    {
      row, fetched := b, [];
    }
  }

  datatype SyncOutcome = Skipped | Synced | Threw

  // `forwardOk` and `backfillOk` say whether the two downloads succeed; the entity may be out of date.
  method SyncTransactionsForAccount(account: AccountEntity, store: AccountStore, r: Request, clock: Clock,
                                    forwardOk: bool, backfillOk: bool)
    returns (outcome: SyncOutcome)
    modifies account, store
    ensures outcome.Skipped? <==> NothingToDo(old(account.boundaries), r, clock.now)
    // Boundaries move only when every download of the run has succeeded.
    ensures !outcome.Synced? ==> account.boundaries == old(account.boundaries) && store.row == old(store.row)
    ensures outcome.Synced? ==>
              && account.boundaries == store.row == NewBoundaries(old(account.boundaries), r, clock)
              && store.fetched == old(store.fetched) + Fetches(old(account.boundaries), r, clock)
    ensures outcome.Skipped? ==> store.fetched == old(store.fetched)
    ensures outcome.Threw? ==>
              store.fetched == old(store.fetched)
                               + (if forwardOk then ForwardFetch(old(account.boundaries), r, clock) else [])
    ensures outcome.Threw? <==>
              && !NothingToDo(old(account.boundaries), r, clock.now)
              && ((!forwardOk && ForwardFetch(old(account.boundaries), r, clock) != [])
                  || (!backfillOk && BackfillFetch(old(account.boundaries), r, clock) != []))
    // On instants: when there is nothing to do, what is downloaded anew, and the boundaries that are written.
    ensures outcome.Skipped? <==>
              && Recent(old(account.boundaries), r, clock.now)
              && (r.start.Some? ==> old(account.boundaries).earliest.Some?
                                    && old(account.boundaries).earliest.value <= r.start.value)
    ensures outcome.Threw? ==>
              forall t :: Downloaded(t, store.fetched)
                     <==> Downloaded(t, old(store.fetched))
                          || (forwardOk && AsksForward(t, old(account.boundaries), r, clock))
    ensures outcome.Synced? ==>
              && (forall t :: Downloaded(t, store.fetched)
                   <==> Downloaded(t, old(store.fetched)) || AsksFor(t, old(account.boundaries), r, clock))
              && IsNewWindow(store.row, old(account.boundaries), r, clock)
  {
    hide AsksFor, AsksForward, IsNewWindow, Downloaded;
    var b := account.boundaries;
    RunDownloads(store.fetched, b, r, clock);
    var forwardIsFresh := ForwardIsFresh(b, r, clock.now);
    if forwardIsFresh && !NeedsBackfill(b, r) { return Skipped; }
    var forwardStart := if b.last.None? || r.force then clock.yearStart else b.last.value;
    if !forwardIsFresh && forwardStart < clock.now {
      if !forwardOk { return Threw; }
      store.fetched := store.fetched + [Window(forwardStart, clock.now)];
    }
    if r.start.Some? && (b.earliest.None? || r.start.value < b.earliest.value) {
      var backfillEnd := if b.earliest.Some? then b.earliest.value else forwardStart;
      if !backfillOk { return Threw; }
      store.fetched := store.fetched + [Window(r.start.value, backfillEnd)];
    }
    var newEarliest :=
      if r.start.Some? then
        if b.earliest.Some? && b.earliest.value <= r.start.value then b.earliest.value else r.start.value
      else if b.earliest.Some? then b.earliest.value else forwardStart;
    store.row := Boundaries(if forwardIsFresh then b.last else Some(clock.now), Some(newEarliest));
    account.boundaries := Boundaries(if forwardIsFresh then b.last else Some(clock.now), Some(newEarliest));
    outcome := Synced;
  }

  // ---------- Coverage ----------

  // Everything the window claims has been downloaded.
  ghost predicate Covered(b: Boundaries, fetched: seq<Window>) {
    b.last.Some? && b.earliest.Some? ==>
      forall t :: b.earliest.value <= t < b.last.value ==> Downloaded(t, fetched)
  }

  // The boundaries are set together.
  predicate WellFormed(b: Boundaries) {
    b.earliest.Some? ==> b.last.Some?
  }

  // A forced run restarts at 1 January.  It leaves a hole when both boundaries lie before that.
  predicate LeavesGap(b: Boundaries, r: Request, clock: Clock) {
    r.force && b.last.Some? && b.earliest.Some? && b.last.value < clock.yearStart && b.earliest.value < clock.yearStart
  }

  lemma {:induction false} DownloadedMore(t: Time, fetched: seq<Window>, more: seq<Window>)
    requires Downloaded(t, fetched)
    ensures Downloaded(t, fetched + more) && Downloaded(t, more + fetched)
  {
  }

  lemma {:induction false} CoveredMore(b: Boundaries, fetched: seq<Window>, more: seq<Window>)
    requires Covered(b, fetched)
    ensures Covered(b, fetched + more)
  {
    if b.last.Some? && b.earliest.Some? {
      forall t | b.earliest.value <= t < b.last.value ensures Downloaded(t, fetched + more) {
        DownloadedMore(t, fetched, more);
      }
    }
  }

  // A run whose snapshot is covered writes a covered window.
  lemma {:induction false} RunCovers(b: Boundaries, r: Request, clock: Clock, fetched: seq<Window>)
    requires WellFormed(b) && Covered(b, fetched)
    requires !NothingToDo(b, r, clock.now) && !LeavesGap(b, r, clock)
    ensures Covered(NewBoundaries(b, r, clock), fetched + Fetches(b, r, clock))
    ensures WellFormed(NewBoundaries(b, r, clock))
  {
    var next, all := NewBoundaries(b, r, clock), fetched + Fetches(b, r, clock);
    forall t | next.earliest.value <= t < next.last.value ensures Downloaded(t, all) {
      if NeedsBackfill(b, r) && t < BackfillFetch(b, r, clock)[0].to {
        assert BackfillFetch(b, r, clock)[0] in all;
      } else if b.earliest.Some? && b.earliest.value <= t < b.last.value {
        DownloadedMore(t, fetched, Fetches(b, r, clock));
      } else {
        assert ForwardFetch(b, r, clock)[0] in all;
      }
    }
  }

  // The exact condition: when the account has downloaded nothing but its window, a run leaves a hole if and
  // only if it is forced and both boundaries lie before 1 January of the current year.
  lemma {:induction false} GapCondition(b: Boundaries, r: Request, clock: Clock, fetched: seq<Window>)
    requires WellFormed(b) && Covered(b, fetched) && !NothingToDo(b, r, clock.now)
    requires forall t :: Downloaded(t, fetched) ==> b.earliest.Some? && b.earliest.value <= t < b.last.value
    ensures Covered(NewBoundaries(b, r, clock), fetched + Fetches(b, r, clock)) <==> !LeavesGap(b, r, clock)
  {
    if !LeavesGap(b, r, clock) {
      RunCovers(b, r, clock, fetched);
    } else {
      var t := if b.last.value < b.earliest.value then b.earliest.value else b.last.value;
      var all := fetched + Fetches(b, r, clock);
      forall w | w in all ensures !(w.from <= t < w.to) {
        if w in fetched {
          if w.from <= t < w.to { assert Downloaded(t, fetched); }
        } else {
          assert w in Fetches(b, r, clock);
        }
      }
      assert !Downloaded(t, all);
      var next := NewBoundaries(b, r, clock);
      assert next.earliest.value <= t < next.last.value;
    }
  }

  // 1 January 2025, 1 June 2025, 1 January 2026 and 1 June 2026, 00:00 UTC.
  const JANUARY_2025: Time := 1735689600000
  const JUNE_2025: Time := 1748736000000
  const JANUARY_2026: Time := 1767225600000
  const JUNE_2026: Time := 1780272000000

  // A forced refresh in the year after the last one: the second half of 2025 is claimed but was never downloaded.
  lemma GapExample()
    ensures var b, r := Boundaries(Some(JUNE_2025), Some(JANUARY_2025)), Request(None, true, false);
            var clock, fetched := ClockReading(JUNE_2026, JANUARY_2026), [Window(JANUARY_2025, JUNE_2025)];
            && Covered(b, fetched)
            && NewBoundaries(b, r, clock) == Boundaries(Some(JUNE_2026), Some(JANUARY_2025))
            && !Covered(NewBoundaries(b, r, clock), fetched + Fetches(b, r, clock))
  {
    var b, r := Boundaries(Some(JUNE_2025), Some(JANUARY_2025)), Request(None, true, false);
    var clock, fetched := ClockReading(JUNE_2026, JANUARY_2026), [Window(JANUARY_2025, JUNE_2025)];
    forall t | JANUARY_2025 <= t < JUNE_2025 ensures Downloaded(t, fetched) { assert fetched[0] in fetched; }
    var all := fetched + Fetches(b, r, clock);
    assert all == [Window(JANUARY_2025, JUNE_2025), Window(JANUARY_2026, JUNE_2026)];
    assert !Downloaded(JUNE_2025, all);
  }
}

/** Interleaved runs on one account, each working on an entity that may be out of date. */
module SyncInterleaving {
  import opened Options
  import opened SyncWindow

  // A run in progress: what it read, and how many of its downloads have succeeded.
  datatype SyncRun = SyncRun(snapshot: Boundaries, request: Request, clock: Clock, done: nat)

  datatype State = State(
    row: Boundaries,                // the stored row
    written: seq<Boundaries>,       // every pair of boundaries ever written to it
    entities: seq<Boundaries>,      // the entity objects in memory, as loaded or as left by a finished run
    fetched: seq<Window>,
    runs: seq<SyncRun>)

  datatype Step =
    | Load
    | Begin(entity: nat, request: Request, clock: Clock)
    | FetchOk(run: nat)
    | FetchThrows(run: nat)
    | Write(run: nat)

  function Planned(run: SyncRun): seq<Window> {
    Fetches(run.snapshot, run.request, run.clock)
  }

  function Target(run: SyncRun): Boundaries {
    NewBoundaries(run.snapshot, run.request, run.clock)
  }

  ghost predicate Initial(s: State) {
    s == State(Boundaries(None, None), [], [], [], [])
  }

  predicate Enabled(s: State, step: Step) {
    match step
    case Load => true
    case Begin(e, request, clock) => e < |s.entities| && !NothingToDo(s.entities[e], request, clock.now)
    case FetchOk(i) => i < |s.runs| && s.runs[i].done < |Planned(s.runs[i])|
    case FetchThrows(i) => i < |s.runs| && s.runs[i].done < |Planned(s.runs[i])|
    case Write(i) => i < |s.runs| && s.runs[i].done == |Planned(s.runs[i])|
  }

  function Without<T>(s: seq<T>, i: nat): seq<T>
    requires i < |s|
  {
    s[..i] + s[i + 1..]
  }

  function Next(s: State, step: Step): State
    requires Enabled(s, step)
  {
    match step
    case Load => s.(entities := s.entities + [s.row])
    case Begin(e, request, clock) => s.(runs := s.runs + [SyncRun(s.entities[e], request, clock, 0)])
    case FetchOk(i) =>
      var run := s.runs[i];
      s.(fetched := s.fetched + [Planned(run)[run.done]], runs := s.runs[i := run.(done := run.done + 1)])
    case FetchThrows(i) => s.(runs := Without(s.runs, i))
    case Write(i) =>
      var b := Target(s.runs[i]);
      s.(row := b, written := s.written + [b], entities := s.entities + [b], runs := Without(s.runs, i))
  }

  ghost predicate Execution(trace: seq<State>, steps: seq<Step>) {
    && |trace| == |steps| + 1
    && Initial(trace[0])
    && forall i :: 0 <= i < |steps| ==> Enabled(trace[i], steps[i]) && trace[i + 1] == Next(trace[i], steps[i])
  }

  // No run restarts a forced import after both boundaries have fallen behind 1 January.
  ghost predicate NoStaleForce(trace: seq<State>, steps: seq<Step>)
    requires |trace| == |steps| + 1
  {
    forall i :: 0 <= i < |steps| && steps[i].Begin? && steps[i].entity < |trace[i].entities| ==>
      !LeavesGap(trace[i].entities[steps[i].entity], steps[i].request, steps[i].clock)
  }

  // The downloads a run still owes complete its window.
  ghost predicate RunIsSound(run: SyncRun, fetched: seq<Window>) {
    && run.done <= |Planned(run)|
    && WellFormed(Target(run))
    && Covered(Target(run), fetched + Planned(run)[run.done..])
  }

  ghost predicate Good(b: Boundaries, fetched: seq<Window>) {
    WellFormed(b) && Covered(b, fetched)
  }

  ghost predicate Inv(s: State) {
    && Good(s.row, s.fetched)
    && (forall i :: 0 <= i < |s.written| ==> Good(s.written[i], s.fetched))
    && (forall i :: 0 <= i < |s.entities| ==> Good(s.entities[i], s.fetched))
    && (forall i :: 0 <= i < |s.runs| ==> RunIsSound(s.runs[i], s.fetched))
  }

  lemma {:induction false} GoodMore(b: Boundaries, fetched: seq<Window>, w: Window)
    requires Good(b, fetched)
    ensures Good(b, fetched + [w])
  {
    CoveredMore(b, fetched, [w]);
  }

  lemma {:induction false} SoundMore(run: SyncRun, fetched: seq<Window>, w: Window)
    requires RunIsSound(run, fetched)
    ensures RunIsSound(run, fetched + [w])
  {
    var rest := Planned(run)[run.done..];
    var b := Target(run);
    if b.last.Some? && b.earliest.Some? {
      forall t | b.earliest.value <= t < b.last.value ensures Downloaded(t, fetched + [w] + rest) {
        assert Downloaded(t, fetched + rest);
        var x :| x in fetched + rest && x.from <= t < x.to;
        assert x in fetched + [w] + rest;
      }
    }
  }

  lemma {:induction false} BeginIsSound(s: State, step: Step)
    requires Inv(s) && step.Begin? && Enabled(s, step)
    requires !LeavesGap(s.entities[step.entity], step.request, step.clock)
    ensures RunIsSound(SyncRun(s.entities[step.entity], step.request, step.clock, 0), s.fetched)
  {
    var run := SyncRun(s.entities[step.entity], step.request, step.clock, 0);
    RunCovers(run.snapshot, run.request, run.clock, s.fetched);
    assert Planned(run)[0..] == Planned(run);
  }

  lemma {:induction false} FetchKeepsInv(s: State, step: Step)
    requires Inv(s) && step.FetchOk? && Enabled(s, step)
    ensures Inv(Next(s, step))
  {
    hide Covered, WellFormed, Fetches, NewBoundaries;
    var run := s.runs[step.run];
    var w := Planned(run)[run.done];
    var s' := Next(s, step);
    GoodMore(s.row, s.fetched, w);
    forall i | 0 <= i < |s.written| ensures Good(s.written[i], s'.fetched) { GoodMore(s.written[i], s.fetched, w); }
    forall i | 0 <= i < |s.entities| ensures Good(s.entities[i], s'.fetched) { GoodMore(s.entities[i], s.fetched, w); }
    forall i | 0 <= i < |s.runs| ensures RunIsSound(s'.runs[i], s'.fetched) {
      if i == step.run {
        assert s.fetched + Planned(run)[run.done..] == s'.fetched + Planned(run)[run.done + 1..];
      } else {
        SoundMore(s.runs[i], s.fetched, w);
      }
    }
  }

  lemma {:induction false} WriteIsGood(s: State, step: Step)
    requires Inv(s) && step.Write? && Enabled(s, step)
    ensures Good(Target(s.runs[step.run]), s.fetched)
  {
    var run := s.runs[step.run];
    assert s.fetched + Planned(run)[run.done..] == s.fetched;
  }

  lemma {:induction false} StepKeepsInv(s: State, step: Step)
    requires Inv(s) && Enabled(s, step)
    requires step.Begin? ==> !LeavesGap(s.entities[step.entity], step.request, step.clock)
    ensures Inv(Next(s, step))
  {
    hide RunIsSound, Good, LeavesGap, NothingToDo;
    match step
    case Load =>
    case Begin(e, request, clock) => BeginIsSound(s, step);
    case FetchOk(i) => FetchKeepsInv(s, step);
    case FetchThrows(i) =>
    case Write(i) => WriteIsGood(s, step);
  }

  // In every interleaving, every window ever written to the row lies inside what has been downloaded.
  lemma {:induction false} WrittenWindowsAreDownloaded(trace: seq<State>, steps: seq<Step>, n: nat)
    requires Execution(trace, steps) && NoStaleForce(trace, steps) && n < |trace|
    ensures Inv(trace[n])
    ensures Covered(trace[n].row, trace[n].fetched)
    ensures forall i :: 0 <= i < |trace[n].written| ==> Covered(trace[n].written[i], trace[n].fetched)
  {
    if n > 0 {
      WrittenWindowsAreDownloaded(trace, steps, n - 1);
      StepKeepsInv(trace[n - 1], steps[n - 1]);
    }
  }

  // ---------- A run that nothing interrupts ----------

  lemma {:induction false} OneMore(trace: seq<State>, steps: seq<Step>, step: Step)
    returns (longer: seq<State>, more: seq<Step>)
    requires Execution(trace, steps) && Enabled(trace[|steps|], step)
    ensures Execution(longer, more) && |more| == |steps| + 1 && longer[|more|] == Next(trace[|steps|], step)
  {
    hide Enabled, Next, Initial;
    longer, more := trace + [Next(trace[|steps|], step)], steps + [step];
  }

  // The first m downloads of a run succeed.
  lemma {:induction false} FetchSome(trace: seq<State>, steps: seq<Step>, i: nat, m: nat)
    returns (longer: seq<State>, more: seq<Step>)
    requires Execution(trace, steps) && i < |trace[|steps|].runs|
    requires trace[|steps|].runs[i].done == 0 && m <= |Planned(trace[|steps|].runs[i])|
    ensures Execution(longer, more)
    ensures var s, run := trace[|steps|], trace[|steps|].runs[i];
            longer[|more|] == s.(fetched := s.fetched + Planned(run)[..m], runs := s.runs[i := run.(done := m)])
    decreases m
  {
    hide Fetches, NothingToDo;
    var s, run := trace[|steps|], trace[|steps|].runs[i];
    if m == 0 {
      longer, more := trace, steps;
      assert s.fetched + Planned(run)[..0] == s.fetched;
    } else {
      longer, more := FetchSome(trace, steps, i, m - 1);
      longer, more := OneMore(longer, more, FetchOk(i));
      assert s.fetched + Planned(run)[..m - 1] + [Planned(run)[m - 1]] == s.fetched + Planned(run)[..m];
    }
  }

  // At any time a run may begin on the stored row, and when nothing interrupts it, it downloads and writes what the
  // method does.
  lemma {:induction false} RunAlone(trace: seq<State>, steps: seq<Step>, r: Request, clock: Clock)
    returns (longer: seq<State>, more: seq<Step>)
    requires Execution(trace, steps) && !NothingToDo(trace[|steps|].row, r, clock.now)
    ensures Execution(longer, more)
    ensures var before, after := trace[|steps|], longer[|more|];
            && after.row == NewBoundaries(before.row, r, clock)
            && after.fetched == before.fetched + Fetches(before.row, r, clock)
            && after.written == before.written + [after.row]
            && after.entities == before.entities + [before.row, after.row]
            && after.runs == before.runs
  {
    hide Fetches, NewBoundaries, NothingToDo;
    var s := trace[|steps|];
    longer, more := OneMore(trace, steps, Load);
    longer, more := OneMore(longer, more, Begin(|s.entities|, r, clock));
    longer, more := FetchSome(longer, more, |s.runs|, |Fetches(s.row, r, clock)|);
    longer, more := OneMore(longer, more, Write(|s.runs|));
    assert Fetches(s.row, r, clock)[..|Fetches(s.row, r, clock)|] == Fetches(s.row, r, clock);
  }

  // A run whose download number m throws keeps what it downloaded before, writes nothing, and is over.
  lemma {:induction false} RunThrows(trace: seq<State>, steps: seq<Step>, r: Request, clock: Clock, m: nat)
    returns (longer: seq<State>, more: seq<Step>)
    requires Execution(trace, steps) && !NothingToDo(trace[|steps|].row, r, clock.now)
    requires m < |Fetches(trace[|steps|].row, r, clock)|
    ensures Execution(longer, more)
    ensures var before, after := trace[|steps|], longer[|more|];
            && after.row == before.row && after.written == before.written && after.runs == before.runs
            && after.fetched == before.fetched + Fetches(before.row, r, clock)[..m]
  {
    hide Fetches, NewBoundaries, NothingToDo;
    var s := trace[|steps|];
    longer, more := OneMore(trace, steps, Load);
    longer, more := OneMore(longer, more, Begin(|s.entities|, r, clock));
    longer, more := FetchSome(longer, more, |s.runs|, m);
    longer, more := OneMore(longer, more, FetchThrows(|s.runs|));
  }
}

/** The refresh cooldown shown to users (`buildTransactionSyncCooldown`). */
module Cooldown {
  import opened Integers
  import opened Options
  import opened SyncWindow

  const COOLDOWN_SECONDS: int := 3600

  // `Invalid` is a stored value that is no date.
  datatype LastSync = Never | Invalid | At(time: Time)

  datatype Timing = Timing(next: Option<Time>, remainingSeconds: int, isActive: bool)

  datatype Summary = Summary(next: Option<Time>, remainingSeconds: int, isActive: bool, accounts: seq<Timing>)

  // Seconds, rounded up.
  function CeilSeconds(ms: int): int {
    -((-ms) / 1000)
  }

  function TimingOf(last: LastSync, now: Time): Timing {
    if last.At? && last.time <= now then
      var next := last.time + COOLDOWN_SECONDS * 1000;
      var remaining := Max(0, CeilSeconds(next - now));
      Timing(Some(next), remaining, remaining > 0)
    else Timing(None, 0, false)
  }

  function Timings(lasts: seq<LastSync>, now: Time): (timings: seq<Timing>)
    ensures |timings| == |lasts|
  {
    seq(|lasts|, i requires 0 <= i < |lasts| => TimingOf(lasts[i], now))
  }

  // Of two equally early accounts the later one is kept.
  function Earliest(timings: seq<Timing>): Timing
    requires timings != [] && forall i :: 0 <= i < |timings| ==> timings[i].next.Some?
  {
    if |timings| == 1 then timings[0]
    else
      var a, b := Earliest(timings[..|timings| - 1]), timings[|timings| - 1];
      if b.next.Some? && a.next.Some? && a.next.value < b.next.value then a else b
  }

  predicate AllValid(timings: seq<Timing>) {
    timings != [] && forall i :: 0 <= i < |timings| ==> timings[i].next.Some?
  }

  function BuildCooldown(lasts: seq<LastSync>, now: Time): Summary {
    var timings := Timings(lasts, now);
    var earliest := if AllValid(timings) then Some(Earliest(timings)) else None;
    Summary(
      if earliest.Some? then earliest.value.next else None,
      if earliest.Some? then earliest.value.remainingSeconds else 0,
      timings != [] && forall i :: 0 <= i < |timings| ==> timings[i].isActive,
      timings)
  }

  function BoundariesOf(last: LastSync, earliest: Option<Time>): Boundaries {
    Boundaries(if last.At? then Some(last.time) else None, earliest)
  }

  // The display agrees with the sync: an account is shown as cooling down exactly when a normal sync that
  // may reuse recent data would count it as fresh.
  lemma {:induction false} ActiveIffFresh(last: LastSync, earliest: Option<Time>, start: Option<Time>, now: Time)
    ensures TimingOf(last, now).isActive
       <==> ForwardIsFresh(BoundariesOf(last, earliest), Request(start, false, true), now)
    ensures 0 <= TimingOf(last, now).remainingSeconds <= COOLDOWN_SECONDS
    ensures TimingOf(last, now).isActive <==> TimingOf(last, now).remainingSeconds > 0
  {
  }

  // The reduction returns one of the timings, and none is earlier.
  lemma {:induction false} EarliestIsLeast(timings: seq<Timing>)
    requires AllValid(timings)
    ensures Earliest(timings) in timings
    ensures forall i :: 0 <= i < |timings| ==>
              Earliest(timings).next.Some? && Earliest(timings).next.value <= timings[i].next.value
  {
    if |timings| > 1 {
      EarliestIsLeast(timings[..|timings| - 1]);
    }
  }

  // The summary counts down to the first account that may be refreshed: its remaining time is the least of all
  // when every account has a valid last sync, and 0 otherwise; and it is active exactly while that is positive.
  lemma {:induction false} SummaryIsMinimum(lasts: seq<LastSync>, now: Time)
    ensures var s := BuildCooldown(lasts, now);
            && (s.isActive <==> s.remainingSeconds > 0)
            && 0 <= s.remainingSeconds <= COOLDOWN_SECONDS
            && (AllValid(s.accounts) ==>
                  && (exists i :: 0 <= i < |s.accounts| && s.accounts[i].remainingSeconds == s.remainingSeconds)
                  && (forall i :: 0 <= i < |s.accounts| ==> s.remainingSeconds <= s.accounts[i].remainingSeconds))
            && (!AllValid(s.accounts) ==> s.remainingSeconds == 0)
  {
    var timings := Timings(lasts, now);
    forall i | 0 <= i < |lasts|
      ensures 0 <= timings[i].remainingSeconds <= COOLDOWN_SECONDS
      ensures timings[i].isActive <==> timings[i].remainingSeconds > 0
    {
      ActiveIffFresh(lasts[i], None, None, now);
    }
    if AllValid(timings) {
      EarliestIsLeast(timings);
      var e := Earliest(timings);
      var k :| 0 <= k < |timings| && timings[k] == e;
      forall i | 0 <= i < |timings| ensures e.remainingSeconds <= timings[i].remainingSeconds {
        assert e.next.value <= timings[i].next.value;
      }
    }
  }

  // The instant of the last sync, when it is known and not in the future.
  predicate SyncedAt(last: LastSync, now: Time, t: Time) {
    last == At(t) && t <= now
  }

  // One account: it may be refreshed an hour after its last sync, the seconds shown are the fewest whole seconds that
  // reach that instant, and it is active until then.  An account without a known sync is not active.
  lemma {:induction false} TimingIs(last: LastSync, now: Time)
    ensures forall t :: SyncedAt(last, now, t) ==>
              var timing := TimingOf(last, now);
              && timing.next == Some(t + 3600 * 1000) && (timing.isActive <==> now < t + 3600 * 1000)
              && (if timing.isActive
                  then timing.remainingSeconds * 1000 - 1000 < t + 3600 * 1000 - now <= timing.remainingSeconds * 1000
                  else timing.remainingSeconds == 0)
    ensures (forall t :: !SyncedAt(last, now, t)) ==> TimingOf(last, now) == Timing(None, 0, false)
  {
    if last.At? && last.time <= now { assert SyncedAt(last, now, last.time); }
  }

  // The summary in terms of the last syncs: it names the earliest instant at which an account may be refreshed when all
  // are known, and it is active while all accounts are.
  lemma {:induction false} SummaryIs(lasts: seq<LastSync>, now: Time)
    ensures var s := BuildCooldown(lasts, now);
            && s.accounts == Timings(lasts, now)
            && (s.next.Some? <==> lasts != [] && forall i :: 0 <= i < |lasts| ==> lasts[i].At? && lasts[i].time <= now)
            && (s.next.Some? ==>
                  && (exists i :: 0 <= i < |lasts| && lasts[i] == At(s.next.value - 3600 * 1000))
                  && (forall i :: 0 <= i < |lasts| ==> lasts[i].At? && s.next.value <= lasts[i].time + 3600 * 1000))
            && (s.isActive
                <==> && lasts != []
                     && forall i :: 0 <= i < |lasts| ==>
                          lasts[i].At? && lasts[i].time <= now < lasts[i].time + 3600 * 1000)
  {
    var timings := Timings(lasts, now);
    if AllValid(timings) {
      EarliestIsLeast(timings);
      var k :| 0 <= k < |timings| && timings[k] == Earliest(timings);
      assert lasts[k] == At(Earliest(timings).next.value - 3600 * 1000);
      assert forall i :: 0 <= i < |lasts| ==> timings[i].next.Some?;
    } else if lasts != [] {
      var k :| 0 <= k < |timings| && timings[k].next.None?;
      assert !(lasts[k].At? && lasts[k].time <= now);
    }
    assert forall i :: 0 <= i < |lasts| ==> timings[i] == TimingOf(lasts[i], now);
  }
}

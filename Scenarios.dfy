/** Runs of the decision loop under sustained idleness, sustained busyness and a
    client coming online, including the 1/5/30/15-minute schedules worked out on concrete timers. */
module Scenarios {
  import opened Config
  import opened Decision

  /** n ticks without clients, classified idle, with the gate open. */
  function IdleTicks(n: nat): (s: seq<TickInput>)
    ensures |s| == n && forall k :: 0 <= k < n ==> s[k] == TickInput(false, true, true)
  {
    seq(n, _ => TickInput(false, true, true))
  }

  /** n ticks without clients, classified busy, with the gate open. */
  function BusyTicks(n: nat): (s: seq<TickInput>)
    ensures |s| == n && forall k :: 0 <= k < n ==> s[k] == TickInput(false, false, true)
  {
    seq(n, _ => TickInput(false, false, true))
  }

  /** Under continuous idleness the idle streak grows by one check interval per tick
      while the busy marker follows the clock, and nothing fires before the streak
      reaches `suspendAfter`. */
  lemma {:induction false} IdleStreak(t: Timers, start: int, n: nat)
    requires 0 < t.checkIfIdleEvery < t.resetMonitoringAfter
    requires n * t.checkIfIdleEvery < t.suspendAfter
    ensures var r := Run(t, start, IdleTicks(n));
            var now := start + n * t.checkIfIdleEvery;
            r.markers == Markers(now, start, now) && SuspendTimes(r.outcomes) == [] &&
            forall k :: 0 <= k < |r.outcomes| ==> !BusyReset(r.outcomes[k])
  {
    var c := t.checkIfIdleEvery;
    if n > 0 {
      assert IdleTicks(n)[..n - 1] == IdleTicks(n - 1);
      assert (n - 1) * c + c == n * c;
      IdleStreak(t, start, n - 1);
    }
  }

  /** The first tick at which the idle streak reaches `suspendAfter` suspends the
      machine, once, and leaves both markers at that tick's time. */
  lemma IdleSuspendsWhenStreakReached(t: Timers, start: int, n: nat)
    requires 0 < t.checkIfIdleEvery < t.resetMonitoringAfter
    requires 0 < n && (n - 1) * t.checkIfIdleEvery < t.suspendAfter <= n * t.checkIfIdleEvery
    ensures var r := Run(t, start, IdleTicks(n));
            var now := start + n * t.checkIfIdleEvery;
            r.markers == Markers(now, now, now) && SuspendTimes(r.outcomes) == [now]
  {
    var c := t.checkIfIdleEvery;
    assert IdleTicks(n)[..n - 1] == IdleTicks(n - 1);
    assert (n - 1) * c + c == n * c;
    IdleStreak(t, start, n - 1);
    var before := Run(t, start, IdleTicks(n - 1));
    var last := Step(t, before.markers, TickInput(false, true, true));
    assert last.outcome.Checked? && last.outcome.suspended && last.outcome.at == start + n * c;
  }

  /** Under continuous busyness the busy streak grows by one check interval per tick
      while the idle marker follows the clock, so nothing fires before the busy
      streak reaches `resetMonitoringAfter`. */
  lemma {:induction false} BusyStreak(t: Timers, start: int, n: nat)
    requires 0 < t.checkIfIdleEvery < t.suspendAfter
    requires n * t.checkIfIdleEvery < t.resetMonitoringAfter
    ensures var r := Run(t, start, BusyTicks(n));
            var now := start + n * t.checkIfIdleEvery;
            r.markers == Markers(now, now, start) && SuspendTimes(r.outcomes) == [] &&
            forall k :: 0 <= k < |r.outcomes| ==> !BusyReset(r.outcomes[k])
  {
    var c := t.checkIfIdleEvery;
    if n > 0 {
      assert BusyTicks(n)[..n - 1] == BusyTicks(n - 1);
      assert (n - 1) * c + c == n * c;
      BusyStreak(t, start, n - 1);
    }
  }

  /** The timers of the worked examples: check every minute, cool down for five,
      reset after thirty busy minutes, suspend after fifteen idle minutes. */
  function ExampleTimers(): (t: Timers)
  {
    Timers(1, 5, 30, 15)
  }

  /** Fifteen idle ticks from time 0: suspend fires exactly once, at tick 15, and
      both markers are reset to that time. */
  lemma FifteenIdleTicksSuspendOnce()
    ensures var r := Run(ExampleTimers(), 0, IdleTicks(15));
            SuspendTimes(r.outcomes) == [15] && r.markers == Markers(15, 15, 15)
  {
    IdleSuspendsWhenStreakReached(ExampleTimers(), 0, 15);
  }

  /** Ten idle ticks, a client online at tick 11, one idle tick after: nothing
      suspends, the cooldown leaves both markers at minute 16, and tick 12 measures
      one idle minute rather than eleven. */
  lemma CooldownRestartsIdleStreak()
    ensures var ticks := IdleTicks(10) + [TickInput(true, true, true), TickInput(false, true, true)];
            var r := Run(ExampleTimers(), 0, ticks);
            |r.outcomes| == 12 && SuspendTimes(r.outcomes) == [] &&
            r.outcomes[10] == Cooldown(16) &&
            r.outcomes[11] == Checked(17, 1, 1, false, false)
  {
    var t := ExampleTimers();
    var online := TickInput(true, true, true);
    var idle := TickInput(false, true, true);
    var ticks := IdleTicks(10) + [online, idle];
    var first := ticks[..11];
    assert first == IdleTicks(10) + [online];
    assert first[..10] == IdleTicks(10);
    assert ticks[..|ticks| - 1] == first;
    IdleStreak(t, 0, 10);
    var r10 := Run(t, 0, IdleTicks(10));
    assert r10.markers == Markers(10, 0, 10);
    RunKeepsMarkersOk(t, 0, IdleTicks(10));
    var s11 := Step(t, r10.markers, online);
    assert s11 == TickResult(Markers(16, 16, 16), Cooldown(16));
    var r11 := Run(t, 0, first);
    assert r11 == RunResult(s11.markers, r10.outcomes + [s11.outcome]);
    var s12 := Step(t, r11.markers, idle);
    assert s12.outcome == Checked(17, 1, 1, false, false);
    assert Run(t, 0, ticks) == RunResult(s12.markers, r11.outcomes + [s12.outcome]);
  }

  /** Thirty busy ticks from time 0: the busy reset fires at tick 30 and never
      before, nothing suspends, and both markers end at minute 30. */
  lemma ThirtyBusyTicksReset()
    ensures var r := Run(ExampleTimers(), 0, BusyTicks(30));
            |r.outcomes| == 30 && SuspendTimes(r.outcomes) == [] &&
            BusyReset(r.outcomes[29]) && r.markers == Markers(30, 30, 30) &&
            forall k :: 0 <= k < 29 ==> !BusyReset(r.outcomes[k])
  {
    var t := ExampleTimers();
    assert BusyTicks(30)[..29] == BusyTicks(29);
    BusyStreak(t, 0, 29);
    RunKeepsMarkersOk(t, 0, BusyTicks(29));
  }
}

/** The idle/busy decision state machine of the monitoring loop, as pure functions:
    one tick (Step) and a finite run of ticks (Run), with the properties the loop keeps. */
module Decision {
  import opened Config

  /** What the loop learns from its collaborators during one tick: whether a watched
      client is online, the idle verdict, and whether the machine can be suspended. */
  datatype TickInput = TickInput(clientsOnline: bool, isIdle: bool, canBeSuspended: bool)

  /** The clock (in whole minutes) and the two streak markers of the loop. */
  datatype Markers = Markers(now: int, idleStart: int, notIdleStart: int)

  /** What one tick did: a cooldown that ended at `until`, or a check at time `at`
      with the busy and idle minutes it measured and the rules that fired. */
  datatype Outcome =
    | Cooldown(until: int)
    | Checked(at: int, busyMinutes: int, idleMinutes: int, busyReset: bool, suspended: bool)

  datatype TickResult = TickResult(markers: Markers, outcome: Outcome)

  datatype RunResult = RunResult(markers: Markers, outcomes: seq<Outcome>)

  /** Minutes that elapse when sleeping for `minutes`: a non-positive duration
      returns at once. */
  function Sleep(minutes: int): (d: nat)
    ensures d >= minutes && (d == minutes || d == 0)
  {
    if minutes > 0 then minutes else 0
  }

  /** Both markers lie in the past and at least one of them is the current time. */
  predicate MarkersOk(m: Markers)
  {
    m.idleStart <= m.now && m.notIdleStart <= m.now &&
    (m.idleStart == m.now || m.notIdleStart == m.now)
  }

  /** The state the loop starts from: both markers taken at the start time. */
  function Init(start: int): (m: Markers)
  {
    Markers(start, start, start)
  }

  predicate Suspended(o: Outcome)
  {
    o.Checked? && o.suspended
  }

  predicate BusyReset(o: Outcome)
  {
    o.Checked? && o.busyReset
  }

  /** One iteration of the monitoring loop. */
  function Step(t: Timers, m: Markers, input: TickInput): (r: TickResult)
  {
    var tick := m.now + Sleep(t.checkIfIdleEvery);
    if input.clientsOnline then
      var after := tick + Sleep(t.stopMonitoringFor);
      TickResult(Markers(after, after, after), Cooldown(after))
    else
      // both durations are taken before any marker moves
      var busyMinutes := tick - m.notIdleStart;
      var idleMinutes := tick - m.idleStart;
      var classified :=
        if input.isIdle then Markers(tick, m.idleStart, tick)
        else Markers(tick, tick, m.notIdleStart);
      var reset := input.canBeSuspended && busyMinutes >= t.resetMonitoringAfter;
      var suspend := input.canBeSuspended && idleMinutes >= t.suspendAfter;
      var afterReset := if reset then Markers(tick, tick, tick) else classified;
      var afterSuspend := if suspend then Markers(tick, tick, tick) else afterReset;
      TickResult(afterSuspend, Checked(tick, busyMinutes, idleMinutes, reset, suspend))
  }

  /** The loop run over a finite sequence of ticks, starting at time `start`. */
  function Run(t: Timers, start: int, ticks: seq<TickInput>): (r: RunResult)
  {
    if ticks == [] then RunResult(Init(start), [])
    else
      var before := Run(t, start, ticks[..|ticks| - 1]);
      var r := Step(t, before.markers, ticks[|ticks| - 1]);
      RunResult(r.markers, before.outcomes + [r.outcome])
  }

  /** The times at which the machine was asked to suspend, in order. */
  function SuspendTimes(outcomes: seq<Outcome>): (times: seq<int>)
  {
    if outcomes == [] then []
    else
      var last := outcomes[|outcomes| - 1];
      SuspendTimes(outcomes[..|outcomes| - 1]) + (if Suspended(last) then [last.at] else [])
  }

  // ---------------------------------------------------------------- one tick

  /** A client online wins: the loop waits out the cooldown, both markers become the
      time after it, and neither the idle verdict nor the gate is consulted. */
  lemma PresenceOverride(t: Timers, m: Markers, input: TickInput)
    requires input.clientsOnline
    ensures var after := m.now + Sleep(t.checkIfIdleEvery) + Sleep(t.stopMonitoringFor);
            Step(t, m, input) == TickResult(Markers(after, after, after), Cooldown(after))
    ensures forall isIdle: bool, gate: bool ::
              Step(t, m, TickInput(true, isIdle, gate)) == Step(t, m, input)
    ensures !Suspended(Step(t, m, input).outcome) && !BusyReset(Step(t, m, input).outcome)
  {
  }

  /** On a tick without clients, the busy and idle minutes are measured from the
      markers as they were before the tick, whatever the verdict and the gate. */
  lemma SnapshotBeforeUpdate(t: Timers, m: Markers, input: TickInput)
    requires !input.clientsOnline
    ensures var o := Step(t, m, input).outcome;
            o.Checked? && o.at == m.now + Sleep(t.checkIfIdleEvery) &&
            o.busyMinutes == o.at - m.notIdleStart && o.idleMinutes == o.at - m.idleStart
  {
  }

  /** The verdict resets the opposite marker to the tick time; the marker of the
      ongoing streak keeps its value unless a threshold rule reset it as well. */
  lemma ClassificationUpdate(t: Timers, m: Markers, input: TickInput)
    requires !input.clientsOnline
    ensures var r := Step(t, m, input);
            var tick := m.now + Sleep(t.checkIfIdleEvery);
            var rulesFired := BusyReset(r.outcome) || Suspended(r.outcome);
            r.markers.now == tick &&
            (input.isIdle ==>
               r.markers.notIdleStart == tick &&
               r.markers.idleStart == (if rulesFired then tick else m.idleStart)) &&
            (!input.isIdle ==>
               r.markers.idleStart == tick &&
               r.markers.notIdleStart == (if rulesFired then tick else m.notIdleStart))
  {
  }

  /** With the gate closed neither threshold rule fires: only the verdict moves a marker. */
  lemma GateClosed(t: Timers, m: Markers, input: TickInput)
    requires !input.clientsOnline && !input.canBeSuspended
    ensures var r := Step(t, m, input);
            var tick := m.now + Sleep(t.checkIfIdleEvery);
            !BusyReset(r.outcome) && !Suspended(r.outcome) &&
            r.markers == (if input.isIdle then Markers(tick, m.idleStart, tick)
                          else Markers(tick, tick, m.notIdleStart))
  {
  }

  /** The busy reset fires exactly when there is no client, the gate holds and the
      busy minutes measured before the tick reach `resetMonitoringAfter`; then both
      markers end at the tick time. */
  lemma BusyResetRule(t: Timers, m: Markers, input: TickInput)
    ensures var r := Step(t, m, input);
            var tick := m.now + Sleep(t.checkIfIdleEvery);
            (BusyReset(r.outcome) <==>
               !input.clientsOnline && input.canBeSuspended &&
               tick - m.notIdleStart >= t.resetMonitoringAfter) &&
            (BusyReset(r.outcome) ==> r.markers == Markers(tick, tick, tick))
  {
  }

  /** Suspend is invoked exactly when there is no client, the gate holds and the idle
      minutes measured before the tick reach `suspendAfter`; a busy reset in the same
      tick does not cancel it, and both markers end at the tick time. */
  lemma SuspendRule(t: Timers, m: Markers, input: TickInput)
    ensures var r := Step(t, m, input);
            var tick := m.now + Sleep(t.checkIfIdleEvery);
            (Suspended(r.outcome) <==>
               !input.clientsOnline && input.canBeSuspended &&
               tick - m.idleStart >= t.suspendAfter) &&
            (Suspended(r.outcome) ==> r.markers == Markers(tick, tick, tick))
  {
  }

  /** Every tick keeps the marker invariant and moves the clock forward by at least
      one check interval. */
  lemma StepKeepsMarkersOk(t: Timers, m: Markers, input: TickInput)
    requires MarkersOk(m)
    ensures MarkersOk(Step(t, m, input).markers)
    ensures Step(t, m, input).markers.now >= m.now + Sleep(t.checkIfIdleEvery)
  {
  }

  // ---------------------------------------------------------------- runs

  lemma InitMarkersOk(start: int)
    ensures MarkersOk(Init(start)) && Init(start).now == start
  {
  }

  /** After any number of ticks there is one outcome per tick, the clock has not gone
      back, and the marker invariant holds. */
  lemma {:induction false} RunKeepsMarkersOk(t: Timers, start: int, ticks: seq<TickInput>)
    ensures var r := Run(t, start, ticks);
            |r.outcomes| == |ticks| && MarkersOk(r.markers) && r.markers.now >= start
  {
    if ticks != [] {
      var before := Run(t, start, ticks[..|ticks| - 1]);
      RunKeepsMarkersOk(t, start, ticks[..|ticks| - 1]);
      StepKeepsMarkersOk(t, before.markers, ticks[|ticks| - 1]);
    }
  }

  /** The i-th outcome of a run is what the i-th tick does from the state the first
      i ticks left behind. */
  lemma {:induction false} RunOutcomeAt(t: Timers, start: int, ticks: seq<TickInput>, i: nat)
    requires i < |ticks|
    ensures |Run(t, start, ticks).outcomes| == |ticks|
    ensures Run(t, start, ticks).outcomes[i] ==
            Step(t, Run(t, start, ticks[..i]).markers, ticks[i]).outcome
  {
    var n := |ticks|;
    RunKeepsMarkersOk(t, start, ticks[..n - 1]);
    if i < n - 1 {
      RunOutcomeAt(t, start, ticks[..n - 1], i);
      assert ticks[..n - 1][..i] == ticks[..i];
    }
  }

  /** Across a whole run: the machine is asked to suspend at tick i exactly when no
      client was online, the gate held and the idle minutes measured at that tick
      from the markers the earlier ticks left reached `suspendAfter`. */
  lemma RunSuspendIff(t: Timers, start: int, ticks: seq<TickInput>, i: nat)
    requires i < |ticks|
    ensures |Run(t, start, ticks).outcomes| == |ticks|
    ensures var m := Run(t, start, ticks[..i]).markers;
            Suspended(Run(t, start, ticks).outcomes[i]) <==>
              !ticks[i].clientsOnline && ticks[i].canBeSuspended &&
              m.now + Sleep(t.checkIfIdleEvery) - m.idleStart >= t.suspendAfter
  {
    RunOutcomeAt(t, start, ticks, i);
    SuspendRule(t, Run(t, start, ticks[..i]).markers, ticks[i]);
  }

  /** The suspend log is empty exactly when no outcome requested a suspend. */
  lemma {:induction false} SuspendTimesNoSuspend(outcomes: seq<Outcome>)
    ensures SuspendTimes(outcomes) == [] <==> forall k :: 0 <= k < |outcomes| ==> !Suspended(outcomes[k])
  {
    if outcomes != [] {
      var n := |outcomes|;
      SuspendTimesNoSuspend(outcomes[..n - 1]);
      assert forall k :: 0 <= k < n - 1 ==> outcomes[..n - 1][k] == outcomes[k];
    }
  }

  /** The number of outcomes that requested a suspend. */
  function SuspendCount(outcomes: seq<Outcome>): (n: nat)
  {
    if outcomes == [] then 0
    else SuspendCount(outcomes[..|outcomes| - 1]) + (if Suspended(outcomes[|outcomes| - 1]) then 1 else 0)
  }

  /** The suspend log has one entry per suspending outcome. */
  lemma {:induction false} SuspendTimesLength(outcomes: seq<Outcome>)
    ensures |SuspendTimes(outcomes)| == SuspendCount(outcomes)
  {
    if outcomes != [] {
      SuspendTimesLength(outcomes[..|outcomes| - 1]);
    }
  }

  /** A suspending outcome k is logged, with its time, at the position given by the
      number of suspending outcomes before it, so the log keeps the order of the run. */
  lemma {:induction false} SuspendTimesAt(outcomes: seq<Outcome>, k: nat)
    requires k < |outcomes| && Suspended(outcomes[k])
    ensures SuspendCount(outcomes[..k]) < |SuspendTimes(outcomes)|
    ensures SuspendTimes(outcomes)[SuspendCount(outcomes[..k])] == outcomes[k].at
  {
    var n := |outcomes|;
    var init := outcomes[..n - 1];
    SuspendTimesLength(init);
    if k == n - 1 {
      assert outcomes[..k] == init;
    } else {
      SuspendTimesAt(init, k);
      assert init[..k] == outcomes[..k];
    }
  }

  /** Every entry of the suspend log is the time of a suspending outcome, the one
      preceded by as many suspending outcomes as the entry's position. */
  lemma {:induction false} SuspendTimesFrom(outcomes: seq<Outcome>, j: nat)
    requires j < |SuspendTimes(outcomes)|
    ensures exists k :: 0 <= k < |outcomes| && Suspended(outcomes[k]) &&
                        SuspendCount(outcomes[..k]) == j && outcomes[k].at == SuspendTimes(outcomes)[j]
  {
    var n := |outcomes|;
    var init := outcomes[..n - 1];
    SuspendTimesLength(init);
    if j < |SuspendTimes(init)| {
      SuspendTimesFrom(init, j);
      var k :| 0 <= k < |init| && Suspended(init[k]) &&
               SuspendCount(init[..k]) == j && init[k].at == SuspendTimes(init)[j];
      assert init[..k] == outcomes[..k];
    } else {
      assert outcomes[..n - 1] == init;
      assert SuspendCount(outcomes[..n - 1]) == j;
    }
  }
}

/** The manager object: its configuration setters and the monitoring loop. */
module Manager {
  import opened Config
  import opened Decision

  class Manager {
    var ipsToWatch: seq<string>         // a watched address that answers holds off the idle check
    var disksToMonitor: seq<DiskCfg>    // disk descriptors handed to the usage sampler
    var cpusToMonitor: seq<CpuCfg>      // cpu descriptors handed to the usage sampler
    var checkIfIdleEvery: int
    var stopMonitoringFor: int
    var resetMonitoringAfter: int
    var suspendAfter: int

    /** A manager with no watched clients or devices and the given default timers. */
    constructor (defaults: Timers)
      ensures ipsToWatch == [] && disksToMonitor == [] && cpusToMonitor == []
      ensures CurrentTimers() == defaults
    {
      ipsToWatch, disksToMonitor, cpusToMonitor := [], [], [];
      checkIfIdleEvery := defaults.checkIfIdleEvery;
      stopMonitoringFor := defaults.stopMonitoringFor;
      resetMonitoringAfter := defaults.resetMonitoringAfter;
      suspendAfter := defaults.suspendAfter;
    }

    /** The four timer fields as one value. */
    function CurrentTimers(): (t: Timers)
      reads this
    {
      Timers(checkIfIdleEvery, stopMonitoringFor, resetMonitoringAfter, suspendAfter)
    }

    /** Appends the given addresses, in order, after the ones already watched. */
    method SetIpsToWatch(ipToWatch: seq<string>)
      modifies this`ipsToWatch
      ensures ipsToWatch == old(ipsToWatch) + ipToWatch
    {
      for i := 0 to |ipToWatch|
        invariant ipsToWatch == old(ipsToWatch) + ipToWatch[..i]
      {
        ipsToWatch := ipsToWatch + [ipToWatch[i]];
      }
      assert ipToWatch[..|ipToWatch|] == ipToWatch;
    }

    /** Appends the given disks, in order, after the ones already monitored. */
    method SetDisksToMonitor(disks: seq<DiskCfg>)
      modifies this`disksToMonitor
      ensures disksToMonitor == old(disksToMonitor) + disks
    {
      for i := 0 to |disks|
        invariant disksToMonitor == old(disksToMonitor) + disks[..i]
      {
        disksToMonitor := disksToMonitor + [disks[i]];
      }
      assert disks[..|disks|] == disks;
    }

    /** Appends one cpu after the ones already monitored. */
    method SetCpusToMonitor(cpuConfig: CpuCfg)
      modifies this`cpusToMonitor
      ensures cpusToMonitor == old(cpusToMonitor) + [cpuConfig]
    {
      cpusToMonitor := cpusToMonitor + [cpuConfig];
    }

    /** Overwrites the four timers and nothing else. */
    method SetTimers(checkIdleEvery: int, stopMonitoring: int, resetMonitoring: int, suspend: int)
      modifies this`checkIfIdleEvery, this`stopMonitoringFor, this`resetMonitoringAfter, this`suspendAfter
      ensures CurrentTimers() == Timers(checkIdleEvery, stopMonitoring, resetMonitoring, suspend)
    {
      checkIfIdleEvery := checkIdleEvery;
      stopMonitoringFor := stopMonitoring;
      resetMonitoringAfter := resetMonitoring;
      suspendAfter := suspend;
    }

    /** The monitoring loop, run over a finite sequence of ticks starting at minute
        `start`. It returns the clock and markers it ends with and what each tick did;
        the suspend requests are SuspendTimes(outcomes). */
    method MonitorSystemUsage(start: int, ticks: seq<TickInput>)
      returns (markers: Markers, outcomes: seq<Outcome>)
      ensures RunResult(markers, outcomes) == Run(CurrentTimers(), start, ticks)
      ensures |outcomes| == |ticks| && MarkersOk(markers) && markers.now >= start
    {
      var now := start;
      var idleStartTime := now;
      var notIdleStartTime := now;
      outcomes := [];
      var i := 0;
      while i < |ticks|
        invariant 0 <= i <= |ticks|
        invariant Run(CurrentTimers(), start, ticks[..i]) ==
                  RunResult(Markers(now, idleStartTime, notIdleStartTime), outcomes)
      {
        var input := ticks[i];
        i := i + 1;
        assert ticks[..i][..i - 1] == ticks[..i - 1];

        now := now + Sleep(checkIfIdleEvery);

        if input.clientsOnline {
          now := now + Sleep(stopMonitoringFor);
          idleStartTime := now;
          notIdleStartTime := now;
          outcomes := outcomes + [Cooldown(now)];
          continue;
        }

        var busyMinutes := now - notIdleStartTime;
        var idleMinutes := now - idleStartTime;

        if input.isIdle {
          notIdleStartTime := now;
        } else {
          idleStartTime := now;
        }

        var reset, suspended := false, false;
        if input.canBeSuspended {
          if busyMinutes >= resetMonitoringAfter {
            reset := true;
            idleStartTime := now;
            notIdleStartTime := now;
          }
          if idleMinutes >= suspendAfter {
            suspended := true;
            idleStartTime := now;
            notIdleStartTime := now;
          }
        }
        outcomes := outcomes + [Checked(now, busyMinutes, idleMinutes, reset, suspended)];
      }
      assert ticks[..|ticks|] == ticks;
      markers := Markers(now, idleStartTime, notIdleStartTime);
      RunKeepsMarkersOk(CurrentTimers(), start, ticks);
    }
  }
}

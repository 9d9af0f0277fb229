# sspender: the idle/busy decision loop of `Manager`

sspender watches a machine's CPU, its disks and a list of network clients, and
suspends the machine once it has stayed idle long enough. This project models the
part of it that makes that decision: the `Manager` object, with its configuration
setters, and the loop `Manager::monitorSystemUsage`.

The loop keeps two time markers. `idleStartTime` is where the current idle streak
began. `notIdleStartTime` is where the current busy streak began. On every tick the
loop:

1. sleeps for `checkIfIdleEvery` minutes;
2. if a watched client is online, sleeps `stopMonitoringFor` more minutes, sets both
   markers to the time after that, and starts the next tick;
3. otherwise measures the busy and idle minutes from the markers as they are;
4. on an idle verdict resets the busy marker, and on a busy verdict the idle marker;
5. only if the machine can be suspended, applies two independent rules. Busy minutes
   at or above `resetMonitoringAfter` reset both markers. Idle minutes at or above
   `suspendAfter` request a suspend and reset both markers.

Files:

- `Config.dfy` (module `Config`): the disk and CPU descriptors and the four timers.
- `Decision.dfy` (module `Decision`): one tick as the function `Step`, and a finite
  run of ticks as `Run`. It also holds the one-tick properties (presence override,
  snapshot before update, classification, gate, the two threshold rules) and the
  run-level ones (the marker invariant, and when a suspend happens).
- `Scenarios.dfy` (module `Scenarios`): the general idle-streak and busy-streak
  lemmas, and the 1/5/30/15-minute schedules worked out on concrete timers.
- `Manager.dfy` (module `Manager`): the class `Manager`. It has the fields the C++
  class mutates and the setters. `MonitorSystemUsage` writes out the loop with the
  two markers as local variables, the way the C++ does, and is proved equal to
  `Decision.Run`.

Time is whole minutes held in an `int`. The start time of the loop is a parameter.
Each sleep advances the clock by its duration, or by nothing when the duration is
not positive (`std::this_thread::sleep_for` returns at once then). Elapsed minutes
are `now - marker`. The three collaborator answers of a tick are the fields of a
`TickInput`: client presence, the idle verdict and the suspend gate. Each call of
`suspendTheMachine` that returns is an outcome whose `suspended` flag is set.
`SuspendTimes(outcomes)` is the log of those calls.

## Model

| member | source | states |
|---|---|---|
| `Manager.Manager.constructor` | src/Manager.h:52-54 | a new manager watches no clients and no devices, and its four timers are the defaults it is built with |
| `Manager.Manager.SetIpsToWatch` | src/Manager.cpp:21-25 | the watched addresses become the old ones followed by the argument, in order; no other field changes |
| `Manager.Manager.SetDisksToMonitor` | src/Manager.cpp:27-31 | the monitored disks become the old ones followed by the argument, in order; no other field changes |
| `Manager.Manager.SetCpusToMonitor` | src/Manager.cpp:33 | the monitored cpus become the old ones followed by the one given; no other field changes |
| `Manager.Manager.SetTimers` | src/Manager.cpp:35-41 | the four timers take exactly the four values given; nothing else changes |
| `Manager.Manager.MonitorSystemUsage` | src/Manager.cpp:43-118 | the loop, run over a finite sequence of ticks, ends in the markers and per-tick outcomes of `Decision.Run`: one outcome per tick, the clock never before the start, and the marker invariant held |
| `Decision.PresenceOverride` | src/Manager.cpp:52-71 | with a client online, both markers become the time after the check sleep plus the cooldown sleep; the verdict and the gate do not matter; no busy reset and no suspend happen |
| `Decision.SnapshotBeforeUpdate` | src/Manager.cpp:75-78 | with no client online, the busy and idle minutes are the tick time minus the markers as they stood before the tick |
| `Decision.ClassificationUpdate` | src/Manager.cpp:80-90 | an idle tick sets the busy marker to the tick time, and a busy tick the idle marker; the other marker keeps its value unless a threshold rule fired; this holds whether or not the gate is open |
| `Decision.GateClosed` | src/Manager.cpp:94-116 | with the gate closed, neither the busy reset nor the suspend fires, and the verdict's reset is the only change to the markers |
| `Decision.BusyResetRule` | src/Manager.cpp:94-102 | the busy reset fires if and only if no client is online, the gate holds and the busy minutes measured before the tick reach `resetMonitoringAfter`; both markers are then the tick time |
| `Decision.SuspendRule` | src/Manager.cpp:94-115 | suspend is requested if and only if no client is online, the gate holds and the idle minutes measured before the tick reach `suspendAfter`; a busy reset in the same tick does not prevent it; both markers are then the tick time |
| `Decision.StepKeepsMarkersOk` | src/Manager.cpp:52-116 | a tick keeps both markers at or before the clock, with at least one equal to it, and moves the clock forward by at least the check interval |
| `Decision.InitMarkersOk` | src/Manager.cpp:47-48 | the loop starts with both markers at the start time, so the marker invariant holds before the first tick |
| `Decision.RunKeepsMarkersOk` | src/Manager.cpp:47-117 | after any number of ticks there is one outcome per tick, the clock is not before the start, and the marker invariant holds |
| `Decision.RunOutcomeAt` | src/Manager.cpp:50-117 | the i-th outcome of a run is what one tick does from the state left by the first i ticks |
| `Decision.RunSuspendIff` | src/Manager.cpp:56-115 | in a run, tick i requests a suspend if and only if no client was online, the gate held, and the idle minutes measured from the markers the earlier ticks left reached `suspendAfter` |
| `Decision.SuspendTimesNoSuspend` | src/Manager.cpp:111 | the suspend log is empty if and only if no outcome requested a suspend |
| `Decision.SuspendTimesLength` | src/Manager.cpp:105-111 | the suspend log has exactly as many entries as there are suspending outcomes |
| `Decision.SuspendTimesAt` | src/Manager.cpp:105-111 | each suspending outcome's time is in the log, at the position given by the number of suspending outcomes before it, so the log keeps run order |
| `Decision.SuspendTimesFrom` | src/Manager.cpp:105-111 | each entry of the log is the time of the suspending outcome preceded by as many suspending outcomes as the entry's position |
| `Scenarios.IdleStreak` | src/Manager.cpp:80-84 | on continuous idle ticks, with a positive check interval below `resetMonitoringAfter`, the idle marker stays at the start, the busy marker follows the clock, no busy reset fires, and nothing is suspended while the streak is below `suspendAfter` |
| `Scenarios.IdleSuspendsWhenStreakReached` | src/Manager.cpp:105-114 | the first idle tick whose streak reaches `suspendAfter` requests exactly one suspend, at that tick's time, and resets both markers to it |
| `Scenarios.BusyStreak` | src/Manager.cpp:85-102 | on continuous busy ticks, with a positive check interval below `suspendAfter`, the busy marker stays at the start and nothing fires while the busy streak is below `resetMonitoringAfter` |
| `Scenarios.FifteenIdleTicksSuspendOnce` | src/Manager.cpp:105-114 | with timers 1/5/30/15, fifteen idle ticks from minute 0 request one suspend, at minute 15, and leave both markers at 15 |
| `Scenarios.CooldownRestartsIdleStreak` | src/Manager.cpp:58-78 | with timers 1/5/30/15, ten idle ticks then a client online: nothing is suspended, the cooldown ends at minute 16, and the next idle tick measures one idle minute, not eleven |
| `Scenarios.ThirtyBusyTicksReset` | src/Manager.cpp:96-101 | with timers 1/5/30/15, thirty busy ticks: the busy reset fires at tick 30 and not before, nothing is suspended, and both markers end at 30 |

## Left out

- The endless `while (true)` is modelled as a run over a finite sequence of ticks. Every finite prefix of the real loop in which each suspend call returns is one such run.
- `Clock::now()` is a parameter `start` for the loop's first reading. Sleeps add their duration to an integer clock. Time spent in presence probing, logging or the suspend call is not modelled. Time the machine spends suspended, and any jump of `Clock`, is not modelled.
- Durations are whole minutes in unbounded integers. The elapsed minutes are not the `double` values of `getMinutesDuration`, and `int` overflow of the timers is not modelled.
- The `Monitor` collaborator is not part of this model: `areClientsConnected`, `isTheMachineIdle` and `canBeSuspended` are per-tick boolean inputs. Starting its sampling threads (src/Manager.cpp:45), `getTheMachineUsage` and `printTheMachineUsage` are left out.
- `suspendTheMachine` is a blocking sdbus call to `org.freedesktop.login1` with a 2-second timeout (src/Manager.cpp:134-140). The model covers only a call that returns: it is an outcome flag with no effect on the state, and the markers are then reset (src/Manager.cpp:113-114). A call that fails or times out throws `sdbus::Error`. Nothing in `monitorSystemUsage` or `main` catches it, so it leaves the loop and ends the process. That path is not modelled.
- Console output and `printHeaderMessage` are logging only and are left out.
- `src/sspender.cpp` (partition table, configuration parsing, printing) is not part of this model. Nothing the manager itself does checks that the timers are positive, so the model takes any `int`.
- `DiskCfg` and `CpuCfg` carry only the fields the shown files use (name, `suspendIfIdle`, `spinDown`). `Monitor.h` and `constants.h` are not part of this model, so the default timer values are a constructor parameter.
- The C++ fills the manager's vectors through setters before the loop starts, and the model keeps them as mutable fields.

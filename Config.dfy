/** Configuration values handed to the manager before monitoring starts. */
module Config {

  /** A disk whose usage is monitored: its device name, whether its idleness is
      required before suspending, and whether it is spun down when idle. */
  datatype DiskCfg = DiskCfg(diskName: string, suspendIfIdle: bool, spinDown: bool)

  /** The CPU that is monitored and whether its idleness is required before suspending. */
  datatype CpuCfg = CpuCfg(cpuName: string, suspendIfIdle: bool)

  /** The four tuning durations of the decision loop, in minutes, as the C++ `int`s
      they are: nothing in the manager itself checks that they are positive. */
  datatype Timers = Timers(
    checkIfIdleEvery: int,      // minutes slept before each tick
    stopMonitoringFor: int,     // extra minutes slept while a watched client is online
    resetMonitoringAfter: int,  // busy minutes after which both markers restart
    suspendAfter: int           // idle minutes after which a suspend is requested
  )
}

/**
 The GoodLinks lifecycle guard. Every `is_goodlinks_running()` probe is an
 answer of the process table at that moment, so the guard takes the two
 probes it may make as inputs: the one before deciding, and the one after
 launching.
 */
module Lifecycle {

  /** What `ensure_goodlinks_running` did: whether it reports the app ready, and whether it launched it. */
  datatype Guard = Guard(ready: bool, launched: bool)

  /**
   `ensure_goodlinks_running(launch_if_needed)`: ready at once, without a
   launch, when the app is running; otherwise launched exactly when
   launching is enabled, and then ready exactly when the probe after the
   launch finds it running; never ready without one of those two probes
   saying so.
   */
  function EnsureRunning(launchIfNeeded: bool, runningNow: bool, runningAfterLaunch: bool): (g: Guard)
    ensures runningNow ==> g == Guard(true, false)
    ensures g.launched <==> !runningNow && launchIfNeeded
    ensures g.ready <==> runningNow || (g.launched && runningAfterLaunch)
    ensures !runningNow && !launchIfNeeded ==> g == Guard(false, false)
  {
    if runningNow then Guard(true, false)
    else if launchIfNeeded then Guard(runningAfterLaunch, true)
    else Guard(false, false)
  }
}

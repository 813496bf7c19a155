/** Admission of pulses: no overlap, and a minimum interval between starts. */
module RelayPulseGuard {
  import opened Ticks
  import RuntimeModel

  class RelayPulseGuard {
    const minimumIntervalMs: Duration
    var lastStartedMs: Tick
    var hasStarted: bool
    var active: bool

    constructor (minimumIntervalMs: Duration)
      ensures this.minimumIntervalMs == minimumIntervalMs
      ensures View() == RuntimeModel.Guard(false, false, 0)
    {
      this.minimumIntervalMs := minimumIntervalMs;
      lastStartedMs, hasStarted, active := 0, false, false;
    }

    function View(): RuntimeModel.Guard
      reads this
    {
      RuntimeModel.Guard(active, hasStarted, lastStartedMs)
    }

    method CanStart(nowMs: Tick) returns (can: bool)
      ensures can == RuntimeModel.CanStart(View(), minimumIntervalMs, nowMs)
    {
      can := !active && (!hasStarted || (nowMs - lastStartedMs) % WRAP >= minimumIntervalMs);
    }

    method MarkStarted(nowMs: Tick)
      modifies this
      ensures View() == RuntimeModel.Guard(true, true, nowMs)
    {
      active, hasStarted, lastStartedMs := true, true, nowMs;
    }

    method MarkCompleted()
      modifies this
      ensures View() == old(View()).(active := false)
    {
      active := false;
    }
  }
}

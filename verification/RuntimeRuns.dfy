/** Runs of the owner task in unbounded time: consistency, pulse spacing, and sleeping. */
module RuntimeRuns {
  import opened Ticks
  import opened RuntimeModel
  import opened RuntimeInvariants
  import C = GateController
  import D = DecoderModel
  import E = DecoderEvaluation
  import R = DecoderRuns
  import AppConfigModel

  /** A step at a real instant; the owner task sees only its 32-bit tick. */
  datatype TimedStep = TimedStep(step: Step, at: int)

  ghost predicate Allowed(config: Config, step: Step) {
    Possible(config, step) && (step.Sampled? ==> |step.sample.levels| <= D.MAX_INPUTS)
  }

  ghost predicate AllAllowed(config: Config, run: seq<TimedStep>) {
    forall i | 0 <= i < |run| :: Allowed(config, run[i].step)
  }

  ghost function RunTask(config: Config, view: View, run: seq<TimedStep>): View
    requires Consistent(config, view) && AllAllowed(config, run)
    decreases |run|
  {
    if run == [] then view
    else
      NextKeeps(config, view, run[0].step, Wrap(run[0].at));
      RunTask(config, Next(config, view, run[0].step, Wrap(run[0].at)), run[1..])
  }

  lemma ProcessKeeps(config: Config, view: View, now: Tick)
    requires Consistent(config, view)
    ensures var after := ProcessExpired(config, view, now);
            && Consistent(config, after)
            && after.guard.hasStarted == view.guard.hasStarted && after.guard.lastStarted == view.guard.lastStarted
            && after.pulse.active == (view.pulse.active && !Due(view.pulse, now))
            && (after.pulse.active ==> after.pulse == view.pulse)
  {
    hide ExpireDecoder, ExpirePulse, ExpireOpening, ExpireClosing, ExpireStability, Due;
    hide Consistent;
    ConsistentIsShaped(config, view);
    var v1 := ExpireDecoder(config, view, now);
    ExpireDecoderKeeps(config, view, now);
    ExpirePulseKeeps(config, v1, now);
    var v2 := ExpirePulse(config, v1, now);
    ExpireOpeningKeeps(config, v2, now);
    var v3 := ExpireOpening(config, v2, now);
    ExpireClosingKeeps(config, v3, now);
    var v4 := ExpireClosing(config, v3, now);
    ExpireStabilityKeeps(config, v4, now);
  }

  lemma ConsistentIsShaped(config: Config, view: View)
    requires Consistent(config, view)
    ensures Shaped(config, view)
  {
  }

  lemma EventKeeps(config: Config, view: View, event: C.Event, now: Tick, activated: bool)
    requires Consistent(config, view)
    requires C.IsRequest(event) || (event.ObservationChanged? && config.decoder.None?)
    ensures Consistent(config, ApplyEvent(config, view, event, now, activated))
  {
    hide D.CompiledOk, D.StateShaped, Supervised, PulseCoupled, Unhealthy;
    EventKeepsSupervision(config, view, event, now, activated);
    EventKeepsPulse(config, view, event, now, activated);
    assert Supervised(view);
    RequestKeepsFault(config, view, event, now, activated);
  }

  lemma RequestKeepsFault(config: Config, view: View, event: C.Event, now: Tick, activated: bool)
    requires C.IsRequest(event) || event.ObservationChanged?
    ensures var after := ApplyEvent(config, view, event, now, activated);
            && after.snapshot.fault == view.snapshot.fault
            && after.snapshot.stableObservation == view.snapshot.stableObservation
            && after.machine == view.machine && after.published == view.published && after.generation == view.generation
            && (C.BlocksCommands(view.snapshot.fault) ==>
                  after.snapshot.state == view.snapshot.state && after.snapshot.movement == view.snapshot.movement)
            && (C.IsRequest(event) ==> after.snapshot.pendingObservation == view.snapshot.pendingObservation)
            && (C.IsRequest(event) ==> after.stability == view.stability || after.stability == view.stability.Stopped())
            && (C.IsRequest(event) && C.BlocksCommands(view.snapshot.fault) ==> after == view)
  {
    hide CanStart, Config.PulseMs, C.Supports;
  }

  lemma NextKeeps(config: Config, view: View, step: Step, now: Tick)
    requires Consistent(config, view) && Allowed(config, step)
    ensures Shaped(config, view) && Consistent(config, Next(config, view, step, now))
  {
    hide Consistent, ApplyEvent, ProcessExpired, ConsumeSample;
    ConsistentIsShaped(config, view);
    match step
    case Timers => ProcessKeeps(config, view, now);
    case Request(target, activated) => EventKeeps(config, view, C.TargetRequested(target), now, activated);
    case BenchPulse(activated) => EventKeeps(config, view, C.MaintenancePulseRequested(C.Target.Open), now, activated);
    case Observed(observation) => EventKeeps(config, view, C.ObservationChanged(observation), now, false);
    case Sampled(sample) => SampleKeeps(config, view, sample, now);
  }

  lemma BootIsConsistent(config: Config, observation: C.EndpointObservation, sample: FeedbackSample, now: Tick)
    requires config.Ok() && |sample.levels| <= D.MAX_INPUTS
    ensures Shaped(config, InitialView(config)) && Consistent(config, Booted(config, observation, sample, now))
  {
    hide D.CompiledOk, ConsumeSample;
    if config.decoder.Some? {
      SampleKeeps(config, ApplyEvent(config, InitialView(config), C.Boot(C.Between), now, false), sample, now);
    }
  }

  lemma {:induction false} EveryRunIsConsistent(config: Config, view: View, run: seq<TimedStep>)
    requires Consistent(config, view) && AllAllowed(config, run)
    ensures Consistent(config, RunTask(config, view, run))
    decreases |run|
  {
    hide Consistent, Next, Allowed;
    if run != [] {
      NextKeeps(config, view, run[0].step, Wrap(run[0].at));
      EveryRunIsConsistent(config, Next(config, view, run[0].step, Wrap(run[0].at)), run[1..]);
    }
  }

  /** Every state a run from power-up reaches: movements are supervised, the pulse story is one, and
      with a decoder the fault shown is exactly the one its last published result calls for. */
  lemma EveryRunFromPowerUp(config: Config, observation: C.EndpointObservation, sample: FeedbackSample, bootAt: Tick,
                            run: seq<TimedStep>)
    requires config.Ok() && |sample.levels| <= D.MAX_INPUTS && AllAllowed(config, run)
    ensures Shaped(config, InitialView(config))
    ensures var booted := Booted(config, observation, sample, bootAt);
            && Consistent(config, booted)
            && var end := RunTask(config, booted, run);
               && (end.snapshot.state.Opening? <==> end.opening.active)
               && (end.snapshot.state.Closing? <==> end.closing.active)
               && Agreeing(end.snapshot)
               && end.snapshot.pulseActive == end.guard.active == end.pulse.active
               && (config.decoder.Some? ==> (end.snapshot.fault.DecoderFault? <==> Unhealthy(end.published.health)))
  {
    hide D.CompiledOk, Next, Allowed, Booted;
    BootIsConsistent(config, observation, sample, bootAt);
    EveryRunIsConsistent(config, Booted(config, observation, sample, bootAt), run);
  }

  // ---- Pulses ----

  function RequestEvent(step: Step): D.Option<C.Event> {
    match step
    case Request(target, _) => D.Some(C.TargetRequested(target))
    case BenchPulse(_) => D.Some(C.MaintenancePulseRequested(C.Target.Open))
    case _ => D.None
  }

  predicate Starts(config: Config, view: View, step: Step, now: Tick) {
    RequestEvent(step).Some? && StartsPulse(config, view, RequestEvent(step).value, now, step.activated)
  }

  /** The instants at which a run starts pulses. */
  ghost function PulseStarts(config: Config, view: View, run: seq<TimedStep>): seq<int>
    requires Consistent(config, view) && AllAllowed(config, run)
    decreases |run|
  {
    if run == [] then []
    else
      NextKeeps(config, view, run[0].step, Wrap(run[0].at));
      (if Starts(config, view, run[0].step, Wrap(run[0].at)) then [run[0].at] else [])
      + PulseStarts(config, Next(config, view, run[0].step, Wrap(run[0].at)), run[1..])
  }

  /** A step starts a pulse only from standstill of the pulse machinery, with no blocking fault, and
      so with a decoder only on a healthy result; a step that starts none leaves the guard's memory. */
  lemma StepPulses(config: Config, view: View, step: Step, now: Tick)
    requires Consistent(config, view) && Allowed(config, step)
    ensures Shaped(config, view)
    ensures var after := Next(config, view, step, now);
            && (Starts(config, view, step, now) ==>
                  && !view.pulse.active && !C.BlocksCommands(view.snapshot.fault)
                  && (config.decoder.Some? ==> !Unhealthy(view.published.health))
                  && CanStart(view.guard, config.operator.minimumIntervalMs, now)
                  && after.guard == Guard(true, true, now) && after.pulse.active)
            && (!Starts(config, view, step, now) ==>
                  && after.guard.hasStarted == view.guard.hasStarted
                      && after.guard.lastStarted == view.guard.lastStarted
                  && (after.pulse.active ==> after.pulse == view.pulse)
                  && (after.pulse.active <==> view.pulse.active && !(step.Timers? && Due(view.pulse, now))))
  {
    hide D.CompiledOk, D.StateShaped, ProcessExpired, ConsumeSample, Due, Agreeing, Unhealthy, CanStart;
    match step
    case Timers => ProcessKeeps(config, view, now);
    case Sampled(sample) => SampleKeeps(config, view, sample, now);
    case Request(target, activated) => RequestPulses(config, view, C.TargetRequested(target), now, activated);
    case BenchPulse(activated) =>
      RequestPulses(config, view, C.MaintenancePulseRequested(C.Target.Open), now, activated);
    case Observed(observation) => RequestPulses(config, view, C.ObservationChanged(observation), now, false);
  }

  /** The pulse length configured for a command. */
  predicate PulseLasts(operator: AppConfigModel.OperatorConfig, command: C.ActuatorCommand, duration: int) {
    || (command.Step? && duration == operator.step.pulseMs)
    || (command.Open? && duration == operator.open.pulseMs)
    || (command.Close? && duration == operator.close.pulseMs)
  }

  /** A request that is admitted presses the button that the operator has for it, for exactly the time
      configured for that button. */
  lemma RequestsPress(config: Config, view: View, event: C.Event, now: Tick)
    requires config.Ok() && StartsPulse(config, view, event, now, true)
    ensures var command := C.Reduce(view.snapshot, event, config.ControllerContext()).effects.command;
            && (config.operator.profile.Sequential? ==> command.Step?)
            && (config.operator.profile.Directional? ==> command.Open? || command.Close?)
            && (config.operator.profile.Directional? && event.TargetRequested? ==>
                  (command.Open? <==> event.target.Open?))
            && exists duration: Duration :: && PulseLasts(config.operator, command, duration)
                                            && ApplyEvent(config, view, event, now, true).pulse == Arm(now, duration)
  {
    C.OnlyRequestsCommand(view.snapshot, event, config.ControllerContext());
    var command := C.Reduce(view.snapshot, event, config.ControllerContext()).effects.command;
    if config.operator.profile.Directional? && event.TargetRequested? {
      C.DirectionalAlwaysHeadsForTarget(view.snapshot, event.target);
    }
    hide C.Reduce, CanStart, C.BlocksCommands;
    assert PulseLasts(config.operator, command, config.PulseMs(command));
  }

  /** While the guard allows it, no fault forbids it and the hardware works, every request that needs a
      press is served. */
  lemma RequestsAreServed(config: Config, view: View, target: C.Target, now: Tick)
    requires config.Ok() && C.ReadyForCommands(view.snapshot)
    requires CanStart(view.guard, config.operator.minimumIntervalMs, now)
    ensures var (request, state) := (C.TargetRequested(target), view.snapshot.state);
            && (config.operator.profile.Directional? ==>
                  (StartsPulse(config, view, request, now, true) <==> !C.Towards(state, target)))
            && (config.operator.profile.Sequential? && !state.UnknownStopped? ==>
                  (StartsPulse(config, view, request, now, true) <==>
                     !C.Towards(state, target) && !C.Towards(C.StepCycle(state), C.Opposite(target))))
    ensures StartsPulse(config, view, C.MaintenancePulseRequested(target), now, true)
  {
    var context := if config.operator.profile.Sequential? then C.ONE_BUTTON else C.TWO_BUTTONS;
    assert config.ControllerContext() == context;
    if config.operator.profile.Directional? {
      C.DirectionalAlwaysHeadsForTarget(view.snapshot, target);
    } else if !view.snapshot.state.UnknownStopped? {
      C.SequentialPressesWhenItHelps(view.snapshot, target);
    }
    C.BenchPulsesPress(view.snapshot, target, context);
    hide CanStart, C.BlocksCommands;
  }

  lemma RequestPulses(config: Config, view: View, event: C.Event, now: Tick, activated: bool)
    ensures var after := ApplyEvent(config, view, event, now, activated);
            && (StartsPulse(config, view, event, now, activated) ==>
                  && C.IsRequest(event) && !view.snapshot.pulseActive && !C.BlocksCommands(view.snapshot.fault)
                  && CanStart(view.guard, config.operator.minimumIntervalMs, now)
                  && after.guard == Guard(true, true, now) && after.pulse.active)
            && (!StartsPulse(config, view, event, now, activated) ==>
                  after.guard == view.guard && after.pulse == view.pulse)
  {
    hide C.Reduce, Config.PulseMs, CanStart;
    C.OnlyRequestsCommand(view.snapshot, event, config.ControllerContext());
  }

  ghost predicate InOrder(run: seq<TimedStep>) {
    forall i, j | 0 <= i < j < |run| :: run[i].at <= run[j].at
  }

  ghost predicate SpacedFrom(starts: seq<int>, last: int, gap: int) {
    && (|starts| > 0 ==> starts[0] - last >= gap)
    && (forall i | 0 < i < |starts| :: starts[i] - starts[i - 1] >= gap)
  }

  /** The guard compares 32-bit ticks, yet the gap it enforces is a gap in real time, however often
      the tick has wrapped since. */
  lemma GapIsReal(guard: Guard, minimumIntervalMs: Duration, last: int, now: int)
    requires guard.hasStarted && guard.lastStarted == Wrap(last) && last <= now
    requires CanStart(guard, minimumIntervalMs, Wrap(now))
    ensures now - last >= minimumIntervalMs
  {
    assert (Wrap(now) - Wrap(last)) % WRAP == (now - last) % WRAP;
    if now - last < WRAP {
      assert (now - last) % WRAP == now - last;
    }
  }

  /** In real time, and across any number of tick wraps, pulses start at least the configured
      interval apart; `last` is the start before the run. */
  lemma {:induction false} PulsesAreSpaced(config: Config, view: View, last: int, run: seq<TimedStep>)
    requires Consistent(config, view) && AllAllowed(config, run) && InOrder(run)
    requires view.guard.hasStarted ==> view.guard.lastStarted == Wrap(last)
    requires |run| > 0 ==> last <= run[0].at
    ensures var starts := PulseStarts(config, view, run);
            if view.guard.hasStarted then SpacedFrom(starts, last, config.operator.minimumIntervalMs)
            else |starts| > 0 ==> SpacedFrom(starts[1..], starts[0], config.operator.minimumIntervalMs)
    decreases |run|
  {
    hide Consistent, Next, Allowed, Starts, CanStart;
    if run != [] {
      var step, at := run[0].step, run[0].at;
      NextKeeps(config, view, step, Wrap(at));
      StepPulses(config, view, step, Wrap(at));
      var after := Next(config, view, step, Wrap(at));
      if Starts(config, view, step, Wrap(at)) {
        PulsesAreSpaced(config, after, at, run[1..]);
        var rest := PulseStarts(config, after, run[1..]);
        assert PulseStarts(config, view, run) == [at] + rest;
        assert ([at] + rest)[1..] == rest;
        if view.guard.hasStarted {
          GapIsReal(view.guard, config.operator.minimumIntervalMs, last, at);
        }
      } else {
        PulsesAreSpaced(config, after, last, run[1..]);
        assert PulseStarts(config, view, run) == PulseStarts(config, after, run[1..]);
      }
    }
  }

  /** A rejected request and one the hardware failed leave no trace. */
  lemma RefusedRequestsLeaveNoTrace(config: Config, view: View, event: C.Event, now: Tick, activated: bool)
    requires C.IsRequest(event)
    requires var t := C.Reduce(view.snapshot, event, config.ControllerContext());
             Refused(config, view, t, now, activated) || t.result == C.RejectedBusy
    ensures ApplyEvent(config, view, event, now, activated) == view
  {
    hide C.Reduce, Config.PulseMs, CanStart;
    C.OnlyRequestsCommand(view.snapshot, event, config.ControllerContext());
  }

  /** Without a decoder, contradicting endpoints stop the controller until they have been seen apart
      for the stability time: no other step clears the fault, starts a movement, or starts a pulse. */
  lemma ContradictionHolds(config: Config, view: View, step: Step, now: Tick)
    requires Consistent(config, view) && Allowed(config, step) && config.decoder.None?
    requires view.snapshot.fault.FeedbackContradiction?
    ensures Shaped(config, view) && !Starts(config, view, step, now)
    ensures var after := Next(config, view, step, now).snapshot;
            && after.movement.None?
            && (after.fault.FeedbackContradiction?
                || (step.Timers? && Due(view.stability, now) && view.snapshot.pendingObservation.Between?
                    && after.fault.NoFault? && after.state.UnknownStopped?))
  {
    hide D.CompiledOk, D.StateShaped, Due, CanStart, Config.PulseMs, Unhealthy;
    match step {
      case Timers => ContradictionOverTimers(config, view, now);
      case Request(target, activated) =>
      case BenchPulse(activated) =>
      case Observed(observation) =>
      case Sampled(sample) => assert false;
    }
  }

  lemma ContradictionOverTimers(config: Config, view: View, now: Tick)
    requires Consistent(config, view) && config.decoder.None? && view.snapshot.fault.FeedbackContradiction?
    ensures var after := ProcessExpired(config, view, now).snapshot;
            && after.movement.None?
            && (after.fault.FeedbackContradiction?
                || (Due(view.stability, now) && view.snapshot.pendingObservation.Between?
                    && after.fault.NoFault? && after.state.UnknownStopped?))
  {
    hide D.CompiledOk, D.StateShaped, Reached, CanStart, Config.PulseMs, Unhealthy;
    var v2 := ExpirePulse(config, view, now);
    assert v2.snapshot == view.snapshot.(pulseActive := v2.snapshot.pulseActive) && v2.stability == view.stability;
    assert !v2.opening.active && !v2.closing.active;
    assert ExpireClosing(config, ExpireOpening(config, v2, now), now) == v2;
  }
}

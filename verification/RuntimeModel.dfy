/** What one step of the owner task makes of the runtime's state. */
module RuntimeModel {
  import opened Ticks
  import C = GateController
  import D = DecoderModel
  import R = DecoderRuns
  import AppConfigModel

  datatype Timer = Timer(active: bool, at: Tick)
  {
    function Stopped(): Timer {
      this.(active := false)
    }
  }

  const IDLE := Timer(false, 0)

  function Arm(now: Tick, duration: Duration): Timer {
    Timer(true, (now + duration) % WRAP)
  }

  predicate Reached(now: Tick, at: Tick) {
    Signed((now - at) % WRAP) >= 0
  }

  predicate Due(timer: Timer, now: Tick) {
    timer.active && Reached(now, timer.at)
  }

  datatype Guard = Guard(active: bool, hasStarted: bool, lastStarted: Tick)

  predicate CanStart(guard: Guard, minimumIntervalMs: Duration, now: Tick) {
    !guard.active && (!guard.hasStarted || (now - guard.lastStarted) % WRAP >= minimumIntervalMs)
  }

  /** The configuration the runtime runs on, with the compiled decoder when there is one. */
  datatype Config = Config(
    operator: AppConfigModel.OperatorConfig, timing: AppConfigModel.TimingConfig, decoder: D.Option<D.CompiledDecoder>)
  {
    ghost predicate Ok() {
      AppConfigModel.ActuatorsOk(operator, timing) && (decoder.Some? ==> D.CompiledOk(decoder.value))
    }

    function ControllerContext(): C.Context {
      var directional := operator.profile.Directional?;
      C.Context(if directional then C.Profile.Directional else C.Profile.Sequential,
                C.Capabilities(!directional, directional, directional))
    }

    function PulseMs(command: C.ActuatorCommand): Duration {
      match command
      case Step => operator.step.pulseMs
      case Open => operator.open.pulseMs
      case _ => operator.close.pulseMs
    }
  }

  datatype View = View(
    snapshot: C.Snapshot, guard: Guard, pulse: Timer, opening: Timer, closing: Timer, stability: Timer,
    generation: Tick, published: D.DecoderResult, machine: D.Option<R.Machine>)

  ghost predicate Shaped(config: Config, view: View) {
    && (config.decoder.Some? <==> view.machine.Some?)
    && (config.decoder.Some? ==>
          D.CompiledOk(config.decoder.value) && D.StateShaped(config.decoder.value, view.machine.value.state))
  }

  function InitialView(config: Config): View {
    View(C.INITIAL_SNAPSHOT, Guard(false, false, 0), IDLE, IDLE, IDLE, IDLE, 0, D.INITIAL_RESULT,
         if config.decoder.Some? then D.Some(R.InitialMachine(config.decoder.value)) else D.None)
  }

  // ---- One controller event ----

  function Schedule(config: Config, view: View, effects: C.Effects, now: Tick): View {
    var v1 := if effects.cancelTravel
              then view.(opening := view.opening.Stopped(), closing := view.closing.Stopped(),
                         stability := view.stability.Stopped())
              else view;
    var v2 := if effects.startOpening
              then v1.(closing := v1.closing.Stopped(), opening := Arm(now, config.timing.openingMs)) else v1;
    var v3 := if effects.startClosing
              then v2.(opening := v2.opening.Stopped(), closing := Arm(now, config.timing.closingMs)) else v2;
    if effects.startStability then v3.(stability := Arm(now, config.operator.endpointStabilityMs)) else v3
  }

  predicate Refused(config: Config, view: View, transition: C.Transition, now: Tick, activated: bool) {
    !transition.effects.command.None? && !(CanStart(view.guard, config.operator.minimumIntervalMs, now) && activated)
  }

  /** `activated` says whether the hardware, if asked, raised the output. A pulse that is not
      admitted or not raised leaves everything as it was. */
  function ApplyEvent(config: Config, view: View, event: C.Event, now: Tick, activated: bool): View {
    var t := C.Reduce(view.snapshot, event, config.ControllerContext());
    if Refused(config, view, t, now, activated) then view
    else
      var pulsed := if t.effects.command.None? then view
                    else view.(guard := Guard(true, true, now), pulse := Arm(now, config.PulseMs(t.effects.command)));
      Schedule(config, pulsed.(snapshot := t.next), t.effects, now)
  }

  /** The event started a pulse. */
  predicate StartsPulse(config: Config, view: View, event: C.Event, now: Tick, activated: bool) {
    var t := C.Reduce(view.snapshot, event, config.ControllerContext());
    !t.effects.command.None? && !Refused(config, view, t, now, activated)
  }

  // ---- The decoder's result ----

  predicate Unhealthy(health: D.DecoderHealth) {
    health.AmbiguousPosition? || health.AmbiguousMovement? || health.MonitoringFailed?
  }

  function MovementEvent(movement: D.MovementValue): C.Event {
    if movement == D.Opening then C.ExternalOpening
    else if movement == D.Closing then C.ExternalClosing
    else C.ExternalStopped
  }

  function PositionEvent(position: D.PositionValue): C.Event {
    C.ObservationStable(if position == D.Opened then C.Opened else C.EndpointObservation.Closed)
  }

  /** Takes over a result with a new number; one with the old number only refreshes what is published. */
  function TakeResult(config: Config, view: View, decoded: D.DecoderResult, now: Tick): View {
    if decoded.generation == view.generation then view.(published := decoded)
    else
      var taken := view.(published := decoded, generation := decoded.generation);
      if Unhealthy(decoded.health) then ApplyEvent(config, taken, C.DecoderFaulty, now, false)
      else
        var placed :=
          if decoded.positionValid then ApplyEvent(config, taken, PositionEvent(decoded.position), now, false)
          else if decoded.movementValid then ApplyEvent(config, taken, MovementEvent(decoded.movement), now, false)
          else taken;
        ApplyEvent(config, placed, if decoded.obstructed then C.DecoderObstructed else C.DecoderHealthy, now, false)
  }

  // ---- Samples and timers ----

  datatype FeedbackLevel = FeedbackLevel(id: D.Byte, level: bool)
  datatype FeedbackSample = FeedbackSample(levels: seq<FeedbackLevel>, timestamp: Tick)

  /** One input of a sample: an update, or its first value when the update is refused. */
  ghost function FeedLevel(decoder: D.CompiledDecoder, machine: R.Machine, level: FeedbackLevel,
      at: Tick): (next: R.Machine)
    requires D.CompiledOk(decoder) && D.StateShaped(decoder, machine.state)
    ensures D.StateShaped(decoder, next.state)
  {
    var update, first := R.Update(level.id, level.level), R.Initialize(level.id, level.level);
    R.Apply(Wrapping, decoder, machine,
            if R.Accepted(Wrapping, decoder, machine, update, at) then update else first, at)
  }

  ghost function FeedLevels(decoder: D.CompiledDecoder, machine: R.Machine, sample: FeedbackSample,
      n: nat): (next: R.Machine)
    requires D.CompiledOk(decoder) && D.StateShaped(decoder, machine.state) && n <= |sample.levels|
    ensures D.StateShaped(decoder, next.state)
  {
    if n == 0 then machine
    else FeedLevel(decoder, FeedLevels(decoder, machine, sample, n - 1), sample.levels[n - 1], sample.timestamp)
  }

  ghost function AdvanceDecoder(config: Config, view: View, machine: R.Machine, now: Tick): View
    requires config.decoder.Some? && D.CompiledOk(config.decoder.value)
             && D.StateShaped(config.decoder.value, machine.state)
  {
    var advanced := R.Apply(Wrapping, config.decoder.value, machine, R.Advance, now);
    TakeResult(config, view.(machine := D.Some(advanced)), advanced.state.result, now)
  }

  ghost function ConsumeSample(config: Config, view: View, sample: FeedbackSample, now: Tick): View
    requires Shaped(config, view)
  {
    if config.decoder.None? then view
    else AdvanceDecoder(config, view, FeedLevels(config.decoder.value, view.machine.value, sample, |sample.levels|),
                        now)
  }

  predicate DecoderDue(machine: R.Machine, now: int) {
    machine.deadline.At? && Signed((now - machine.deadline.at) % WRAP) >= 0
  }

  ghost function ExpireDecoder(config: Config, view: View, now: Tick): View
    requires Shaped(config, view)
  {
    if config.decoder.Some? && DecoderDue(view.machine.value, now)
    then AdvanceDecoder(config, view, view.machine.value, now) else view
  }

  function ExpirePulse(config: Config, view: View, now: Tick): View {
    if !Due(view.pulse, now) then view
    else ApplyEvent(config, view.(pulse := view.pulse.Stopped(), guard := view.guard.(active := false)),
                    C.PulseCompleted, now, false)
  }

  function ExpireOpening(config: Config, view: View, now: Tick): View {
    if !Due(view.opening, now) then view
    else ApplyEvent(config, view.(opening := view.opening.Stopped()), C.OpeningTimerExpired, now, false)
  }

  function ExpireClosing(config: Config, view: View, now: Tick): View {
    if !Due(view.closing, now) then view
    else ApplyEvent(config, view.(closing := view.closing.Stopped()), C.ClosingTimerExpired, now, false)
  }

  function ExpireStability(config: Config, view: View, now: Tick): View {
    if !Due(view.stability, now) then view
    else ApplyEvent(config, view.(stability := view.stability.Stopped()),
                    C.ObservationStable(view.snapshot.pendingObservation), now, false)
  }

  ghost function ProcessExpired(config: Config, view: View, now: Tick): View
    requires Shaped(config, view)
  {
    var decoded := ExpireDecoder(config, view, now);
    var travelled := ExpireClosing(config, ExpireOpening(config, ExpirePulse(config, decoded, now), now), now);
    ExpireStability(config, travelled, now)
  }

  // ---- Steps and runs of the owner task ----

  /** One thing the owner task does: its timers, a request, or feedback from the sensor task. */
  datatype Step =
    | Timers
    | Request(target: C.Target, activated: bool)
    | BenchPulse(activated: bool)
    | Observed(observation: C.EndpointObservation)
    | Sampled(sample: FeedbackSample)

  /** The sensor task reports endpoints without a decoder, and samples with one. */
  predicate Possible(config: Config, step: Step) {
    (step.Observed? ==> config.decoder.None?) && (step.Sampled? ==> config.decoder.Some?)
  }

  ghost function Next(config: Config, view: View, step: Step, now: Tick): View
    requires Shaped(config, view)
  {
    match step
    case Timers => ProcessExpired(config, view, now)
    case Request(target, activated) => ApplyEvent(config, view, C.TargetRequested(target), now, activated)
    case BenchPulse(activated) => ApplyEvent(config, view, C.MaintenancePulseRequested(C.Target.Open), now, activated)
    case Observed(observation) => ApplyEvent(config, view, C.ObservationChanged(observation), now, false)
    case Sampled(sample) => ConsumeSample(config, view, sample, now)
  }

  /** The command the hardware holds after a step that found it holding `held`: a started pulse sets it,
      and the end of the pulse clears it. */
  ghost function Held(config: Config, view: View, step: Step, now: Tick, held: C.ActuatorCommand): C.ActuatorCommand {
    match step
    case Timers => if Due(view.pulse, now) then C.ActuatorCommand.None else held
    case Request(target, activated) => HeldAfter(config, view, C.TargetRequested(target), now, activated, held)
    case BenchPulse(activated) =>
      HeldAfter(config, view, C.MaintenancePulseRequested(C.Target.Open), now, activated, held)
    case _ => held
  }

  function HeldAfter(config: Config, view: View, event: C.Event, now: Tick, activated: bool,
      held: C.ActuatorCommand): C.ActuatorCommand
  {
    if StartsPulse(config, view, event, now, activated)
    then C.Reduce(view.snapshot, event, config.ControllerContext()).effects.command else held
  }

  /** How the owner task starts: the boot event, and the first sample when there is a decoder. */
  ghost function Booted(config: Config, observation: C.EndpointObservation, sample: FeedbackSample, now: Tick): View
    requires Shaped(config, InitialView(config))
  {
    if config.decoder.Some?
    then ConsumeSample(config, ApplyEvent(config, InitialView(config), C.Boot(C.Between), now, false), sample, now)
    else ApplyEvent(config, InitialView(config), C.Boot(observation), now, false)
  }
}

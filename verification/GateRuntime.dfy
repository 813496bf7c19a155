/** The runtime object, owned by one task: it updates its snapshot, deadlines, guard, outputs and
    decoder in place. Every method is proved to do to them what `RuntimeModel` says. */
module GateRuntime {
  import opened Ticks
  import opened RuntimeModel
  import opened RuntimeSleep
  import opened RuntimeInvariants
  import RuntimeRuns
  import C = GateController
  import D = DecoderModel
  import R = DecoderRuns
  import H = GateHardware
  import G = RelayPulseGuard
  import S = SignalDecoder
  import A = AppConfigModel
  import K = DecoderCompiler

  datatype RequestResult = Accepted | Busy | HardwareError

  class GateRuntime {
    const config: Config
    const hardware: H.GateHardware
    const pulseGuard: G.RelayPulseGuard
    const decoder: S.SignalDecoder?
    var snapshot: C.Snapshot
    var pulse: Timer
    var opening: Timer
    var closing: Timer
    var stability: Timer
    var decoderGeneration: Tick
    var decoderResult: D.DecoderResult

    ghost function Repr(): set<object> {
      {this, hardware, pulseGuard} + DecoderRepr()
    }

    ghost function DecoderRepr(): set<object> {
      if decoder == null then {} else decoder.Repr()
    }

    /** The parts are in order and share nothing; no more than one output is raised; the hardware holds a
        command exactly while the guard counts a pulse; and while no write has failed, the raised outputs
        are the one it commands. */
    ghost predicate Valid()
      reads Repr()
    {
      && config.Ok()
      && hardware.operator == config.operator && hardware.Valid() && hardware.monitorActive
      && pulseGuard.minimumIntervalMs == config.operator.minimumIntervalMs
      && DecoderOk()
      && {this, hardware, pulseGuard} !! DecoderRepr()
      && OutputsOk()
    }

    ghost predicate OutputsOk()
      reads hardware, pulseGuard
    {
      && H.AtMostOneRaised(hardware.operator, hardware.levels)
      && (hardware.currentCommand.None? <==> !pulseGuard.active)
      && (hardware.allWritten ==> H.ShowsCommand(hardware.operator, hardware.levels, hardware.currentCommand))
    }

    ghost predicate DecoderOk()
      reads DecoderRepr()
    {
      && (decoder == null <==> config.decoder.None?)
      && (decoder != null ==> decoder.config == config.decoder.value && decoder.Valid())
    }

    ghost function DecoderMachine(): D.Option<R.Machine>
      requires DecoderOk()
      reads DecoderRepr()
    {
      if decoder == null then D.None else D.Some(decoder.Machine())
    }

    ghost function View(): (view: View)
      requires Valid()
      reads Repr()
      ensures Shaped(config, view)
    {
      RuntimeModel.View(snapshot, pulseGuard.View(), pulse, opening, closing, stability, decoderGeneration,
                        decoderResult, DecoderMachine())
    }

    constructor (config: Config, hardware: H.GateHardware)
      requires config.Ok() && hardware.operator == config.operator && hardware.Valid() && hardware.monitorActive
      requires hardware.currentCommand.None? && H.NoneRaised(hardware.operator, hardware.levels)
      ensures this.config == config && this.hardware == hardware && Valid() && View() == InitialView(config)
      ensures fresh(Repr() - {hardware})
    {
      hide D.CompiledOk;
      this.config, this.hardware := config, hardware;
      pulseGuard := new G.RelayPulseGuard(config.operator.minimumIntervalMs);
      if config.decoder.Some? {
        var machine := new S.SignalDecoder(config.decoder.value);
        decoder := machine;
      } else {
        decoder := null;
      }
      snapshot, pulse, opening, closing, stability := C.INITIAL_SNAPSHOT, IDLE, IDLE, IDLE, IDLE;
      decoderGeneration, decoderResult := 0, D.INITIAL_RESULT;
    }

    lemma DecoderFields()
      requires Valid() && decoder != null
      ensures View().machine.value.deadline == decoder.nextDeadline
      ensures View().machine.value.state.result == decoder.result
    {
    }

    /** Commits a transition: the snapshot, then the deadlines it cancels and starts. */
    method Commit(t: C.Transition, now: Tick)
      requires Valid()
      modifies this
      ensures Valid() && View() == Schedule(config, old(View()).(snapshot := t.next), t.effects, now)
    {
      hide S.SignalDecoder.Valid, S.SignalDecoder.Machine, D.CompiledOk, C.Reduce, H.AtMostOneRaised, Config.Ok,
        H.PinsOk;
      ghost var machine := DecoderMachine();
      var newOpening, newClosing, newStability := opening, closing, stability;
      if t.effects.cancelTravel {
        newOpening, newClosing, newStability := opening.Stopped(), closing.Stopped(), stability.Stopped();
      }
      if t.effects.startOpening {
        newClosing := newClosing.Stopped();
        newOpening := Arm(now, config.timing.openingMs);
      }
      if t.effects.startClosing {
        newOpening := newOpening.Stopped();
        newClosing := Arm(now, config.timing.closingMs);
      }
      if t.effects.startStability {
        newStability := Arm(now, config.operator.endpointStabilityMs);
      }
      snapshot, opening, closing, stability := t.next, newOpening, newClosing, newStability;
      assert DecoderMachine() == machine;
    }

    /** Admits and raises the pulse a transition asks for, before anything of it is committed. */
    method StartPulse(command: C.ActuatorCommand, now: Tick) returns (result: RequestResult)
      requires Valid() && !command.None?
      modifies `pulse, hardware`levels, hardware`currentCommand, hardware`allWritten, pulseGuard
      ensures Valid()
      ensures result.Busy? <==> !CanStart(old(View()).guard, config.operator.minimumIntervalMs, now)
      ensures View() == if result.Accepted?
                        then old(View()).(guard := Guard(true, true, now), pulse := Arm(now, config.PulseMs(command)))
                        else old(View())
      ensures result.Accepted? ==> H.OnlyRaised(hardware.operator, hardware.levels, command)
      ensures hardware.currentCommand == if result.Accepted? then command else old(hardware.currentCommand)
      ensures result.HardwareError? && hardware.allWritten ==>
                !hardware.monitorActive || !old(hardware.currentCommand).None? || !H.HasOutput(config.operator, command)
    {
      hide S.SignalDecoder.Valid, S.SignalDecoder.Machine, D.CompiledOk, H.AtMostOneRaised, Config.Ok, H.PinsOk,
        H.NoneAdded, H.Raised;
      ghost var machine := DecoderMachine();
      var can := pulseGuard.CanStart(now);
      if !can { return Busy; }
      var status := hardware.ActivateCommand(command);
      if !status.Ok? {
        ghost var levels := hardware.levels;
        status := hardware.DeactivateAll();
        NoneAddedKeepsOne(hardware.operator, levels, hardware.levels);
        assert DecoderMachine() == machine;
        return HardwareError;
      }
      pulseGuard.MarkStarted(now);
      pulse := Arm(now, config.PulseMs(command));
      assert DecoderMachine() == machine;
      return Accepted;
    }

    lemma NoneAddedKeepsOne(operator: A.OperatorConfig, before: seq<bool>, after: seq<bool>)
      requires H.AtMostOneRaised(operator, before) && H.NoneAdded(operator, before, after)
      ensures H.AtMostOneRaised(operator, after)
    {
      hide H.Raised;
    }

    method ApplyEvent(event: C.Event, now: Tick) returns (result: RequestResult)
      requires Valid()
      modifies this, hardware`levels, hardware`currentCommand, hardware`allWritten, pulseGuard
      ensures Valid()
      ensures View() == RuntimeModel.ApplyEvent(config, old(View()), event, now, !result.HardwareError?)
      ensures var t := C.Reduce(old(snapshot), event, config.ControllerContext());
              && (result.HardwareError? ==> StartsPulse(config, old(View()), event, now, true))
              && (result.Accepted?
                  <==> !Refused(config, old(View()), t, now, !result.HardwareError?) && t.result != C.RejectedBusy)
              && (StartsPulse(config, old(View()), event, now, !result.HardwareError?) ==>
                    H.OnlyRaised(hardware.operator, hardware.levels, t.effects.command))
      ensures hardware.currentCommand
           == HeldAfter(config, old(View()), event, now, !result.HardwareError?, old(hardware.currentCommand))
      // Hardware on which every write succeeds does what it is asked to.
      ensures result.HardwareError? && hardware.allWritten && hardware.monitorActive ==>
                !old(hardware.currentCommand).None?
    {
      CommandsHaveOutputs(config, View(), event, now);
      hide S.SignalDecoder.Valid, S.SignalDecoder.Machine, D.CompiledOk, C.Reduce, H.AtMostOneRaised, Config.Ok,
        H.PinsOk, H.OnlyRaised, CanStart, Schedule, Config.PulseMs;
      var t := C.Reduce(snapshot, event, config.ControllerContext());
      if !t.effects.command.None? {
        result := StartPulse(t.effects.command, now);
        if !result.Accepted? { return; }
      }
      Commit(t, now);
      result := if t.result == C.RejectedBusy then Busy else Accepted;
    }

    lemma CommandsHaveOutputs(config: Config, view: View, event: C.Event, now: Tick)
      requires config.Ok()
      ensures StartsPulse(config, view, event, now, true) ==>
                H.HasOutput(config.operator, C.Reduce(view.snapshot, event, config.ControllerContext()).effects.command)
    {
      if StartsPulse(config, view, event, now, true) {
        RuntimeRuns.RequestsPress(config, view, event, now);
      }
    }

    /** An event that is no request: the hardware is not asked. */
    method Notify(event: C.Event, now: Tick)
      requires Valid() && !C.IsRequest(event)
      modifies this, hardware`levels, hardware`currentCommand, hardware`allWritten, pulseGuard
      ensures Valid()
      ensures View() == RuntimeModel.ApplyEvent(config, old(View()), event, now, false)
      ensures pulse == old(pulse) && hardware.currentCommand == old(hardware.currentCommand)
    {
      hide S.SignalDecoder.Valid, S.SignalDecoder.Machine, D.CompiledOk, C.Reduce, H.AtMostOneRaised, Config.Ok,
        H.PinsOk, H.OnlyRaised, CanStart, Schedule, Config.PulseMs;
      C.OnlyRequestsCommand(snapshot, event, config.ControllerContext());
      NoticesLeavePulse(config, View(), event, now);
      var _ := ApplyEvent(event, now);
    }

    lemma NoticesLeavePulse(config: Config, view: View, event: C.Event, now: Tick)
      requires !C.IsRequest(event)
      ensures RuntimeModel.ApplyEvent(config, view, event, now, false).pulse == view.pulse
    {
      hide CanStart, Config.PulseMs;
    }

    method ApplyDecoderResult(now: Tick)
      requires Valid() && decoder != null
      modifies this, hardware`levels, hardware`currentCommand, hardware`allWritten, pulseGuard
      ensures Valid()
      ensures View() == TakeResult(config, old(View()), old(decoder.result), now)
      ensures pulse == old(pulse) && hardware.currentCommand == old(hardware.currentCommand)
    {
      hide D.CompiledOk, RuntimeModel.ApplyEvent, H.AtMostOneRaised, Config.Ok, H.PinsOk;
      ghost var machine := DecoderMachine();
      var decoded := decoder.result;
      decoderResult := decoded;
      assert DecoderMachine() == machine;
      if decoded.generation == decoderGeneration { return; }
      decoderGeneration := decoded.generation;
      assert DecoderMachine() == machine;
      if decoded.health == D.AmbiguousPosition || decoded.health == D.AmbiguousMovement
         || decoded.health == D.MonitoringFailed {
        Notify(C.DecoderFaulty, now);
        return;
      }
      if decoded.positionValid {
        Notify(C.ObservationStable(if decoded.position == D.Opened then C.Opened else C.EndpointObservation.Closed),
               now);
      } else if decoded.movementValid {
        Notify(if decoded.movement == D.Opening then C.ExternalOpening
               else if decoded.movement == D.Closing then C.ExternalClosing else C.ExternalStopped, now);
      }
      Notify(if decoded.obstructed then C.DecoderObstructed else C.DecoderHealthy, now);
    }

    /** Advances the decoder and takes its result over. */
    method Advance(now: Tick)
      requires Valid() && decoder != null
      modifies Repr()
      ensures Valid()
      ensures View() == AdvanceDecoder(config, old(View()), old(View()).machine.value, now)
      ensures pulse == old(pulse) && hardware.currentCommand == old(hardware.currentCommand)
    {
      hide S.SignalDecoder.Valid, S.SignalDecoder.Machine, D.CompiledOk, TakeResult, R.Apply, H.AtMostOneRaised,
        Config.Ok, H.PinsOk;
      ghost var before := View();
      decoder.Advance(now);
      assert View() == before.(machine := D.Some(R.Apply(Wrapping, config.decoder.value, before.machine.value,
                                                         R.Advance, now)));
      DecoderFields();
      ApplyDecoderResult(now);
    }

    method ConsumeCustomSample(sample: FeedbackSample, now: Tick)
      requires Valid()
      modifies Repr()
      ensures Valid()
      ensures View() == ConsumeSample(config, old(View()), sample, now)
      ensures hardware.currentCommand == old(hardware.currentCommand)
    {
      hide S.SignalDecoder.Valid, S.SignalDecoder.Machine, D.CompiledOk, AdvanceDecoder, R.Apply, R.Accepted,
        H.AtMostOneRaised, Config.Ok, H.PinsOk;
      if decoder == null { return; }
      ghost var before := View();
      for i := 0 to |sample.levels|
        invariant Valid() && hardware.currentCommand == old(hardware.currentCommand)
        invariant View() == before.(machine := D.Some(FeedLevels(config.decoder.value, before.machine.value, sample,
                                                                 i)))
      {
        ghost var fed, level := FeedLevels(config.decoder.value, before.machine.value, sample, i), sample.levels[i];
        RefusedChangesNothing(config.decoder.value, fed, R.Update(level.id, level.level), sample.timestamp);
        var updated := decoder.Update(sample.levels[i].id, sample.levels[i].level, sample.timestamp);
        if !updated {
          var _ := decoder.Initialize(sample.levels[i].id, sample.levels[i].level, sample.timestamp);
        }
      }
      ghost var fed := View();
      Advance(now);
      AdvancingIgnoresOldMachine(config, before, fed.machine, now);
    }

    lemma RefusedChangesNothing(decoder: D.CompiledDecoder, machine: R.Machine, event: R.Event, at: Tick)
      requires D.CompiledOk(decoder) && D.StateShaped(decoder, machine.state)
      ensures !R.Accepted(Wrapping, decoder, machine, event, at) ==>
                R.Apply(Wrapping, decoder, machine, event, at) == machine
    {
    }

    lemma AdvancingIgnoresOldMachine(config: Config, view: View, machine: D.Option<R.Machine>, now: Tick)
      requires config.decoder.Some? && D.CompiledOk(config.decoder.value) && machine.Some?
      requires D.StateShaped(config.decoder.value, machine.value.state)
      ensures AdvanceDecoder(config, view.(machine := machine), machine.value, now)
              == AdvanceDecoder(config, view, machine.value, now)
    {
      hide S.SignalDecoder.Valid, S.SignalDecoder.Machine, D.CompiledOk, R.Apply, TakeResult;
    }

    method ProcessExpired(now: Tick)
      requires Valid()
      modifies Repr()
      ensures Valid()
      ensures View() == RuntimeModel.ProcessExpired(config, old(View()), now)
      ensures hardware.currentCommand == Held(config, old(View()), Timers, now, old(hardware.currentCommand))
    {
      hide S.SignalDecoder.Valid, S.SignalDecoder.Machine, D.CompiledOk, AdvanceDecoder, RuntimeModel.ApplyEvent,
        H.AtMostOneRaised, Config.Ok, H.PinsOk;
      if decoder != null {
        DecoderFields();
        var deadline := decoder.nextDeadline;
        if deadline.At? && Signed((now - deadline.at) % WRAP) >= 0 {
          Advance(now);
        }
      }
      ghost var v1 := View();
      assert v1 == ExpireDecoder(config, old(View()), now);
      EndPulse(now);
      ExpireTravel(now);
    }

    method ExpireTravel(now: Tick)
      requires Valid()
      modifies this, hardware`levels, hardware`currentCommand, hardware`allWritten, pulseGuard
      ensures Valid()
      ensures View() == ExpireStability(config, ExpireClosing(config, ExpireOpening(config, old(View()), now), now),
                                        now)
      ensures hardware.currentCommand == old(hardware.currentCommand)
    {
      hide S.SignalDecoder.Valid, S.SignalDecoder.Machine, D.CompiledOk, RuntimeModel.ApplyEvent, H.AtMostOneRaised,
        Config.Ok, H.PinsOk;
      if opening.active && Reached(now, opening.at) {
        Disarm(Opening);
        Notify(C.OpeningTimerExpired, now);
      }
      if closing.active && Reached(now, closing.at) {
        Disarm(Closing);
        Notify(C.ClosingTimerExpired, now);
      }
      if stability.active && Reached(now, stability.at) {
        Disarm(Stability);
        Notify(C.ObservationStable(snapshot.pendingObservation), now);
      }
    }

    /** Ends a pulse whose time is over. The guard is freed and the pulse completed even when a
        GPIO write fails. */
    method EndPulse(now: Tick)
      requires Valid()
      modifies this, hardware`levels, hardware`currentCommand, hardware`allWritten, pulseGuard
      ensures Valid()
      ensures View() == ExpirePulse(config, old(View()), now)
      ensures hardware.currentCommand
           == if Due(old(pulse), now) then C.ActuatorCommand.None else old(hardware.currentCommand)
      ensures Due(old(pulse), now) && hardware.allWritten ==> H.NoneRaised(hardware.operator, hardware.levels)
    {
      hide S.SignalDecoder.Valid, S.SignalDecoder.Machine, D.CompiledOk, RuntimeModel.ApplyEvent, H.AtMostOneRaised,
        Config.Ok, H.PinsOk, H.NoneAdded;
      if !(pulse.active && Reached(now, pulse.at)) { return; }
      ghost var before, machine, levels := View(), DecoderMachine(), hardware.levels;
      pulse := pulse.Stopped();
      var _ := hardware.DeactivateAll();
      pulseGuard.MarkCompleted();
      NoneAddedKeepsOne(hardware.operator, levels, hardware.levels);
      assert DecoderMachine() == machine;
      assert View() == before.(pulse := before.pulse.Stopped(), guard := before.guard.(active := false));
      Notify(C.PulseCompleted, now);
    }

    /** While no write has failed, an output is raised exactly while a pulse is active, and then it is the
        one commanded. */
    lemma OutputsFollowPulse()
      requires Valid() && Consistent(config, View()) && hardware.allWritten
      ensures snapshot.pulseActive == pulse.active == !hardware.currentCommand.None?
      ensures if pulse.active then H.OnlyRaised(hardware.operator, hardware.levels, hardware.currentCommand)
              else H.NoneRaised(hardware.operator, hardware.levels)
      ensures pulse.active ==> H.PinsShow(hardware.operator, hardware.levels, hardware.currentCommand)
      ensures !pulse.active ==> H.PinsShow(hardware.operator, hardware.levels, C.ActuatorCommand.None)
    {
      H.PinsShowCommands(hardware.operator, hardware.levels, hardware.currentCommand);
      hide S.SignalDecoder.Valid, S.SignalDecoder.Machine, D.CompiledOk, H.AtMostOneRaised, Config.Ok, H.PinsOk;
    }

    method Disarm(which: Which)
      requires Valid()
      modifies `opening, `closing, `stability
      ensures Valid()
      ensures View() == match which
                        case Opening => old(View()).(opening := old(opening).Stopped())
                        case Closing => old(View()).(closing := old(closing).Stopped())
                        case Stability => old(View()).(stability := old(stability).Stopped())
    {
      hide S.SignalDecoder.Valid, S.SignalDecoder.Machine, D.CompiledOk, H.AtMostOneRaised, Config.Ok, H.PinsOk;
      ghost var machine := DecoderMachine();
      match which {
        case Opening => opening := opening.Stopped();
        case Closing => closing := closing.Stopped();
        case Stability => stability := stability.Stopped();
      }
      assert DecoderMachine() == machine;
    }

    /** How long to wait for a message; none means without limit. */
    method WaitMs(now: Tick) returns (wait: D.Option<nat>)
      requires Valid()
      ensures IsWait(Armed(View()), now, wait)
    {
      hide D.CompiledOk, H.AtMostOneRaised, Config.Ok, H.PinsOk, Remaining, IsWait, SoFar, ArmedTimers,
        S.SignalDecoder.Valid, S.SignalDecoder.Machine;
      var timers := [pulse, opening, closing, stability];
      var reached, waitMs := ShortestTimer(timers, now);
      ghost var ats := ArmedTimers(timers);
      if reached {
        ReachedSomewhere(ats, Armed(View())[|ats|..], now);
        assert Armed(View()) == ats + Armed(View())[|ats|..];
        return D.Some(0);
      }
      if decoder != null {
        DecoderFields();
        var deadline := decoder.nextDeadline;
        if deadline.At? {
          if Signed((now - deadline.at) % WRAP) >= 0 {
            ReachedIsNoWait(Armed(View()), now, deadline.at);
            return D.Some(0);
          }
          IsWaitExtends(ats, now, waitMs, deadline.at);
          waitMs := Minimum(waitMs, (deadline.at - now) % WRAP);
          ats := ats + [deadline.at];
        }
      }
      assert ats == Armed(View());
      SoFarIsWait(ats, now, waitMs);
      wait := if waitMs == NO_DEADLINE then D.None else D.Some(waitMs);
    }

    /** Boot event and, with a decoder, the first sample. */
    method Boot(observation: C.EndpointObservation, sample: FeedbackSample, now: Tick)
      requires Valid() && View() == InitialView(config)
      modifies Repr()
      ensures Valid()
      ensures View() == Booted(config, observation, sample, now)
    {
      hide S.SignalDecoder.Valid, S.SignalDecoder.Machine, D.CompiledOk, H.AtMostOneRaised, Config.Ok, H.PinsOk,
        RuntimeModel.ApplyEvent, ConsumeSample;
      if decoder != null {
        Notify(C.Boot(C.Between), now);
        ConsumeCustomSample(sample, now);
      } else {
        Notify(C.Boot(observation), now);
      }
    }

    /** One turn of the owner task's loop: the timers, and then the message that ended the wait, if any.
        The ghost result tells how the hardware fared. */
    method Turn(before: Tick, message: D.Option<Message>, received: Tick) returns (ghost steps: seq<(Step, Tick)>)
      requires Valid()
      requires message.Some? ==>
                 (message.value.Feedback? ==> config.decoder.Some?)
                 && (message.value.Endpoints? ==> config.decoder.None?)
      modifies Repr()
      ensures Valid()
      ensures |steps| == (if message.Some? then 2 else 1) && steps[0] == (Timers, before)
      ensures message.Some? ==> Carries(steps[1].0, message.value) && steps[1].1 == received
      ensures var timed := RuntimeModel.ProcessExpired(config, old(View()), before);
              Shaped(config, timed)
              && View() == if message.None? then timed else Next(config, timed, steps[1].0, received)
      ensures old(Consistent(config, View())) && SampleFits(message) ==> Consistent(config, View())
      ensures var timed := RuntimeModel.ProcessExpired(config, old(View()), before);
              var held := Held(config, old(View()), Timers, before, old(hardware.currentCommand));
              hardware.currentCommand
              == if message.None? then held else Held(config, timed, steps[1].0, received, held)
    {
      hide S.SignalDecoder.Valid, S.SignalDecoder.Machine, D.CompiledOk, H.AtMostOneRaised, Config.Ok, H.PinsOk,
        RuntimeModel.ApplyEvent, ConsumeSample, RuntimeModel.ProcessExpired, Refused;
      hide Consistent;
      ghost var start := View();
      ProcessExpired(before);
      ghost var timed := View();
      if Consistent(config, start) {
        RuntimeRuns.ProcessKeeps(config, start, before);
      }
      steps := [(Timers, before)];
      if message.None? { return; }
      ghost var step: Step;
      match message.value {
        case Feedback(sample) =>
          ConsumeCustomSample(sample, received);
          step := Sampled(sample);
        case Endpoints(observation) =>
          Notify(C.ObservationChanged(observation), received);
          step := Observed(observation);
        case TargetRequest(target) =>
          var result := ApplyEvent(C.TargetRequested(target), received);
          step := Request(target, !result.HardwareError?);
        case BenchRequest =>
          var result := ApplyEvent(C.MaintenancePulseRequested(C.Target.Open), received);
          step := BenchPulse(!result.HardwareError?);
      }
      steps := steps + [(step, received)];
      assert View() == Next(config, timed, step, received);
      if Consistent(config, timed) && RuntimeRuns.Allowed(config, step) {
        RuntimeRuns.NextKeeps(config, timed, step, received);
      }
    }
  }

  predicate UsesDecoder(operator: A.OperatorConfig) {
    operator.decoder.profile.CustomRules? && operator.decoder.inputCount > 0
  }

  /** Compiles the rules, if any, and starts monitoring; nothing is started under rules that do not
      compile, and no output is raised when the runtime starts. */
  method Start(operator: A.OperatorConfig, timing: A.TimingConfig,
      hardware: H.GateHardware) returns (runtime: GateRuntime?)
    requires A.ActuatorsOk(operator, timing) && operator.decoder.rules.WellShaped()
    requires hardware.Valid() && hardware.operator == operator && !hardware.monitorActive
    modifies hardware
    ensures runtime != null ==>
              && runtime.Valid() && runtime.hardware == hardware && fresh(runtime.Repr() - {hardware})
              && runtime.View() == InitialView(runtime.config)
              && runtime.config.operator == operator && runtime.config.timing == timing
              && H.NoneRaised(operator, hardware.levels)
              && (runtime.config.decoder.Some? <==> UsesDecoder(operator))
              && (UsesDecoder(operator) ==>
                    K.Accepts(operator.decoder.rules)
                    && K.CompiledFrom(operator.decoder.rules, runtime.config.decoder.value))
    ensures UsesDecoder(operator) && !K.Accepts(operator.decoder.rules) ==> runtime == null && unchanged(hardware)
    ensures hardware.allWritten && hardware.allDirected ==>
              (runtime == null <==> UsesDecoder(operator) && !K.Accepts(operator.decoder.rules))
  {
    hide K.Accepts, K.CompiledFrom, D.CompiledOk, A.ActuatorsOk, H.PinsOk;
    var compiled: D.Option<D.CompiledDecoder> := D.None;
    if operator.decoder.profile.CustomRules? && operator.decoder.inputCount > 0 {
      var result := K.Compile(operator.decoder.rules);
      if result.Err? { return null; }
      compiled := D.Some(result.value);
    }
    var status := hardware.StartMonitoring();
    if !status.Ok? { return null; }
    runtime := new GateRuntime(Config(operator, timing, compiled), hardware);
  }

  const NO_DEADLINE: Tick := 0xffff_ffff

  function Minimum(a: Tick, b: Tick): Tick {
    if b < a then b else a
  }

  /** The running minimum stands for the wait, the sentinel for nothing armed. */
  ghost predicate SoFar(ats: seq<int>, now: Tick, waitMs: Tick) {
    if ats == [] then waitMs == NO_DEADLINE else waitMs <= HALF && IsWait(ats, now, D.Some(waitMs))
  }

  /** The four deadlines of the runtime itself: one of them is reached, or the shortest wait. */
  method ShortestTimer(timers: seq<Timer>, now: Tick) returns (reached: bool, waitMs: Tick)
    ensures reached ==> waitMs == 0 && exists at :: at in ArmedTimers(timers) && Signed((now - at) % WRAP) >= 0
    ensures !reached ==> SoFar(ArmedTimers(timers), now, waitMs)
  {
    hide SoFar;
    waitMs := NO_DEADLINE;
    IsWaitStarts(now);
    for i := 0 to |timers|
      invariant SoFar(ArmedTimers(timers[..i]), now, waitMs)
    {
      ArmedGrows(timers, i);
      if timers[i].active {
        if Reached(now, timers[i].at) {
          ActiveIsArmed(timers, i);
          return true, 0;
        }
        IsWaitExtends(ArmedTimers(timers[..i]), now, waitMs, timers[i].at);
        waitMs := Minimum(waitMs, (timers[i].at - now) % WRAP);
      }
    }
    assert timers[..|timers|] == timers;
    reached := false;
  }

  lemma ArmedGrows(timers: seq<Timer>, i: nat)
    requires i < |timers|
    ensures var earlier := ArmedTimers(timers[..i]);
            ArmedTimers(timers[..i + 1]) == if timers[i].active then earlier + [timers[i].at] else earlier
  {
    assert timers[..i + 1][..i] == timers[..i];
    assert ArmedTimers(timers[..i]) + [] == ArmedTimers(timers[..i]);
  }

  lemma ReachedSomewhere(ats: seq<int>, more: seq<int>, now: Tick)
    requires exists at :: at in ats && Signed((now - at) % WRAP) >= 0
    ensures IsWait(ats + more, now, D.Some(0))
  {
    var at :| at in ats && Signed((now - at) % WRAP) >= 0;
    assert at in ats + more;
    ReachedIsNoWait(ats + more, now, at);
  }

  lemma IsWaitStarts(now: Tick)
    ensures SoFar([], now, NO_DEADLINE)
  {
  }

  lemma IsWaitExtends(ats: seq<int>, now: Tick, waitMs: Tick, at: int)
    requires SoFar(ats, now, waitMs) && Signed((now - at) % WRAP) < 0
    ensures SoFar(ats + [at], now, Minimum(waitMs, (at - now) % WRAP))
  {
    assert (at - now) % WRAP == (0 - (now - at) % WRAP) % WRAP;
    assert Remaining(now, at) == (at - now) % WRAP <= HALF;
    var more := ats + [at];
    if ats != [] && waitMs <= Remaining(now, at) {
      var i :| 0 <= i < |ats| && waitMs == Remaining(now, ats[i]);
      assert more[i] == ats[i];
    } else {
      assert more[|ats|] == at;
    }
  }

  lemma SoFarIsWait(ats: seq<int>, now: Tick, waitMs: Tick)
    requires SoFar(ats, now, waitMs)
    ensures IsWait(ats, now, if waitMs == NO_DEADLINE then D.None else D.Some(waitMs))
  {
  }

  lemma ReachedIsNoWait(ats: seq<int>, now: Tick, at: int)
    requires at in ats && Signed((now - at) % WRAP) >= 0
    ensures IsWait(ats, now, D.Some(0))
  {
    var i :| 0 <= i < |ats| && ats[i] == at;
    assert Remaining(now, ats[i]) == 0;
  }

  /** What arrives on the queue. */
  datatype Message =
    | Feedback(sample: FeedbackSample)
    | Endpoints(observation: C.EndpointObservation)
    | TargetRequest(target: C.Target)
    | BenchRequest

  predicate SampleFits(message: D.Option<Message>) {
    message.Some? && message.value.Feedback? ==> |message.value.sample.levels| <= D.MAX_INPUTS
  }

  /** The step carries out the message, with whatever outcome of the hardware. */
  predicate Carries(step: Step, message: Message) {
    match message
    case Feedback(sample) => step == Sampled(sample)
    case Endpoints(observation) => step == Observed(observation)
    case TargetRequest(target) => step.Request? && step.target == target
    case BenchRequest => step.BenchPulse?
  }

  datatype Which = Opening | Closing | Stability
}

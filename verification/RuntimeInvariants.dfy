/** What every run of the owner task keeps. */
module RuntimeInvariants {
  import opened Ticks
  import opened RuntimeModel
  import C = GateController
  import D = DecoderModel
  import E = DecoderEvaluation
  import R = DecoderRuns
  import AppConfigModel

  // ---- The invariant ----

  function MovementOf(state: C.State): C.MovementDirection {
    match state
    case Opening => C.MovementDirection.Opening
    case Closing => C.MovementDirection.Closing
    case _ => C.MovementDirection.None
  }

  /** Target, direction and remembered direction agree with the state. */
  ghost predicate Agreeing(s: C.Snapshot) {
    && s.movement == MovementOf(s.state)
    && (s.state.Opening? ==> s.target.Open? && s.lastMovement.Opening?)
    && (s.state.Closing? ==> s.target.Closed? && s.lastMovement.Closing?)
    && (s.state.Open? ==> s.target.Open?)
    && (s.state.Closed? ==> s.target.Closed?)
    && (s.state.StoppedOpening? ==> s.lastMovement.Opening?)
    && (s.state.StoppedClosing? ==> s.lastMovement.Closing?)
  }

  /** A movement is believed exactly while its travel deadline is armed. */
  ghost predicate Supervised(view: View) {
    && Agreeing(view.snapshot)
    && (view.snapshot.state.Opening? <==> view.opening.active)
    && (view.snapshot.state.Closing? <==> view.closing.active)
  }

  /** The snapshot, the guard and the pulse deadline tell the same story. */
  ghost predicate PulseCoupled(view: View) {
    && view.snapshot.pulseActive == view.guard.active == view.pulse.active
    && (view.guard.active ==> view.guard.hasStarted)
  }

  /** The fault shown is the one the published decoder result calls for. */
  ghost predicate FaultShown(snapshot: C.Snapshot, published: D.DecoderResult) {
    && (snapshot.fault.DecoderFault? <==> Unhealthy(published.health))
    && (snapshot.fault.DecodedObstruction? ==> published.obstructed)
    && (published.obstructed ==> !snapshot.fault.NoFault?)
  }

  /** Facts a decoder-driven controller never leaves: no endpoint contradiction, and nothing but the
      boot's own observation under the stability deadline. */
  ghost predicate DecoderDriven(view: View) {
    var s := view.snapshot;
    && !s.fault.FeedbackContradiction? && !s.pendingObservation.Contradictory? && !s.stableObservation.Contradictory?
    && (view.stability.active ==> s.pendingObservation.Between?)
  }

  ghost predicate StandsStillOnFault(view: View) {
    view.snapshot.fault.DecoderFault? ==> view.snapshot.state.UnknownStopped? && !view.stability.active
  }

  ghost predicate DecoderCoupled(view: View)
    requires view.machine.Some?
  {
    && view.published == view.machine.value.state.result
    && view.generation == view.published.generation
    && FaultShown(view.snapshot, view.published)
    && DecoderDriven(view)
    && StandsStillOnFault(view)
  }

  ghost predicate EndpointDriven(view: View) {
    && !view.snapshot.fault.DecoderFault? && !view.snapshot.fault.DecodedObstruction?
    && (view.snapshot.fault.FeedbackContradiction? ==> view.snapshot.movement.None?)
  }

  ghost predicate Consistent(config: Config, view: View) {
    && Shaped(config, view)
    && Supervised(view)
    && PulseCoupled(view)
    && (if config.decoder.Some? then DecoderCoupled(view) else EndpointDriven(view))
  }

  // ---- Single events ----

  predicate IsTravelTimeout(event: C.Event) {
    event.OpeningTimerExpired? || event.ClosingTimerExpired?
  }

  /** The travel deadlines a transition starts and cancels are the ones its next state needs. */
  ghost predicate Supervises(current: C.Snapshot, t: C.Transition) {
    && !(t.effects.startOpening && t.effects.startClosing)
    && (t.next.state.Opening?
        <==> t.effects.startOpening || (current.state.Opening? && !t.effects.cancelTravel && !t.effects.startClosing))
    && (t.next.state.Closing?
        <==> t.effects.startClosing || (current.state.Closing? && !t.effects.cancelTravel && !t.effects.startOpening))
  }

  lemma DecisionSupervises(current: C.Snapshot, target: C.Target, directional: bool)
    requires Agreeing(current) && !C.BlocksCommands(current.fault)
    ensures var d := if directional then C.DirectionalDecision(current, target)
                     else C.SequentialDecision(current, target);
            var t := C.ApplyDecision(current, d);
            Agreeing(t.next) && Supervises(current, t)
  {
  }

  lemma ReduceSupervises(current: C.Snapshot, event: C.Event, context: C.Context)
    requires Agreeing(current) && !IsTravelTimeout(event)
    ensures var t := C.Reduce(current, event, context);
            Agreeing(t.next) && Supervises(current, t)
  {
    hide C.SequentialDecision, C.DirectionalDecision, C.ApplyDecision;
    if event.TargetRequested? && !C.BlocksCommands(current.fault) {
      DecisionSupervises(current, event.target, context.profile.Directional?);
    }
  }

  lemma EventKeepsSupervision(config: Config, view: View, event: C.Event, now: Tick, activated: bool)
    requires Supervised(view) && !IsTravelTimeout(event)
    ensures Supervised(ApplyEvent(config, view, event, now, activated))
  {
    hide Config.PulseMs, CanStart, C.Reduce, Agreeing;
    ReduceSupervises(view.snapshot, event, config.ControllerContext());
  }

  lemma EventKeepsPulse(config: Config, view: View, event: C.Event, now: Tick, activated: bool)
    requires PulseCoupled(view) && !event.Boot? && !event.PulseCompleted?
    ensures PulseCoupled(ApplyEvent(config, view, event, now, activated))
  {
    hide Config.PulseMs;
  }

  predicate FromDecoder(event: C.Event) {
    event.ExternalOpening? || event.ExternalClosing? || event.ExternalStopped? || event.DecoderObstructed?
    || event.DecoderHealthy? || event.DecoderFaulty?
    || (event.ObservationStable? && event.observation in {C.Opened, C.EndpointObservation.Closed})
  }

  lemma DecoderEvent(config: Config, view: View, event: C.Event, now: Tick)
    requires DecoderDriven(view) && FromDecoder(event)
    ensures var after := ApplyEvent(config, view, event, now, false);
            && DecoderDriven(after)
            && after.published == view.published && after.generation == view.generation && after.machine == view.machine
            && (event.DecoderFaulty? ==>
                  after.snapshot.fault.DecoderFault? && after.snapshot.state.UnknownStopped? && !after.stability.active)
            && (event.DecoderObstructed? ==> after.snapshot.fault.DecodedObstruction?)
            && (event.DecoderHealthy? ==> after.snapshot.fault in {C.NoFault, C.TravelTimeout})
  {
    hide Config.PulseMs, CanStart, C.Supports;
  }

  /** Whatever new result is taken over, the fault shown afterwards is the one it calls for. */
  lemma TakingShowsFault(config: Config, view: View, decoded: D.DecoderResult, now: Tick)
    requires DecoderDriven(view) && decoded.generation != view.generation
    ensures var after := TakeResult(config, view, decoded, now);
            && after.published == decoded && after.generation == decoded.generation && after.machine == view.machine
            && FaultShown(after.snapshot, decoded) && DecoderDriven(after) && StandsStillOnFault(after)
  {
    hide ApplyEvent;
    var taken := view.(published := decoded, generation := decoded.generation);
    if Unhealthy(decoded.health) {
      DecoderEvent(config, taken, C.DecoderFaulty, now);
    } else {
      var placed := taken;
      if decoded.positionValid {
        DecoderEvent(config, taken, PositionEvent(decoded.position), now);
        placed := ApplyEvent(config, taken, PositionEvent(decoded.position), now, false);
      } else if decoded.movementValid {
        DecoderEvent(config, taken, MovementEvent(decoded.movement), now);
        placed := ApplyEvent(config, taken, MovementEvent(decoded.movement), now, false);
      }
      DecoderEvent(config, placed, if decoded.obstructed then C.DecoderObstructed else C.DecoderHealthy, now);
    }
  }

  /** A new healthy result moves the controller where the decoder sees the gate. */
  lemma TakingFollowsDecoder(config: Config, view: View, decoded: D.DecoderResult, now: Tick)
    requires Supervised(view) && decoded.generation != view.generation && !Unhealthy(decoded.health)
    ensures var after := TakeResult(config, view, decoded, now).snapshot;
            && (decoded.positionValid ==>
                  && after.state == (if decoded.position == D.Opened then C.State.Open else C.State.Closed)
                  && after.movement.None? && after.observationValid
                  && (after.stableObservation == C.Opened <==> decoded.position == D.Opened))
            && (!decoded.positionValid && decoded.movementValid ==>
                  && (decoded.movement == D.Opening ==> after.state == C.State.Opening)
                  && (decoded.movement == D.Closing ==> after.state == C.State.Closing)
                  && (decoded.movement == D.Stopped ==>
                        after.movement.None? && after.state !in {C.State.Opening, C.State.Closing})
                  && (decoded.movement == D.Stopped && view.snapshot.movement.Opening? ==>
                        after.state == C.StoppedOpening)
                  && (decoded.movement == D.Stopped && view.snapshot.movement.Closing? ==>
                        after.state == C.StoppedClosing))
            && (!decoded.positionValid && !decoded.movementValid ==> after == view.snapshot.(fault := after.fault))
  {
    hide Config.PulseMs, CanStart, C.SequentialDecision, C.DirectionalDecision;
  }

  lemma TakingKeepsRest(config: Config, view: View, decoded: D.DecoderResult, now: Tick)
    requires Supervised(view) && PulseCoupled(view)
    ensures var after := TakeResult(config, view, decoded, now);
            Supervised(after) && PulseCoupled(after) && after.guard == view.guard && after.pulse == view.pulse
  {
    hide ApplyEvent, Agreeing;
    if decoded.generation != view.generation {
      var taken := view.(published := decoded, generation := decoded.generation);
      if Unhealthy(decoded.health) {
        QuietEvent(config, taken, C.DecoderFaulty, now);
      } else {
        var placed := taken;
        if decoded.positionValid {
          QuietEvent(config, taken, PositionEvent(decoded.position), now);
          placed := ApplyEvent(config, taken, PositionEvent(decoded.position), now, false);
        } else if decoded.movementValid {
          QuietEvent(config, taken, MovementEvent(decoded.movement), now);
          placed := ApplyEvent(config, taken, MovementEvent(decoded.movement), now, false);
        }
        QuietEvent(config, placed, if decoded.obstructed then C.DecoderObstructed else C.DecoderHealthy, now);
      }
    }
  }

  /** An event that is no request leaves guard and pulse alone. */
  lemma QuietEvent(config: Config, view: View, event: C.Event, now: Tick)
    requires Supervised(view) && PulseCoupled(view) && FromDecoder(event)
    ensures var after := ApplyEvent(config, view, event, now, false);
            && Supervised(after) && PulseCoupled(after)
            && after.guard == view.guard && after.pulse == view.pulse
  {
    EventKeepsSupervision(config, view, event, now, false);
    EventKeepsPulse(config, view, event, now, false);
    hide C.Reduce, Agreeing, Config.PulseMs, CanStart;
    C.OnlyRequestsCommand(view.snapshot, event, config.ControllerContext());
  }

  // ---- The decoder's numbering ----

  lemma ApplyNumbers(decoder: D.CompiledDecoder, machine: R.Machine, event: R.Event, at: Tick)
    requires D.CompiledOk(decoder) && D.StateShaped(decoder, machine.state)
    ensures var (before, after) := (machine.state.result, R.Apply(Wrapping, decoder, machine, event, at).state.result);
            after == before || after.generation == (before.generation + 1) % WRAP
  {
    hide D.CompiledOk, E.Arbitrate, E.Expressions, E.SettleAll, E.AllCandidates;
  }

  /** Feeding `n` levels renumbers the result at most `n` times, and not at all only if it is unchanged. */
  lemma {:induction false} FeedingNumbers(decoder: D.CompiledDecoder, machine: R.Machine, sample: FeedbackSample,
      n: nat)
    returns (changes: nat)
    requires D.CompiledOk(decoder) && D.StateShaped(decoder, machine.state) && n <= |sample.levels|
    ensures changes <= n
    ensures var (before, after) := (machine.state.result, FeedLevels(decoder, machine, sample, n).state.result);
            after.generation == (before.generation + changes) % WRAP && (changes == 0 ==> after == before)
  {
    hide R.Apply, D.CompiledOk, R.Accepted;
    if n == 0 { return 0; }
    var earlier := FeedingNumbers(decoder, machine, sample, n - 1);
    var fed, level := FeedLevels(decoder, machine, sample, n - 1), sample.levels[n - 1];
    ApplyNumbers(decoder, fed, R.Update(level.id, level.level), sample.timestamp);
    ApplyNumbers(decoder, fed, R.Initialize(level.id, level.level), sample.timestamp);
    var after := FeedLevels(decoder, machine, sample, n).state.result;
    changes := if after == fed.state.result then earlier else earlier + 1;
  }

  /** Skipping a result by its number loses nothing: under an unchanged number the result is unchanged. */
  lemma SameNumberSameResult(decoder: D.CompiledDecoder, machine: R.Machine, sample: FeedbackSample, now: Tick)
    requires D.CompiledOk(decoder) && D.StateShaped(decoder, machine.state) && |sample.levels| <= D.MAX_INPUTS
    ensures var fed := FeedLevels(decoder, machine, sample, |sample.levels|);
            var after := R.Apply(Wrapping, decoder, fed, R.Advance, now).state.result;
            after.generation == machine.state.result.generation ==> after == machine.state.result
  {
    hide R.Apply, D.CompiledOk, FeedLevels;
    var fed := FeedLevels(decoder, machine, sample, |sample.levels|);
    var changes := FeedingNumbers(decoder, machine, sample, |sample.levels|);
    ApplyNumbers(decoder, fed, R.Advance, now);
  }

  /** A step of the decoder keeps the coupling, provided numbers tell results apart. */
  lemma AdvancingKeeps(config: Config, view: View, machine: R.Machine, now: Tick)
    requires config.decoder.Some? && Consistent(config, view) && D.StateShaped(config.decoder.value, machine.state)
    requires var after := R.Apply(Wrapping, config.decoder.value, machine, R.Advance, now).state.result;
             after.generation == view.published.generation ==> after == view.published
    ensures Consistent(config, AdvanceDecoder(config, view, machine, now))
    ensures var after := AdvanceDecoder(config, view, machine, now);
            after.guard == view.guard && after.pulse == view.pulse
  {
    hide R.Apply, D.CompiledOk, TakeResult, Agreeing, FaultShown, Unhealthy;
    var advanced := R.Apply(Wrapping, config.decoder.value, machine, R.Advance, now);
    var moved, decoded := view.(machine := D.Some(advanced)), advanced.state.result;
    TakingKeepsRest(config, moved, decoded, now);
    if decoded.generation != view.generation {
      TakingShowsFault(config, moved, decoded, now);
    } else {
      SkippingTakesNothing(config, moved, decoded, now);
    }
  }

  lemma SkippingTakesNothing(config: Config, view: View, decoded: D.DecoderResult, now: Tick)
    requires decoded.generation == view.generation
    ensures TakeResult(config, view, decoded, now) == view.(published := decoded)
  {
  }

  lemma SampleKeeps(config: Config, view: View, sample: FeedbackSample, now: Tick)
    requires Consistent(config, view) && |sample.levels| <= D.MAX_INPUTS
    ensures Consistent(config, ConsumeSample(config, view, sample, now))
    ensures var after := ConsumeSample(config, view, sample, now);
            after.guard == view.guard && after.pulse == view.pulse
  {
    hide R.Apply, D.CompiledOk, FeedLevels, AdvanceDecoder, Supervised, PulseCoupled, FaultShown, DecoderDriven,
      StandsStillOnFault;
    if config.decoder.Some? {
      var decoder, machine := config.decoder.value, view.machine.value;
      SameNumberSameResult(decoder, machine, sample, now);
      AdvancingKeeps(config, view, FeedLevels(decoder, machine, sample, |sample.levels|), now);
    }
  }

  // ---- Timers ----

  lemma ExpireDecoderKeeps(config: Config, view: View, now: Tick)
    requires Consistent(config, view)
    ensures Consistent(config, ExpireDecoder(config, view, now))
    ensures var after := ExpireDecoder(config, view, now);
            after.guard == view.guard && after.pulse == view.pulse
  {
    hide R.Apply, D.CompiledOk, AdvanceDecoder, Supervised, PulseCoupled, FaultShown, DecoderDriven, StandsStillOnFault;
    if config.decoder.Some? && DecoderDue(view.machine.value, now) {
      ApplyNumbers(config.decoder.value, view.machine.value, R.Advance, now);
      AdvancingKeeps(config, view, view.machine.value, now);
    }
  }

  lemma ExpirePulseKeeps(config: Config, view: View, now: Tick)
    requires Consistent(config, view)
    ensures var after := ExpirePulse(config, view, now);
            && Consistent(config, after)
            && after.guard.lastStarted == view.guard.lastStarted && after.guard.hasStarted == view.guard.hasStarted
            && after.pulse.active == (view.pulse.active && !Due(view.pulse, now))
            && (after.pulse.active ==> after.pulse == view.pulse)
  {
    hide D.CompiledOk, D.StateShaped, Unhealthy, CanStart, Config.PulseMs;
  }

  lemma ExpireOpeningKeeps(config: Config, view: View, now: Tick)
    requires Consistent(config, view)
    ensures var after := ExpireOpening(config, view, now);
            && Consistent(config, after) && after.guard == view.guard && after.pulse == view.pulse
            && (after.opening.active ==> !Due(after.opening, now))
  {
    hide D.CompiledOk, D.StateShaped, CanStart, Config.PulseMs;
  }

  lemma ExpireClosingKeeps(config: Config, view: View, now: Tick)
    requires Consistent(config, view)
    ensures var after := ExpireClosing(config, view, now);
            && Consistent(config, after) && after.guard == view.guard && after.pulse == view.pulse
  {
    hide D.CompiledOk, D.StateShaped, CanStart, Config.PulseMs;
  }

  lemma ExpireStabilityKeeps(config: Config, view: View, now: Tick)
    requires Consistent(config, view)
    ensures var after := ExpireStability(config, view, now);
            && Consistent(config, after) && after.guard == view.guard && after.pulse == view.pulse
  {
    hide D.CompiledOk, D.StateShaped, CanStart, Config.PulseMs, Unhealthy, C.SequentialDecision, C.DirectionalDecision;
  }
}

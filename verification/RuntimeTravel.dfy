/** No movement is believed for longer than its travel time unless something announces it anew, and an
    observation that lasts is believed. */
module RuntimeTravel {
  import opened Ticks
  import opened RuntimeModel
  import opened RuntimeInvariants
  import opened RuntimeRuns
  import opened RuntimeSleep
  import C = GateController
  import D = DecoderModel
  import AppConfigModel

  function Travel(view: View, opening: bool): Timer {
    if opening then view.opening else view.closing
  }

  predicate Believed(view: View, opening: bool) {
    if opening then view.snapshot.state.Opening? else view.snapshot.state.Closing?
  }

  /** No step of the run arms the travel deadline again. */
  ghost predicate NeverRearmed(config: Config, view: View, run: seq<TimedStep>, opening: bool)
    requires Consistent(config, view) && AllAllowed(config, run)
    decreases |run|
  {
    if run == [] then true
    else
      NextKeeps(config, view, run[0].step, Wrap(run[0].at));
      var after := Next(config, view, run[0].step, Wrap(run[0].at));
      && (Travel(after, opening).active ==> Travel(after, opening) == Travel(view, opening))
      && NeverRearmed(config, after, run[1..], opening)
  }

  lemma NoTravelDueAfterTimers(config: Config, view: View, now: Tick, opening: bool)
    requires config.Ok() && Shaped(config, view)
    ensures !Due(Travel(ProcessExpired(config, view, now), opening), now)
  {
    ArmedAheadIsNotReached(now, config.timing.openingMs);
    ArmedAheadIsNotReached(now, config.timing.closingMs);
    hide D.CompiledOk, ExpireDecoder, ExpirePulse, ExpireOpening, ExpireClosing, ExpireStability, Due;
    EarlierPhases(config, view, now);
    LaterPhases(config, ExpireOpening(config, ExpirePulse(config, ExpireDecoder(config, view, now), now), now), now);
  }

  lemma BelievedWhileArmed(config: Config, view: View, opening: bool)
    requires Consistent(config, view)
    ensures Believed(view, opening) <==> Travel(view, opening).active
  {
  }

  /** However the run goes, once the timers are processed at or after the travel deadline (within
      half a wrap of it), a movement that was not announced anew is no longer believed. */
  lemma {:induction false} MovementsEnd(config: Config, view: View, run: seq<TimedStep>, opening: bool)
    requires config.Ok() && Consistent(config, view) && AllAllowed(config, run)
             && NeverRearmed(config, view, run, opening)
    requires run != [] && run[|run| - 1].step.Timers?
    requires Travel(view, opening).active ==> Reached(Wrap(run[|run| - 1].at), Travel(view, opening).at)
    ensures !Believed(RunTask(config, view, run), opening)
    decreases |run|
  {
    hide Consistent, Next, Allowed, Reached, Travel, Believed, Config.Ok;
    var step, now := run[0].step, Wrap(run[0].at);
    NextKeeps(config, view, step, now);
    var after := Next(config, view, step, now);
    BelievedWhileArmed(config, after, opening);
    if |run| == 1 {
      assert run[1..] == [];
      LastTimers(config, view, now, opening);
    } else {
      assert run[1..][|run| - 2] == run[|run| - 1];
      MovementsEnd(config, after, run[1..], opening);
    }
  }

  lemma LastTimers(config: Config, view: View, now: Tick, opening: bool)
    requires config.Ok() && Consistent(config, view) && Shaped(config, view)
    requires var after := Next(config, view, Timers, now);
             Travel(after, opening).active ==> Travel(after, opening) == Travel(view, opening)
    requires Travel(view, opening).active ==> Reached(now, Travel(view, opening).at)
    ensures !Travel(Next(config, view, Timers, now), opening).active
  {
    hide Consistent, Reached, Travel, ProcessExpired, Config.Ok, D.CompiledOk, D.StateShaped;
    NoTravelDueAfterTimers(config, view, now, opening);
  }

  /** A movement starts with its deadline one travel time ahead, whatever started it. */
  lemma MovementsStartArmed(config: Config, view: View, event: C.Event, now: Tick, activated: bool)
    requires Supervised(view) && !IsTravelTimeout(event)
    ensures var after := ApplyEvent(config, view, event, now, activated);
            && (after.snapshot.state.Opening? && !view.snapshot.state.Opening? ==>
                  after.opening == Arm(now, config.timing.openingMs))
            && (after.snapshot.state.Closing? && !view.snapshot.state.Closing? ==>
                  after.closing == Arm(now, config.timing.closingMs))
  {
    hide Config.PulseMs, CanStart, C.Reduce, Agreeing;
    ReduceSupervises(view.snapshot, event, config.ControllerContext());
  }

  // ---- Endpoint observations become stable ----

  ghost predicate StillWaits(before: View, after: View) {
    && after.stability == before.stability
    && after.snapshot.pendingObservation == before.snapshot.pendingObservation
    && after.snapshot.stableObservation == before.snapshot.stableObservation
    && after.snapshot.observationValid == before.snapshot.observationValid
  }

  /** The controller believes the observation. */
  predicate Believes(snapshot: C.Snapshot, seen: C.EndpointObservation) {
    && snapshot.stableObservation == seen && snapshot.observationValid
    && (seen.Opened? ==> snapshot.state == C.State.Open)
    && (seen.Closed? ==> snapshot.state == C.State.Closed)
    && (seen.Contradictory? ==> snapshot.fault.FeedbackContradiction?)
    && (!seen.Between? ==> snapshot.movement.None?)
  }

  lemma EarlierTimersLeaveWaiting(config: Config, view: View, now: Tick)
    ensures StillWaits(view, ExpireClosing(config, ExpireOpening(config, ExpirePulse(config, view, now), now), now))
  {
    hide Reached, CanStart, Config.PulseMs;
    var v2 := ExpirePulse(config, view, now);
    assert StillWaits(view, v2);
    var v3 := ExpireOpening(config, v2, now);
    assert StillWaits(v2, v3);
    assert StillWaits(v3, ExpireClosing(config, v3, now));
  }

  lemma TimersLeaveWaiting(config: Config, view: View, now: Tick)
    requires Shaped(config, view) && config.decoder.None? && !Due(view.stability, now)
    ensures StillWaits(view, ProcessExpired(config, view, now))
  {
    hide D.CompiledOk, D.StateShaped, Reached, ExpirePulse, ExpireOpening, ExpireClosing, ApplyEvent;
    EarlierTimersLeaveWaiting(config, view, now);
  }

  /** Without a decoder, an observation that is still pending when its stability time is over becomes
      the stable one, and the controller believes it. */
  lemma ObservationsSettle(config: Config, view: View, now: Tick)
    requires Shaped(config, view) && config.decoder.None? && Due(view.stability, now)
    ensures var after := ProcessExpired(config, view, now);
            && Believes(after.snapshot, view.snapshot.pendingObservation) && !after.stability.active
            && (!view.snapshot.pendingObservation.Between? ==> !after.opening.active && !after.closing.active)
  {
    hide D.CompiledOk, D.StateShaped, Reached, CanStart, Config.PulseMs, ExpirePulse, ExpireOpening, ExpireClosing;
    EarlierTimersLeaveWaiting(config, view, now);
  }

  /** The step is no news and does not end the wait of the pending observation: no other observation
      arrives, the stability time is not over, and no request that is admitted stops or reverses the gate. */
  predicate Quiet(config: Config, view: View, step: Step, now: Tick) {
    match step
    case Timers => !Due(view.stability, now)
    case Request(target, activated) =>
      var t := C.Reduce(view.snapshot, C.TargetRequested(target), config.ControllerContext());
      Refused(config, view, t, now, activated) || !t.effects.cancelTravel
    case BenchPulse(_) => true
    case Observed(_) => false
    case Sampled(_) => false
  }

  ghost predicate AllQuiet(config: Config, view: View, run: seq<TimedStep>)
    requires Consistent(config, view) && AllAllowed(config, run)
    decreases |run|
  {
    if run == [] then true
    else
      NextKeeps(config, view, run[0].step, Wrap(run[0].at));
      && Quiet(config, view, run[0].step, Wrap(run[0].at))
      && AllQuiet(config, Next(config, view, run[0].step, Wrap(run[0].at)), run[1..])
  }

  lemma RequestsLeaveWaiting(config: Config, view: View, event: C.Event, now: Tick, activated: bool)
    requires C.IsRequest(event)
    requires var t := C.Reduce(view.snapshot, event, config.ControllerContext());
             Refused(config, view, t, now, activated) || !t.effects.cancelTravel
    ensures StillWaits(view, ApplyEvent(config, view, event, now, activated))
  {
    hide CanStart, Config.PulseMs, C.Supports;
  }

  lemma QuietStepsLeaveWaiting(config: Config, view: View, step: Step, now: Tick)
    requires Shaped(config, view) && config.decoder.None? && Quiet(config, view, step, now)
    ensures StillWaits(view, Next(config, view, step, now))
  {
    hide ApplyEvent, ProcessExpired, C.Reduce, Refused, Due, StillWaits;
    match step
    case Timers => TimersLeaveWaiting(config, view, now);
    case Request(target, activated) =>
      RequestsLeaveWaiting(config, view, C.TargetRequested(target), now, activated);
    case BenchPulse(activated) =>
      BenchPulsesCancelNothing(config, view);
      RequestsLeaveWaiting(config, view, C.MaintenancePulseRequested(C.Target.Open), now, activated);
  }

  lemma BenchPulsesCancelNothing(config: Config, view: View)
    ensures !C.Reduce(view.snapshot, C.MaintenancePulseRequested(C.Target.Open), config.ControllerContext())
             .effects.cancelTravel
  {
  }

  /** Nothing is believed before its time: while only quiet steps happen, the pending observation keeps
      waiting and the stable one stays what it was. */
  lemma {:induction false} ObservationsWait(config: Config, view: View, run: seq<TimedStep>)
    requires Consistent(config, view) && config.decoder.None? && AllAllowed(config, run) && AllQuiet(config, view, run)
    ensures StillWaits(view, RunTask(config, view, run)) && Consistent(config, RunTask(config, view, run))
    decreases |run|
  {
    hide Consistent, Next, Allowed, Quiet;
    ConsistentIsShaped(config, view);
    if run != [] {
      var after := Next(config, view, run[0].step, Wrap(run[0].at));
      NextKeeps(config, view, run[0].step, Wrap(run[0].at));
      QuietStepsLeaveWaiting(config, view, run[0].step, Wrap(run[0].at));
      ObservationsWait(config, after, run[1..]);
    }
  }

  ghost function Reported(config: Config, view: View, observation: C.EndpointObservation, now: Tick): (after: View)
    requires Consistent(config, view) && config.decoder.None?
    ensures Consistent(config, after)
  {
    NextKeeps(config, view, Observed(observation), now);
    Next(config, view, Observed(observation), now)
  }

  /** Without a decoder, an observation that is reported at `at` and followed by quiet steps only is
      believed when the timers are next looked at after its stability time, and not before. */
  lemma LastingObservationsAreBelieved(config: Config, view: View, observation: C.EndpointObservation, at: int,
      waiting: seq<TimedStep>, end: int)
    requires Consistent(config, view) && config.decoder.None? && AllAllowed(config, waiting)
    requires AllQuiet(config, Reported(config, view, observation, Wrap(at)), waiting)
    requires Reached(Wrap(end), Arm(Wrap(at), config.operator.endpointStabilityMs).at)
    ensures var waited := RunTask(config, Reported(config, view, observation, Wrap(at)), waiting);
            && waited.snapshot.stableObservation == view.snapshot.stableObservation
            && waited.snapshot.observationValid == view.snapshot.observationValid
            && Shaped(config, waited)
            && Believes(Next(config, waited, Timers, Wrap(end)).snapshot, observation)
  {
    var reported := Reported(config, view, observation, Wrap(at));
    hide Consistent, AllQuiet, RunTask, Reached, D.CompiledOk, D.StateShaped, ProcessExpired, Believes;
    ObservationsWait(config, reported, waiting);
    var waited := RunTask(config, reported, waiting);
    ConsistentIsShaped(config, waited);
    ObservationsSettle(config, waited, Wrap(end));
  }

  /** The state in which the owner task starts without a decoder. */
  ghost function Started(config: Config, observation: C.EndpointObservation, now: Tick): (view: View)
    requires config.Ok() && config.decoder.None?
    ensures Consistent(config, view)
  {
    BootIsConsistent(config, observation, FeedbackSample([], now), now);
    Booted(config, observation, FeedbackSample([], now), now)
  }

  /** The endpoint found at boot is believed in the same way: not before its stability time is over, and
      then when the timers are next looked at, if only quiet steps come between. */
  lemma BootObservationsAreBelieved(config: Config, observation: C.EndpointObservation, at: int,
      waiting: seq<TimedStep>, end: int)
    requires config.Ok() && config.decoder.None? && AllAllowed(config, waiting)
    requires AllQuiet(config, Started(config, observation, Wrap(at)), waiting)
    requires Reached(Wrap(end), Arm(Wrap(at), config.operator.endpointStabilityMs).at)
    ensures var waited := RunTask(config, Started(config, observation, Wrap(at)), waiting);
            && !waited.snapshot.observationValid
            && Shaped(config, waited)
            && Believes(Next(config, waited, Timers, Wrap(end)).snapshot, observation)
  {
    var started := Started(config, observation, Wrap(at));
    assert !started.snapshot.observationValid && started.snapshot.pendingObservation == observation
           && started.stability == Arm(Wrap(at), config.operator.endpointStabilityMs);
    hide Consistent, AllQuiet, RunTask, Reached, D.CompiledOk, D.StateShaped, ProcessExpired, Believes, Booted;
    ObservationsWait(config, started, waiting);
    var waited := RunTask(config, started, waiting);
    ConsistentIsShaped(config, waited);
    ObservationsSettle(config, waited, Wrap(end));
  }
}

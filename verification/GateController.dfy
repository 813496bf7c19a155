/** The pure reducer of the controller: a snapshot and an event give the next snapshot, the timers
    to start or cancel, and at most one actuator command. */
module GateController {
  datatype State = Closed | Opening | Open | Closing | StoppedOpening | StoppedClosing | UnknownStopped
  datatype Target = Open | Closed
  datatype MovementDirection = None | Opening | Closing
  datatype EndpointObservation = Between | Opened | Closed | Contradictory
  datatype ActuatorCommand = None | Step | Open | Close
  datatype Profile = Sequential | Directional

  datatype Fault = NoFault | TravelTimeout | FeedbackContradiction | DecodedObstruction | DecoderFault

  datatype CommandResult = NotACommand | Accepted | NoChange | RejectedBusy

  datatype Event =
    | Boot(observation: EndpointObservation)
    | TargetRequested(target: Target)
    | MaintenancePulseRequested(target: Target)
    | ObservationChanged(observation: EndpointObservation)
    | ObservationStable(observation: EndpointObservation)
    | ExternalOpening
    | ExternalClosing
    | ExternalStopped
    | DecoderObstructed
    | DecoderHealthy
    | DecoderFaulty
    | OpeningTimerExpired
    | ClosingTimerExpired
    | PulseCompleted
    | ObstructionAcknowledged

  datatype Snapshot = Snapshot(
    state: State, target: Target, movement: MovementDirection, lastMovement: MovementDirection,
    pendingObservation: EndpointObservation, stableObservation: EndpointObservation, observationValid: bool,
    pulseActive: bool, fault: Fault)

  const INITIAL_SNAPSHOT :=
    Snapshot(UnknownStopped, Target.Open, MovementDirection.None, MovementDirection.None, Between, Between, false,
             false, NoFault)

  datatype Effects = Effects(
    command: ActuatorCommand, startOpening: bool, startClosing: bool, startStability: bool, cancelTravel: bool)

  const NO_EFFECTS := Effects(ActuatorCommand.None, false, false, false, false)

  datatype Capabilities = Capabilities(step: bool, open: bool, close: bool)

  datatype Context = Context(profile: Profile, capabilities: Capabilities)

  datatype Transition = Transition(next: Snapshot, effects: Effects, result: CommandResult)

  predicate Supports(capabilities: Capabilities, command: ActuatorCommand) {
    match command
    case None => true
    case Step => capabilities.step
    case Open => capabilities.open
    case Close => capabilities.close
  }

  datatype Decision = Decision(
    state: State, target: Target, movement: MovementDirection, lastMovement: MovementDirection,
    command: ActuatorCommand, startOpening: bool, startClosing: bool, cancelTravel: bool, result: CommandResult)

  function Unchanged(current: Snapshot): Decision {
    Decision(current.state, current.target, current.movement, current.lastMovement, ActuatorCommand.None,
             false, false, false, NoChange)
  }

  function StartOpening(command: ActuatorCommand, cancelTravel: bool): Decision {
    Decision(State.Opening, Target.Open, MovementDirection.Opening, MovementDirection.Opening, command,
             true, false, cancelTravel, Accepted)
  }

  function StartClosing(command: ActuatorCommand, cancelTravel: bool): Decision {
    Decision(State.Closing, Target.Closed, MovementDirection.Closing, MovementDirection.Closing, command,
             false, true, cancelTravel, Accepted)
  }

  /** One button: the operator itself alternates open, stop, close, stop. */
  function SequentialDecision(current: Snapshot, requested: Target): Decision {
    match current.state
    case Closed =>
      if requested.Open? then StartOpening(Step, false) else Unchanged(current).(target := Target.Closed)
    case Open =>
      if requested.Closed? then StartClosing(Step, false) else Unchanged(current).(target := Target.Open)
    case Opening =>
      if requested.Closed?
      then Decision(StoppedOpening, Target.Open, MovementDirection.None, MovementDirection.Opening, Step,
                    false, false, true, Accepted)
      else Unchanged(current)
    case Closing =>
      if requested.Open?
      then Decision(StoppedClosing, Target.Closed, MovementDirection.None, MovementDirection.Closing, Step,
                    false, false, true, Accepted)
      else Unchanged(current)
    case StoppedOpening =>
      if requested.Closed? then StartClosing(Step, false) else Unchanged(current)
    case StoppedClosing =>
      if requested.Open? then StartOpening(Step, false) else Unchanged(current)
    case UnknownStopped =>
      if requested != current.target
      then Unchanged(current).(command := Step, target := requested, result := Accepted)
      else Unchanged(current)
  }

  /** Separate open and close inputs. */
  function DirectionalDecision(current: Snapshot, requested: Target): Decision {
    if (current.state.Open? && requested.Open?) || (current.state.Closed? && requested.Closed?)
       || (current.state.Opening? && requested.Open?) || (current.state.Closing? && requested.Closed?)
    then Unchanged(current).(target := requested)
    else if requested.Open? then StartOpening(ActuatorCommand.Open, current.movement.Closing?)
    else StartClosing(Close, current.movement.Opening?)
  }

  function ApplyDecision(current: Snapshot, decision: Decision): Transition {
    Transition(
      current.(state := decision.state, target := decision.target, movement := decision.movement,
               lastMovement := decision.lastMovement,
               pulseActive := !decision.command.None? || current.pulseActive),
      Effects(decision.command, decision.startOpening, decision.startClosing, false, decision.cancelTravel),
      decision.result)
  }

  function Rejected(current: Snapshot): Transition {
    Transition(current, NO_EFFECTS, RejectedBusy)
  }

  predicate BlocksCommands(fault: Fault) {
    fault.FeedbackContradiction? || fault.DecoderFault?
  }

  /** A stopped state that remembers which way the gate was last moving. */
  function StoppedAfter(movement: MovementDirection): State {
    match movement
    case Opening => StoppedOpening
    case Closing => StoppedClosing
    case None => UnknownStopped
  }

  function AtEndpoint(current: Snapshot, state: State, target: Target): Snapshot {
    current.(state := state, target := target, movement := MovementDirection.None,
             fault := if current.fault in {DecodedObstruction, TravelTimeout} then NoFault else current.fault)
  }

  function Stabilized(current: Snapshot, observation: EndpointObservation): Transition {
    var seen := current.(pendingObservation := observation, stableObservation := observation, observationValid := true);
    var cancel := NO_EFFECTS.(cancelTravel := true);
    match observation
    case Opened => Transition(AtEndpoint(seen, State.Open, Target.Open), cancel, NotACommand)
    case Closed => Transition(AtEndpoint(seen, State.Closed, Target.Closed), cancel, NotACommand)
    case Contradictory =>
      Transition(seen.(state := StoppedAfter(current.lastMovement), movement := MovementDirection.None,
                       fault := FeedbackContradiction), cancel, NotACommand)
    case Between =>
      if current.fault.FeedbackContradiction?
      then Transition(seen.(state := UnknownStopped, movement := MovementDirection.None, fault := NoFault), cancel,
                      NotACommand)
      else Transition(seen, NO_EFFECTS, NotACommand)
  }

  function Reduce(current: Snapshot, event: Event, context: Context): Transition {
    var same := Transition(current, NO_EFFECTS, NotACommand);
    match event
    case Boot(observation) =>
      Transition(INITIAL_SNAPSHOT.(target := current.target, pendingObservation := observation),
                 NO_EFFECTS.(startStability := true, cancelTravel := true), NotACommand)
    case TargetRequested(target) =>
      if current.pulseActive || BlocksCommands(current.fault) then Rejected(current)
      else
        var decision := if context.profile.Directional? then DirectionalDecision(current, target)
                        else SequentialDecision(current, target);
        if !Supports(context.capabilities, decision.command) then Rejected(current)
        else ApplyDecision(current, decision)
    case MaintenancePulseRequested(target) =>
      if current.pulseActive || BlocksCommands(current.fault) then Rejected(current)
      else
        var command := if context.profile.Sequential? then Step
                       else if target.Open? then ActuatorCommand.Open else Close;
        if !Supports(context.capabilities, command) then Rejected(current)
        else Transition(current.(pulseActive := true), NO_EFFECTS.(command := command), Accepted)
    case ObservationChanged(observation) =>
      Transition(current.(pendingObservation := observation), NO_EFFECTS.(startStability := true), NotACommand)
    case ObservationStable(observation) => Stabilized(current, observation)
    case ExternalOpening =>
      Transition(current.(state := State.Opening, target := Target.Open, movement := MovementDirection.Opening,
                          lastMovement := MovementDirection.Opening),
                 NO_EFFECTS.(startOpening := true), NotACommand)
    case ExternalClosing =>
      Transition(current.(state := State.Closing, target := Target.Closed, movement := MovementDirection.Closing,
                          lastMovement := MovementDirection.Closing),
                 NO_EFFECTS.(startClosing := true), NotACommand)
    case ExternalStopped =>
      Transition(current.(state := StoppedAfter(current.movement), movement := MovementDirection.None),
                 NO_EFFECTS.(cancelTravel := true), NotACommand)
    case DecoderObstructed => same.(next := current.(fault := DecodedObstruction))
    case DecoderHealthy =>
      if current.fault in {DecodedObstruction, DecoderFault} then same.(next := current.(fault := NoFault)) else same
    case DecoderFaulty =>
      Transition(current.(state := UnknownStopped, movement := MovementDirection.None, fault := DecoderFault),
                 NO_EFFECTS.(cancelTravel := true), NotACommand)
    case OpeningTimerExpired =>
      if current.state.Opening?
      then same.(next := current.(state := StoppedOpening, movement := MovementDirection.None,
                                  lastMovement := MovementDirection.Opening, fault := TravelTimeout))
      else same
    case ClosingTimerExpired =>
      if current.state.Closing?
      then same.(next := current.(state := StoppedClosing, movement := MovementDirection.None,
                                  lastMovement := MovementDirection.Closing, fault := TravelTimeout))
      else same
    case PulseCompleted => same.(next := current.(pulseActive := false))
    case ObstructionAcknowledged =>
      if !current.state.Closing? && !current.fault.FeedbackContradiction?
      then same.(next := current.(fault := NoFault)) else same
  }

  predicate IsRequest(event: Event) {
    event.TargetRequested? || event.MaintenancePulseRequested?
  }

  /** Only a request commands the actuator, never over a pulse or a blocking fault, and only with a
      command the operator has; a request that commands nothing moves no state. */
  lemma OnlyRequestsCommand(current: Snapshot, event: Event, context: Context)
    ensures var t := Reduce(current, event, context);
            && (!t.effects.command.None? ==>
                  && IsRequest(event) && !current.pulseActive
                  && current.fault !in {FeedbackContradiction, DecoderFault}
                  && t.next.pulseActive && t.result == Accepted)
            && (t.effects.command.Step? ==> context.capabilities.step && context.profile.Sequential?)
            && (t.effects.command.Open? ==> context.capabilities.open && context.profile.Directional?)
            && (t.effects.command.Close? ==> context.capabilities.close && context.profile.Directional?)
            && (t.effects.command.None? ==> t.next.pulseActive ==> current.pulseActive)
            && (t.result == RejectedBusy ==> t == Rejected(current))
            && (IsRequest(event) && t.effects.command.None? ==>
                  t.next == current.(target := t.next.target) && t.effects == NO_EFFECTS)
  {
  }

  // ---- What a request means to the gate ----

  /** What a single-button operator does on one press. */
  function StepCycle(state: State): State {
    match state
    case Closed => State.Opening
    case Opening => StoppedOpening
    case StoppedOpening => State.Closing
    case Open => State.Closing
    case Closing => StoppedClosing
    case StoppedClosing => State.Opening
    case UnknownStopped => UnknownStopped
  }

  /** The gate is at the target or moving towards it. */
  predicate Towards(state: State, target: Target) {
    if target.Open? then state.Open? || state.Opening? else state.Closed? || state.Closing?
  }

  function Opposite(target: Target): Target {
    if target.Open? then Target.Closed else Target.Open
  }

  predicate ReadyForCommands(current: Snapshot) {
    !current.pulseActive && !BlocksCommands(current.fault)
  }

  const ONE_BUTTON := Context(Sequential, Capabilities(true, false, false))
  const TWO_BUTTONS := Context(Directional, Capabilities(false, true, true))

  /** A boot keeps the target alone: nothing else is believed, nothing moves, and the endpoint that was
      read is not trusted before it has lasted. */
  lemma BootForgets(current: Snapshot, observation: EndpointObservation, context: Context)
    ensures var t := Reduce(current, Boot(observation), context);
            && t.next.state.UnknownStopped? && t.next.target == current.target
            && t.next.movement == t.next.lastMovement == MovementDirection.None && t.next.fault.NoFault?
            && !t.next.pulseActive && !t.next.observationValid && t.next.pendingObservation == observation
            && t.effects == NO_EFFECTS.(startStability := true, cancelTravel := true) && t.result.NotACommand?
  {
  }

  /** With one button: the button is pressed exactly when the gate is not on its way to the target
      and the press would not send it the opposite way; and the state believed after a press is the
      one the operator's own cycle reaches. */
  lemma SequentialPressesWhenItHelps(current: Snapshot, requested: Target)
    requires ReadyForCommands(current) && !current.state.UnknownStopped?
    ensures var t := Reduce(current, TargetRequested(requested), ONE_BUTTON);
            && (t.effects.command == Step <==>
                  !Towards(current.state, requested) && !Towards(StepCycle(current.state), Opposite(requested)))
            && t.effects.command in {Step, ActuatorCommand.None}
            && t.next.state == (if t.effects.command == Step then StepCycle(current.state) else current.state)
            && (t.effects.cancelTravel <==>
                  t.effects.command == Step && current.state in {State.Opening, State.Closing})
  {
  }

  /** With one button: where the gate is heading afterwards. One that is stopped keeps the end it was
      going to; and of one of which nothing is known, only a new target is asked for. */
  lemma SequentialTargets(current: Snapshot, requested: Target)
    requires ReadyForCommands(current)
    ensures var t := Reduce(current, TargetRequested(requested), ONE_BUTTON);
            && t.next.target == (if current.state in {State.Open, State.Closed, UnknownStopped} then requested
                                 else if t.effects.command != Step then current.target
                                 else if current.state == State.Opening then Target.Open
                                 else if current.state == State.Closing then Target.Closed
                                 else requested)
            && (current.state.UnknownStopped? ==>
                  && (t.effects.command == Step <==> requested != current.target)
                  && t.next.state.UnknownStopped? && !t.effects.startOpening && !t.effects.startClosing)
  {
  }

  /** With two buttons: a request presses the right one exactly when the gate is not on its way to
      the target, and afterwards the gate always is. */
  lemma DirectionalAlwaysHeadsForTarget(current: Snapshot, requested: Target)
    requires ReadyForCommands(current)
    ensures var t := Reduce(current, TargetRequested(requested), TWO_BUTTONS);
            && Towards(t.next.state, requested) && t.next.target == requested
            && (t.effects.command == ActuatorCommand.None <==> Towards(current.state, requested))
            && (t.effects.command != ActuatorCommand.None ==>
                  t.effects.command == if requested.Open? then ActuatorCommand.Open else Close)
            && (t.effects.cancelTravel <==>
                  if requested.Open? then current.movement.Closing? && !Towards(current.state, requested)
                  else current.movement.Opening? && !Towards(current.state, requested))
  {
  }

  /** A request is refused exactly while a pulse runs, under a fault that blocks commands, or when the
      operator lacks the input that the request needs. */
  lemma RefusedExactlyWhen(current: Snapshot, requested: Target, context: Context)
    ensures var needs := if context.profile.Directional?
                         then !Towards(current.state, requested)
                              && !(if requested.Open? then context.capabilities.open else context.capabilities.close)
                         else && (if current.state.UnknownStopped? then requested != current.target
                                  else !Towards(current.state, requested)
                                       && !Towards(StepCycle(current.state), Opposite(requested)))
                              && !context.capabilities.step;
            Reduce(current, TargetRequested(requested), context).result == RejectedBusy
            <==> current.pulseActive || current.fault in {FeedbackContradiction, DecoderFault} || needs
  {
  }

  /** A request for a pulse alone presses the one button, or the one for the target, and moves no belief. */
  lemma BenchPulsesPress(current: Snapshot, target: Target, context: Context)
    ensures var t := Reduce(current, MaintenancePulseRequested(target), context);
            && t.effects == NO_EFFECTS.(command := t.effects.command)
            && (t.effects.command.None? ==> t.next == current && t.result == RejectedBusy)
            && (!t.effects.command.None? ==>
                  && t.next == current.(pulseActive := true)
                  && t.effects.command == if context.profile.Sequential? then Step
                                          else if target.Open? then ActuatorCommand.Open else Close)
            && (ReadyForCommands(current) && context in {ONE_BUTTON, TWO_BUTTONS} ==> t.result == Accepted)
  {
  }

  // ---- What the controller makes of the gate ----

  /** A stable endpoint is where the gate is, at rest and with nothing left to do, and it clears the
      faults that it disproves. A contradiction stops the controller on the way it last went, and only a
      gate seen between its ends clears that. */
  lemma EndpointsMean(current: Snapshot, seen: EndpointObservation, context: Context)
    ensures var t := Reduce(current, ObservationStable(seen), context);
            && t.next.observationValid && t.next.stableObservation == t.next.pendingObservation == seen
            && t.next.lastMovement == current.lastMovement && t.next.pulseActive == current.pulseActive
            && (seen in {Opened, EndpointObservation.Closed} ==>
                  && t.next.state == (if seen.Opened? then State.Open else State.Closed)
                  && t.next.target == (if seen.Opened? then Target.Open else Target.Closed)
                  && t.next.movement.None?
                  && t.next.fault == (if current.fault in {FeedbackContradiction, DecoderFault} then current.fault
                                      else NoFault))
            && (seen.Contradictory? ==>
                  && t.next.fault.FeedbackContradiction? && t.next.movement.None? && t.next.target == current.target
                  && t.next.state == (if current.lastMovement.Opening? then StoppedOpening
                                      else if current.lastMovement.Closing? then StoppedClosing else UnknownStopped))
            && (seen.Between? && !current.fault.FeedbackContradiction? ==>
                  t.next == current.(pendingObservation := seen, stableObservation := seen, observationValid := true))
            && (seen.Between? && current.fault.FeedbackContradiction? ==>
                  t.next.state.UnknownStopped? && t.next.movement.None? && t.next.fault.NoFault?)
            && t.effects == NO_EFFECTS.(cancelTravel := !seen.Between? || current.fault.FeedbackContradiction?)
  {
  }

  /** The way a gate was moving is remembered when it stops, whatever stops it. */
  lemma StopsRememberTheWay(current: Snapshot, event: Event, context: Context)
    requires current.movement.Opening? <==> current.state.Opening?
    requires current.movement.Closing? <==> current.state.Closing?
    requires !current.movement.None? ==> current.lastMovement == current.movement
    requires !event.Boot?
    ensures var t := Reduce(current, event, context);
            && (t.next.movement.None? ==> t.next.lastMovement == current.lastMovement)
            && (!t.next.movement.None? ==> t.next.lastMovement == t.next.movement)
            && (event in {ExternalStopped, OpeningTimerExpired, ClosingTimerExpired} && t.next.movement.None? ==>
                  && (current.movement.Opening? ==> t.next.state == StoppedOpening)
                  && (current.movement.Closing? ==> t.next.state == StoppedClosing))
            && (event.ExternalStopped? ==> t.next.movement.None? && t.effects.cancelTravel)
            && (event.ExternalOpening? ==> t.next.state == State.Opening && t.next.target == Target.Open)
            && (event.ExternalClosing? ==> t.next.state == State.Closing && t.next.target == Target.Closed)
  {
  }

  /** Which events raise and clear which faults. */
  lemma FaultsMean(current: Snapshot, event: Event, context: Context)
    requires !event.Boot? && !event.ObservationStable?
    ensures var t := Reduce(current, event, context);
            t.next.fault == match event
                            case DecoderObstructed => DecodedObstruction
                            case DecoderFaulty => DecoderFault
                            case DecoderHealthy =>
                              if current.fault == DecodedObstruction || current.fault == DecoderFault then NoFault
                              else current.fault
                            case OpeningTimerExpired => if current.state.Opening? then TravelTimeout else current.fault
                            case ClosingTimerExpired => if current.state.Closing? then TravelTimeout else current.fault
                            case ObstructionAcknowledged =>
                              if current.state.Closing? || current.fault == FeedbackContradiction then current.fault
                              else NoFault
                            case _ => current.fault
  {
  }

  /** With one button, a moving gate is turned round by asking twice: the first press stops it, the
      second, once the first pulse is over, sends it back. */
  lemma AskingTwiceReverses(current: Snapshot, requested: Target)
    requires ReadyForCommands(current) && current.state in {State.Opening, State.Closing}
    requires !Towards(current.state, requested)
    ensures var stopped := Reduce(current, TargetRequested(requested), ONE_BUTTON).next;
            var again := Reduce(Reduce(stopped, PulseCompleted, ONE_BUTTON).next, TargetRequested(requested),
                                ONE_BUTTON);
            && stopped.movement.None? && Towards(again.next.state, requested) && again.next.target == requested
            && again.effects.command == Step
  {
  }
}

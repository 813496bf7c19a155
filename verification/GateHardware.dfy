/** The actuator outputs. A GPIO write can fail, and then leaves the level as it was. */
module GateHardware {
  import opened AppConfigModel
  import C = GateController

  const PIN_COUNT: nat := 40

  datatype Status = Ok | InvalidState | InvalidArg | WriteFailed

  /** The outputs driven by the profile are real, distinct pins. */
  ghost predicate PinsOk(operator: OperatorConfig) {
    var outputs := Outputs(operator);
    && !operator.profile.OtherProfile?
    && (forall i | 0 <= i < |outputs| :: IsSafeGpio(outputs[i].gpio, true))
    && (forall i, j | 0 <= i < j < |outputs| :: outputs[i].gpio != outputs[j].gpio)
  }

  lemma DrivenPins(operator: OperatorConfig)
    requires PinsOk(operator)
    ensures !operator.profile.OtherProfile?
    ensures operator.profile.Sequential? ==>
              Outputs(operator) == [operator.step] && IsSafeGpio(operator.step.gpio, true)
    ensures operator.profile.Directional? ==>
              && Outputs(operator) == [operator.open, operator.close] && operator.open.gpio != operator.close.gpio
              && IsSafeGpio(operator.open.gpio, true) && IsSafeGpio(operator.close.gpio, true)
  {
    assert operator.profile.Sequential? ==> Outputs(operator)[0] == operator.step;
    assert operator.profile.Directional? ==>
             Outputs(operator)[0] == operator.open && Outputs(operator)[1] == operator.close;
  }

  predicate OutputLevel(output: PulseOutputConfig, active: bool) {
    active == (output.activeLevel == HighLevel)
  }

  predicate HasOutput(operator: OperatorConfig, command: C.ActuatorCommand) {
    match command
    case Step => operator.profile.Sequential?
    case Open => operator.profile.Directional?
    case Close => operator.profile.Directional?
    case None => false
  }

  function OutputFor(operator: OperatorConfig, command: C.ActuatorCommand): PulseOutputConfig
    requires HasOutput(operator, command)
  {
    match command
    case Step => operator.step
    case Open => operator.open
    case Close => operator.close
  }

  /** The output of a command drives its relay. */
  predicate Raised(operator: OperatorConfig, levels: seq<bool>, command: C.ActuatorCommand) {
    && HasOutput(operator, command)
    && var output := OutputFor(operator, command);
       0 <= output.gpio < |levels| && levels[output.gpio] == OutputLevel(output, true)
  }

  ghost predicate NoneRaised(operator: OperatorConfig, levels: seq<bool>) {
    forall c: C.ActuatorCommand :: !Raised(operator, levels, c)
  }

  ghost predicate OnlyRaised(operator: OperatorConfig, levels: seq<bool>, command: C.ActuatorCommand) {
    forall c: C.ActuatorCommand :: Raised(operator, levels, c) <==> c == command
  }

  /** The raised outputs are the one a command asks for; none, when there is no command. */
  ghost predicate ShowsCommand(operator: OperatorConfig, levels: seq<bool>, command: C.ActuatorCommand) {
    forall c: C.ActuatorCommand :: Raised(operator, levels, c) <==> c == command && !c.None?
  }

  ghost predicate AtMostOneRaised(operator: OperatorConfig, levels: seq<bool>) {
    forall c: C.ActuatorCommand, d: C.ActuatorCommand ::
      Raised(operator, levels, c) && Raised(operator, levels, d) ==> c == d
  }

  /** No output is raised that was not raised before. */
  ghost predicate NoneAdded(operator: OperatorConfig, before: seq<bool>, after: seq<bool>) {
    forall c: C.ActuatorCommand :: Raised(operator, after, c) ==> Raised(operator, before, c)
  }

  /** The levels once a command's output has been driven. */
  function Driven(operator: OperatorConfig, levels: seq<bool>, command: C.ActuatorCommand, active: bool): seq<bool>
    requires HasOutput(operator, command) && 0 <= OutputFor(operator, command).gpio < |levels|
  {
    var output := OutputFor(operator, command);
    levels[output.gpio := OutputLevel(output, active)]
  }

  /** Driving one output raises or lowers that one and no other. */
  lemma DrivingOne(operator: OperatorConfig, levels: seq<bool>, command: C.ActuatorCommand, active: bool)
    requires PinsOk(operator) && |levels| == PIN_COUNT && HasOutput(operator, command)
    ensures 0 <= OutputFor(operator, command).gpio < PIN_COUNT
    ensures forall c: C.ActuatorCommand ::
              Raised(operator, Driven(operator, levels, command, active), c)
              <==> if c == command then active else Raised(operator, levels, c)
  {
    DrivenPins(operator);
  }

  /** The pin stands at the level that drives its relay. */
  predicate Drives(levels: seq<bool>, output: PulseOutputConfig) {
    0 <= output.gpio < |levels| && levels[output.gpio] == (output.activeLevel == HighLevel)
  }

  /** What the pins do, relay by relay: the one that the command is for is driven, and no other. */
  predicate PinsShow(operator: OperatorConfig, levels: seq<bool>, command: C.ActuatorCommand) {
    if operator.profile.Sequential? then Drives(levels, operator.step) == command.Step?
    else Drives(levels, operator.open) == command.Open? && Drives(levels, operator.close) == command.Close?
  }

  /** The commands speak of the pins. */
  lemma PinsShowCommands(operator: OperatorConfig, levels: seq<bool>, command: C.ActuatorCommand)
    requires PinsOk(operator) && |levels| == PIN_COUNT
    ensures HasOutput(operator, command) && OnlyRaised(operator, levels, command) ==>
              PinsShow(operator, levels, command)
    ensures NoneRaised(operator, levels) ==> PinsShow(operator, levels, C.ActuatorCommand.None)
  {
    DrivenPins(operator);
    assert operator.profile.Sequential? ==>
             (Raised(operator, levels, C.Step) <==> Drives(levels, operator.step));
    assert operator.profile.Directional? ==>
             && (Raised(operator, levels, C.ActuatorCommand.Open) <==> Drives(levels, operator.open))
             && (Raised(operator, levels, C.Close) <==> Drives(levels, operator.close));
  }

  class GateHardware {
    const operator: OperatorConfig
    var levels: seq<bool>
    var currentCommand: C.ActuatorCommand
    var monitorActive: bool
    /** The commands whose pins have been made outputs, each while it was not driving its relay. */
    ghost var directed: set<C.ActuatorCommand>
    /** Every write of a level so far has succeeded. */
    ghost var allWritten: bool
    /** Every change of a direction so far has succeeded. */
    ghost var allDirected: bool

    ghost predicate Valid()
      reads this`levels
    {
      |levels| == PIN_COUNT && PinsOk(operator)
    }

    /** Pins power up at any level. */
    constructor (operator: OperatorConfig, levels: seq<bool>)
      requires |levels| == PIN_COUNT && PinsOk(operator)
      ensures this.operator == operator && Valid() && currentCommand.None? && !monitorActive
      ensures allWritten && allDirected
    {
      this.operator, this.levels, currentCommand, monitorActive := operator, levels, C.ActuatorCommand.None, false;
      allWritten, allDirected, directed := true, true, {};
    }

    method SetOutput(command: C.ActuatorCommand, active: bool) returns (status: Status)
      requires Valid() && HasOutput(operator, command)
      modifies this`levels, this`allWritten
      ensures Valid() && status in {Ok, WriteFailed} && allWritten == (old(allWritten) && status.Ok?)
      ensures status.Ok? ==> forall c: C.ActuatorCommand ::
                Raised(operator, levels, c) <==> if c == command then active else Raised(operator, old(levels), c)
      ensures !status.Ok? ==> levels == old(levels)
    {
      DrivingOne(operator, levels, command, active);
      hide PinsOk, Raised;
      if * {
        var output := OutputFor(operator, command);
        levels, status := levels[output.gpio := OutputLevel(output, active)], Ok;
        assert levels == Driven(operator, old(levels), command, active);
      } else {
        status, allWritten := WriteFailed, false;
      }
    }

    /** Lowers every output it can; the first error is reported, later outputs are lowered all the same. */
    method DeactivateAll() returns (status: Status)
      requires Valid()
      modifies this`levels, this`currentCommand, this`allWritten
      ensures Valid() && status in {Ok, WriteFailed} && currentCommand.None?
      ensures allWritten == (old(allWritten) && status.Ok?)
      ensures NoneAdded(operator, old(levels), levels)
      ensures status.Ok? ==> NoneRaised(operator, levels) && PinsShow(operator, levels, C.ActuatorCommand.None)
    {
      DrivenPins(operator);
      hide PinsOk, PinsShow;
      currentCommand := C.ActuatorCommand.None;
      status := Ok;
      if operator.profile == Sequential {
        if operator.step.gpio >= 0 {
          var result := SetOutput(C.Step, false);
          if status.Ok? && !result.Ok? { status := result; }
        }
      } else {
        if operator.open.gpio >= 0 {
          var result := SetOutput(C.ActuatorCommand.Open, false);
          if status.Ok? && !result.Ok? { status := result; }
        }
        if operator.close.gpio >= 0 {
          var result := SetOutput(C.Close, false);
          if status.Ok? && !result.Ok? { status := result; }
        }
      }
      PinsShowCommands(operator, levels, C.ActuatorCommand.None);
    }

    /** On success exactly the commanded output is raised. On failure none is raised that was not
        raised before; so at most one ever is, whichever writes fail. */
    method ActivateCommand(command: C.ActuatorCommand) returns (status: Status)
      requires Valid()
      modifies this`levels, this`currentCommand, this`allWritten
      ensures Valid()
      ensures allWritten ==> old(allWritten) && status in {Ok, InvalidState, InvalidArg}
      ensures status.InvalidState? ==> levels == old(levels) && currentCommand == old(currentCommand)
      ensures status.Ok? ==> OnlyRaised(operator, levels, command) && currentCommand == command
      ensures status.Ok? ==> HasOutput(operator, command) && PinsShow(operator, levels, command)
      ensures !status.Ok? ==> NoneAdded(operator, old(levels), levels)
                              && currentCommand in {C.ActuatorCommand.None, old(currentCommand)}
      ensures old(AtMostOneRaised(operator, levels)) ==> AtMostOneRaised(operator, levels)
      ensures status.InvalidState? <==> !monitorActive || command.None? || !old(currentCommand).None?
      ensures status.InvalidArg? <==> !status.InvalidState? && operator.profile.Sequential? != command.Step?
    {
      hide PinsOk, Raised, PinsShow;
      assert !operator.profile.OtherProfile? by {
        DrivenPins(operator);
      }
      if !monitorActive || command.None? || !currentCommand.None? {
        return InvalidState;
      }
      currentCommand := command;
      if !HasOutput(operator, command) {
        currentCommand := C.ActuatorCommand.None;
        return InvalidArg;
      }
      status := DeactivateAll();
      currentCommand := command;
      if status.Ok? {
        status := SetOutput(command, true);
        PinsShowCommands(operator, levels, command);
      }
      if !status.Ok? {
        var _ := DeactivateAll();
      }
    }

    /** Makes a pin an output. What level it then stands at is left open. */
    method SetDirection(command: C.ActuatorCommand) returns (status: Status)
      requires Valid() && HasOutput(operator, command)
      modifies this`levels, this`directed, this`allDirected
      ensures Valid() && status in {Ok, WriteFailed} && allDirected == (old(allDirected) && status.Ok?)
      ensures status.Ok? && !Raised(operator, old(levels), command) ==> directed == old(directed) + {command}
      ensures !status.Ok? || Raised(operator, old(levels), command) ==> directed == old(directed)
      ensures forall c: C.ActuatorCommand ::
                c != command ==> (Raised(operator, levels, c) <==> Raised(operator, old(levels), c))
    {
      DrivenPins(operator);
      if * {
        allDirected := false;
        return WriteFailed;
      }
      if !Raised(operator, levels, command) { directed := directed + {command}; }
      var active: bool := *;
      levels := Driven(operator, levels, command, active);
      status := Ok;
    }

    /** Outputs are driven inactive before and after they become outputs; only a start without a
        failed write leaves monitoring on. */
    method StartMonitoring() returns (status: Status)
      requires Valid() && !monitorActive
      modifies this
      ensures Valid() && currentCommand.None? && monitorActive == status.Ok?
      ensures allWritten ==> old(allWritten)
      ensures allWritten && allDirected ==> status.Ok?
      ensures status.Ok? || allWritten ==>
                NoneRaised(operator, levels) && PinsShow(operator, levels, C.ActuatorCommand.None)
      ensures status.Ok? ==> forall c: C.ActuatorCommand :: HasOutput(operator, c) ==> c in directed
    {
      hide PinsOk, PinsShow;
      directed := {};
      currentCommand := C.ActuatorCommand.None;
      var commands := if operator.profile == Sequential then [C.Step] else [C.ActuatorCommand.Open, C.Close];
      DrivenPins(operator);
      assert forall k | 0 <= k < |commands| :: HasOutput(operator, commands[k]);
      status := Ok;
      for i := 0 to |commands|
        invariant Valid() && currentCommand.None? && !monitorActive && (allWritten ==> old(allWritten))
        invariant forall k | 0 <= k < i :: !Raised(operator, levels, commands[k]) && commands[k] in directed
      {
        status := SetOutput(commands[i], false);
        if status.Ok? { status := SetDirection(commands[i]); }
        if status.Ok? { status := SetOutput(commands[i], false); }
        if !status.Ok? {
          var _ := DeactivateAll();
          return;
        }
      }
      assert commands == [C.Step] ==> !Raised(operator, levels, commands[0]);
      assert |commands| == 2 ==> !Raised(operator, levels, commands[0]) && !Raised(operator, levels, commands[1]);
      PinsShowCommands(operator, levels, C.ActuatorCommand.None);
      status, monitorActive := Ok, true;
    }
  }
}

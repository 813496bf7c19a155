/** The owner task wakes its decoder in time: what its waits make of the decoder is a punctual run, so
    that sleeping costs the firmware nothing that polling would have seen. */
module RuntimeWakes {
  import opened Ticks
  import opened RuntimeModel
  import opened RuntimeInvariants
  import opened RuntimeSleep
  import opened RuntimeRuns
  import opened W = DecoderWrap
  import C = GateController
  import D = DecoderModel
  import E = DecoderEvaluation
  import R = DecoderRuns

  // ---- The calls a step makes on its decoder ----

  /** A step with its real instants and the wait that the task had computed before it. */
  datatype Wake = Wake(timed: TimedStep, sampledAt: int, wait: D.Option<nat>)

  /** An update, or a first value when the update is refused, or nothing when both are. */
  ghost function LevelCall(decoder: D.CompiledDecoder, m: R.Machine, level: FeedbackLevel, at: int): seq<R.Timed>
    requires D.CompiledOk(decoder) && D.StateShaped(decoder, m.state)
  {
    var update, first := R.Update(level.id, level.level), R.Initialize(level.id, level.level);
    if R.Accepted(Unbounded, decoder, m, update, at) then [R.Timed(update, at)]
    else if R.Accepted(Unbounded, decoder, m, first, at) then [R.Timed(first, at)]
    else []
  }

  ghost function LevelCalls(decoder: D.CompiledDecoder, m: R.Machine, levels: seq<FeedbackLevel>, at: int,
      n: nat): seq<R.Timed>
    requires D.CompiledOk(decoder) && D.StateShaped(decoder, m.state) && n <= |levels|
  {
    if n == 0 then []
    else
      var before := LevelCalls(decoder, m, levels, at, n - 1);
      before + LevelCall(decoder, R.Run(Unbounded, decoder, m, before), levels[n - 1], at)
  }

  ghost function Calls(decoder: D.CompiledDecoder, m: R.Machine, wake: Wake): seq<R.Timed>
    requires D.CompiledOk(decoder) && D.StateShaped(decoder, m.state)
  {
    var at := wake.timed.at;
    match wake.timed.step
    case Timers => if m.deadline.At? && m.deadline.at <= at then [R.Timed(R.Advance, at)] else []
    case Sampled(sample) =>
      LevelCalls(decoder, m, sample.levels, wake.sampledAt, |sample.levels|) + [R.Timed(R.Advance, at)]
    case _ => []
  }

  // ---- Prompt tasks ----

  /** The timers are looked at when the wait is over at the latest, and a message ends the wait. */
  ghost predicate InWait(view: View, t: int, wake: Wake) {
    && t <= wake.timed.at && IsWait(Armed(view), Wrap(t), wake.wait)
    && (wake.wait.Some? ==>
          if wake.timed.step.Timers? then wake.timed.at <= t + wake.wait.value
          else wake.timed.at < t + wake.wait.value)
  }

  /** A sample is taken over before the wake-up that it brings about. */
  ghost predicate SampleInTime(decoder: D.CompiledDecoder, m: R.Machine, wake: Wake)
    requires D.CompiledOk(decoder) && D.StateShaped(decoder, m.state) && wake.timed.step.Sampled?
  {
    var sample := wake.timed.step.sample;
    var fed := R.Run(Unbounded, decoder, m, LevelCalls(decoder, m, sample.levels, wake.sampledAt, |sample.levels|));
    && sample.timestamp == Wrap(wake.sampledAt) && wake.sampledAt <= wake.timed.at
    && (fed.deadline.At? ==> wake.timed.at <= fed.deadline.at)
  }

  /** The decoder's calls stay within what its 32-bit clock can tell apart. */
  ghost predicate WakeInHorizon(decoder: D.CompiledDecoder, m: R.Machine, wake: Wake)
    requires D.CompiledOk(decoder) && D.StateShaped(decoder, m.state)
  {
    && InHorizon(decoder, m, Calls(decoder, m, wake))
    && (wake.timed.step.Sampled? && m.timeValid ==> -HALF <= wake.sampledAt - m.lastNow < HALF)
  }

  ghost predicate PromptWake(decoder: D.CompiledDecoder, view: View, m: R.Machine, t: int, wake: Wake)
    requires D.CompiledOk(decoder) && D.StateShaped(decoder, m.state)
  {
    && InWait(view, t, wake) && WakeInHorizon(decoder, m, wake)
    && (wake.timed.step.Sampled? ==> SampleInTime(decoder, m, wake))
  }

  function Steps(wakes: seq<Wake>): (steps: seq<TimedStep>)
    ensures |steps| == |wakes|
  {
    seq(|wakes|, i requires 0 <= i < |wakes| => wakes[i].timed)
  }

  // ---- Runs in two parts ----

  lemma {:induction false} RunJoins(clock: Clock, decoder: D.CompiledDecoder, m: R.Machine, a: seq<R.Timed>,
      b: seq<R.Timed>)
    requires D.CompiledOk(decoder) && D.StateShaped(decoder, m.state)
    ensures R.Run(clock, decoder, m, a + b) == R.Run(clock, decoder, R.Run(clock, decoder, m, a), b)
    decreases |a|
  {
    hide D.CompiledOk, R.Apply;
    if a == [] {
      assert a + b == b;
    } else {
      assert (a + b)[1..] == a[1..] + b;
      RunJoins(clock, decoder, R.Apply(clock, decoder, m, a[0].event, a[0].at), a[1..], b);
    }
  }

  lemma {:induction false} HorizonSplits(decoder: D.CompiledDecoder, m: R.Machine, a: seq<R.Timed>, b: seq<R.Timed>)
    requires D.CompiledOk(decoder) && D.StateShaped(decoder, m.state) && InHorizon(decoder, m, a + b)
    ensures InHorizon(decoder, m, a) && InHorizon(decoder, R.Run(Unbounded, decoder, m, a), b)
    decreases |a|
  {
    hide D.CompiledOk, R.Apply, CallInHorizon;
    if a == [] {
      assert a + b == b;
    } else {
      assert (a + b)[1..] == a[1..] + b;
      HorizonSplits(decoder, R.Apply(Unbounded, decoder, m, a[0].event, a[0].at), a[1..], b);
    }
  }

  lemma {:induction false} PunctualJoins(decoder: D.CompiledDecoder, m: R.Machine, a: seq<R.Timed>, middle: int,
      b: seq<R.Timed>, end: int)
    requires D.CompiledOk(decoder) && D.StateShaped(decoder, m.state) && middle <= end
    requires R.Punctual(decoder, m, a, middle)
    requires R.Punctual(decoder, R.Run(Unbounded, decoder, m, a), b, end)
    ensures R.Punctual(decoder, m, a + b, end)
    decreases |a|
  {
    hide D.CompiledOk, R.Apply;
    if a == [] {
      assert a + b == b;
    } else {
      assert (a + b)[1..] == a[1..] + b;
      PunctualJoins(decoder, R.Apply(Unbounded, decoder, m, a[0].event, a[0].at), a[1..], middle, b, end);
    }
  }

  // ---- What the task's view shows ----

  /** The view at `t` shows the decoder of real time, whose wake-up is still to come and near. */
  ghost predicate Shows(config: Config, view: View, m: R.Machine, t: int) {
    && config.decoder.Some? && view.machine == D.Some(WrapMachine(m))
    && R.Resting(config.decoder.value, m)
    && (m.timeValid ==> m.lastNow <= t)
    && (m.deadline.At? ==> m.timeValid && t < m.deadline.at < m.lastNow + HALF)
  }

  /** A wait never outlasts the decoder's wake-up. */
  lemma WaitEndsInTime(config: Config, view: View, m: R.Machine, t: int, wake: Wake)
    requires Shows(config, view, m, t) && InWait(view, t, wake) && m.deadline.At?
    ensures if wake.timed.step.Timers? then wake.timed.at <= m.deadline.at else wake.timed.at < m.deadline.at
  {
    hide R.Resting, ArmedTimers, Remaining;
    var ats := Armed(view);
    assert ats[|ats| - 1] == Wrap(m.deadline.at);
    RemainingInRealTime(t, m.deadline.at);
  }

  lemma RemainingInRealTime(t: int, at: int)
    requires t < at < t + HALF
    ensures Remaining(Wrap(t), Wrap(at)) <= at - t
  {
    assert (Wrap(at) - Wrap(t)) % WRAP == (at - t) % WRAP;
  }

  /** The wake-up after an accepted call is near. */
  lemma NextDeadlineIsNear(decoder: D.CompiledDecoder, m: R.Machine, event: R.Event, at: int)
    requires R.Resting(decoder, m) && CallInHorizon(decoder, m, event, at)
    requires R.Accepted(Unbounded, decoder, m, event, at)
    ensures var after := R.Apply(Unbounded, decoder, m, event, at);
            && R.Resting(decoder, after) && after.timeValid && after.lastNow == at
            && (after.deadline.At? ==> at < after.deadline.at < at + HALF)
  {
    R.ApplyKeepsResting(decoder, m, event, at);
    R.DeadlineIsAhead(decoder, R.Apply(Unbounded, decoder, m, event, at));
    var recorded := R.Record(decoder, m.state, event, at);
    hide D.CompiledOk, R.Resting, W.Fresh, E.AllCandidates, R.Record;
    AllCandidatesWrap(decoder, recorded, at);
    E.DeadlineIsNearest(Unbounded, decoder, recorded, at);
  }

  /** What is decided about a call is decided alike on both clocks. */
  lemma AcceptedAlike(decoder: D.CompiledDecoder, m: R.Machine, event: R.Event, at: int)
    requires D.StateShaped(decoder, m.state) && (m.timeValid ==> -HALF <= at - m.lastNow < HALF)
    ensures D.StateShaped(decoder, WrapMachine(m).state)
    ensures R.Accepted(Wrapping, decoder, WrapMachine(m), event, Wrap(at))
         == R.Accepted(Unbounded, decoder, m, event, at)
  {
    StateStaysShaped(decoder, m.state);
    RecordWraps(decoder, m.state, event, at);
    TimeOrderWraps(m, at);
  }

  lemma LevelShows(decoder: D.CompiledDecoder, m: R.Machine, level: FeedbackLevel, at: int)
    requires D.CompiledOk(decoder) && D.StateShaped(decoder, m.state)
    requires InHorizon(decoder, m, LevelCall(decoder, m, level, at))
    requires m.timeValid ==> -HALF <= at - m.lastNow < HALF
    ensures D.StateShaped(decoder, WrapMachine(m).state)
    ensures FeedLevel(decoder, WrapMachine(m), level, Wrap(at))
         == WrapMachine(R.Run(Unbounded, decoder, m, LevelCall(decoder, m, level, at)))
  {
    var update, first := R.Update(level.id, level.level), R.Initialize(level.id, level.level);
    AcceptedAlike(decoder, m, update, at);
    AcceptedAlike(decoder, m, first, at);
    hide D.CompiledOk, D.StateShaped, CallInHorizon, E.Evaluate, R.Accepted, WrapState, R.Record;
    if R.Accepted(Unbounded, decoder, m, update, at) {
      ApplyWraps(decoder, m, update, at);
    } else if R.Accepted(Unbounded, decoder, m, first, at) {
      ApplyWraps(decoder, m, first, at);
    }
  }

  /** The decoder between two levels of a sample taken at `at`. */
  ghost predicate BetweenLevels(decoder: D.CompiledDecoder, m: R.Machine, fed: R.Machine, at: int) {
    && R.Resting(decoder, fed)
    && (fed.timeValid ==> -HALF <= at - fed.lastNow < HALF)
    && (fed == m || (fed.timeValid && fed.lastNow == at))
    && (fed.deadline.At? ==> fed.timeValid && at < fed.deadline.at)
  }

  lemma CallInTime(decoder: D.CompiledDecoder, m: R.Machine, fed: R.Machine, event: R.Event, at: int)
    requires BetweenLevels(decoder, m, fed, at) && R.Accepted(Unbounded, decoder, fed, event, at)
    requires InHorizon(decoder, fed, [R.Timed(event, at)])
    ensures var call := [R.Timed(event, at)];
            && BetweenLevels(decoder, m, R.Run(Unbounded, decoder, fed, call), at)
            && R.Punctual(decoder, fed, call, at)
  {
    assert D.CompiledOk(decoder) && D.StateShaped(decoder, fed.state);
    hide D.CompiledOk, D.StateShaped, R.Apply, R.Resting, R.Meaningful, W.Fresh;
    NextDeadlineIsNear(decoder, fed, event, at);
  }

  lemma LevelInTime(decoder: D.CompiledDecoder, m: R.Machine, fed: R.Machine, level: FeedbackLevel, at: int)
    requires BetweenLevels(decoder, m, fed, at) && InHorizon(decoder, fed, LevelCall(decoder, fed, level, at))
    ensures var call := LevelCall(decoder, fed, level, at);
            && BetweenLevels(decoder, m, R.Run(Unbounded, decoder, fed, call), at)
            && R.Punctual(decoder, fed, call, at)
  {
    assert D.CompiledOk(decoder) && D.StateShaped(decoder, fed.state);
    var update, first := R.Update(level.id, level.level), R.Initialize(level.id, level.level);
    hide D.CompiledOk, D.StateShaped, R.Apply, R.Resting, R.Accepted, CallInHorizon;
    if R.Accepted(Unbounded, decoder, fed, update, at) {
      CallInTime(decoder, m, fed, update, at);
    } else if R.Accepted(Unbounded, decoder, fed, first, at) {
      CallInTime(decoder, m, fed, first, at);
    }
  }

  lemma {:induction false} LevelsShow(decoder: D.CompiledDecoder, m: R.Machine, sample: FeedbackSample, at: int, n: nat)
    requires R.Resting(decoder, m) && n <= |sample.levels| && sample.timestamp == Wrap(at)
    requires InHorizon(decoder, m, LevelCalls(decoder, m, sample.levels, at, n))
    requires BetweenLevels(decoder, m, m, at)
    ensures var calls := LevelCalls(decoder, m, sample.levels, at, n);
            var fed := R.Run(Unbounded, decoder, m, calls);
            && D.StateShaped(decoder, WrapMachine(m).state)
            && FeedLevels(decoder, WrapMachine(m), sample, n) == WrapMachine(fed)
            && BetweenLevels(decoder, m, fed, at) && R.Punctual(decoder, m, calls, at)
  {
    hide D.CompiledOk, LevelCall, R.Apply, FeedLevel, CallInHorizon;
    StateStaysShaped(decoder, m.state);
    if n > 0 {
      var before := LevelCalls(decoder, m, sample.levels, at, n - 1);
      var fed := R.Run(Unbounded, decoder, m, before);
      var call := LevelCall(decoder, fed, sample.levels[n - 1], at);
      HorizonSplits(decoder, m, before, call);
      LevelsShow(decoder, m, sample, at, n - 1);
      hide R.Punctual, InHorizon, R.Resting;
      LevelShows(decoder, fed, sample.levels[n - 1], at);
      LevelInTime(decoder, m, fed, sample.levels[n - 1], at);
      RunJoins(Unbounded, decoder, m, before, call);
      PunctualJoins(decoder, m, before, at, call, at);
    }
  }

  // ---- Steps ----

  lemma MessagesKeepMachine(config: Config, view: View, event: C.Event, now: Tick, activated: bool)
    ensures ApplyEvent(config, view, event, now, activated).machine == view.machine
  {
    hide C.Reduce, Config.PulseMs, CanStart;
  }

  lemma TimersKeepMachine(config: Config, view: View, now: Tick)
    requires Shaped(config, view)
    ensures ProcessExpired(config, view, now).machine == ExpireDecoder(config, view, now).machine
  {
    hide ExpireDecoder, ApplyEvent, Due;
    forall v: View, e: C.Event
      ensures ApplyEvent(config, v, e, now, false).machine == v.machine
    {
      MessagesKeepMachine(config, v, e, now, false);
    }
  }

  lemma AdvanceInTime(decoder: D.CompiledDecoder, fed: R.Machine, at: int)
    requires R.Resting(decoder, fed) && InHorizon(decoder, fed, [R.Timed(R.Advance, at)])
    requires (fed.timeValid ==> fed.lastNow <= at) && (fed.deadline.At? ==> at <= fed.deadline.at)
    ensures var after := R.Apply(Unbounded, decoder, fed, R.Advance, at);
            && R.Punctual(decoder, fed, [R.Timed(R.Advance, at)], at)
            && R.Run(Unbounded, decoder, fed, [R.Timed(R.Advance, at)]) == after
            && R.Resting(decoder, after) && after.timeValid && after.lastNow == at
            && (after.deadline.At? ==> at < after.deadline.at < at + HALF)
  {
    assert D.CompiledOk(decoder) && D.StateShaped(decoder, fed.state);
    hide D.CompiledOk, D.StateShaped, R.Apply, R.Resting, W.Fresh;
    NextDeadlineIsNear(decoder, fed, R.Advance, at);
  }

  /** One advance of the decoder at `at`. */
  lemma AdvanceShows(config: Config, view: View, fed: R.Machine, at: int)
    requires config.decoder.Some? && R.Resting(config.decoder.value, fed)
    requires InHorizon(config.decoder.value, fed, [R.Timed(R.Advance, at)])
    requires (fed.timeValid ==> fed.lastNow <= at) && (fed.deadline.At? ==> at <= fed.deadline.at)
    ensures D.StateShaped(config.decoder.value, WrapMachine(fed).state)
    ensures var (decoder, call) := (config.decoder.value, [R.Timed(R.Advance, at)]);
            && Shows(config, AdvanceDecoder(config, view, WrapMachine(fed), Wrap(at)),
                     R.Run(Unbounded, decoder, fed, call), at)
            && R.Punctual(decoder, fed, call, at)
  {
    var decoder := config.decoder.value;
    StateStaysShaped(decoder, fed.state);
    AdvanceInTime(decoder, fed, at);
    hide D.CompiledOk, D.StateShaped, R.Apply, R.Resting, R.Run, R.Punctual, AdvanceDecoder, W.Fresh, WrapMachine;
    ApplyWraps(decoder, fed, R.Advance, at);
    AdvanceKeepsMachine(config, view, WrapMachine(fed), Wrap(at));
  }

  /** A wake-up less than half a wrap away is due on both clocks or on neither. */
  lemma DueAlike(m: R.Machine, at: int)
    requires m.deadline.At? && -HALF <= at - m.deadline.at < HALF
    ensures DecoderDue(WrapMachine(m), Wrap(at)) <==> m.deadline.at <= at
  {
    WrappedAhead(m.deadline.at, at);
  }

  lemma TimersShow(config: Config, view: View, m: R.Machine, t: int, wake: Wake)
    requires Shaped(config, view) && Shows(config, view, m, t) && wake.timed.step.Timers?
    requires PromptWake(config.decoder.value, view, m, t, wake)
    ensures var (decoder, at) := (config.decoder.value, wake.timed.at);
            var calls := Calls(decoder, m, wake);
            && Shows(config, ProcessExpired(config, view, Wrap(at)), R.Run(Unbounded, decoder, m, calls), at)
            && R.Punctual(decoder, m, calls, at)
  {
    var at := wake.timed.at;
    TimersKeepMachine(config, view, Wrap(at));
    if m.deadline.At? {
      WaitEndsInTime(config, view, m, t, wake);
      DueAlike(m, at);
    }
    hide D.CompiledOk, R.Resting, AdvanceDecoder, ProcessExpired, WrapState, InWait, DecoderDue, Wrap;
    if m.deadline.At? && m.deadline.at <= at {
      AdvanceShows(config, view, m, at);
    }
  }

  lemma SampleShows(config: Config, view: View, m: R.Machine, t: int, wake: Wake)
    requires Shaped(config, view) && Shows(config, view, m, t) && wake.timed.step.Sampled?
    requires PromptWake(config.decoder.value, view, m, t, wake)
    ensures var (decoder, at) := (config.decoder.value, wake.timed.at);
            var calls := Calls(decoder, m, wake);
            && Shows(config, ConsumeSample(config, view, wake.timed.step.sample, Wrap(at)),
                     R.Run(Unbounded, decoder, m, calls), at)
            && R.Punctual(decoder, m, calls, at)
  {
    var (decoder, at, sample) := (config.decoder.value, wake.timed.at, wake.timed.step.sample);
    if m.deadline.At? {
      WaitEndsInTime(config, view, m, t, wake);
    }
    hide D.CompiledOk, R.Resting, AdvanceDecoder, LevelCalls, FeedLevels, R.Run, R.Punctual, InHorizon, InWait,
      WrapMachine;
    var calls := LevelCalls(decoder, m, sample.levels, wake.sampledAt, |sample.levels|);
    var advance := [R.Timed(R.Advance, at)];
    HorizonSplits(decoder, m, calls, advance);
    LevelsShow(decoder, m, sample, wake.sampledAt, |sample.levels|);
    var fed := R.Run(Unbounded, decoder, m, calls);
    AdvanceShows(config, view, fed, at);
    RunJoins(Unbounded, decoder, m, calls, advance);
    PunctualJoins(decoder, m, calls, wake.sampledAt, advance, at);
  }

  lemma WakeShows(config: Config, view: View, m: R.Machine, t: int, wake: Wake)
    requires Shaped(config, view) && Shows(config, view, m, t) && Possible(config, wake.timed.step)
    requires PromptWake(config.decoder.value, view, m, t, wake)
    ensures var (decoder, at) := (config.decoder.value, wake.timed.at);
            var calls := Calls(decoder, m, wake);
            && Shows(config, Next(config, view, wake.timed.step, Wrap(at)), R.Run(Unbounded, decoder, m, calls), at)
            && R.Punctual(decoder, m, calls, at)
  {
    hide D.CompiledOk, R.Resting, InWait, WakeInHorizon, ApplyEvent, ProcessExpired, ConsumeSample, WrapMachine;
    var now := Wrap(wake.timed.at);
    match wake.timed.step
    case Timers => TimersShow(config, view, m, t, wake);
    case Sampled(_) => SampleShows(config, view, m, t, wake);
    case Request(target, activated) =>
      MessagesKeepMachine(config, view, C.TargetRequested(target), now, activated);
      QuietMessage(config, view, m, t, wake);
    case BenchPulse(activated) =>
      MessagesKeepMachine(config, view, C.MaintenancePulseRequested(C.Target.Open), now, activated);
      QuietMessage(config, view, m, t, wake);
  }

  lemma QuietMessage(config: Config, view: View, m: R.Machine, t: int, wake: Wake)
    requires Shows(config, view, m, t) && InWait(view, t, wake) && !wake.timed.step.Timers?
    ensures Shows(config, view, m, wake.timed.at) && R.Punctual(config.decoder.value, m, [], wake.timed.at)
  {
    if m.deadline.At? {
      WaitEndsInTime(config, view, m, t, wake);
    }
    hide R.Resting;
  }

  // ---- Runs ----

  /** A task at the instant `t`, with the decoder of real time that its view shows. */
  datatype Task = Task(view: View, m: R.Machine, t: int)

  ghost predicate Sound(config: Config, task: Task) {
    Consistent(config, task.view) && Shows(config, task.view, task.m, task.t)
  }

  ghost predicate MayWake(config: Config, task: Task, wake: Wake)
    requires Sound(config, task)
  {
    Allowed(config, wake.timed.step) && PromptWake(config.decoder.value, task.view, task.m, task.t, wake)
  }

  /** The task after one step, its decoder of real time included. */
  ghost function Woken(config: Config, task: Task, wake: Wake): (next: Task)
    requires Sound(config, task) && MayWake(config, task, wake)
    ensures Sound(config, next) && next.t == wake.timed.at
  {
    WokenIsSound(config, task, wake);
    Task(Next(config, task.view, wake.timed.step, Wrap(wake.timed.at)),
         R.Run(Unbounded, config.decoder.value, task.m, Calls(config.decoder.value, task.m, wake)), wake.timed.at)
  }

  lemma WokenIsSound(config: Config, task: Task, wake: Wake)
    requires Sound(config, task) && MayWake(config, task, wake)
    ensures var (decoder, calls) := (config.decoder.value, Calls(config.decoder.value, task.m, wake));
            && Sound(config, Task(Next(config, task.view, wake.timed.step, Wrap(wake.timed.at)),
                                  R.Run(Unbounded, decoder, task.m, calls), wake.timed.at))
            && task.t <= wake.timed.at && R.Punctual(decoder, task.m, calls, wake.timed.at)
  {
    hide D.CompiledOk, R.Resting, R.Run, R.Punctual, Consistent, Next, Calls, WakeInHorizon, IsWait, WrapMachine;
    NextKeeps(config, task.view, wake.timed.step, Wrap(wake.timed.at));
    WakeShows(config, task.view, task.m, task.t, wake);
  }

  /** The owner task keeps to its waits throughout. */
  ghost predicate Prompt(config: Config, task: Task, wakes: seq<Wake>)
    requires Sound(config, task)
    decreases |wakes|
  {
    wakes != [] ==> MayWake(config, task, wakes[0]) && Prompt(config, Woken(config, task, wakes[0]), wakes[1..])
  }

  ghost function End(config: Config, task: Task, wakes: seq<Wake>): (end: Task)
    requires Sound(config, task) && Prompt(config, task, wakes)
    ensures Sound(config, end)
    decreases |wakes|
  {
    if wakes == [] then task else End(config, Woken(config, task, wakes[0]), wakes[1..])
  }

  ghost function AllCalls(config: Config, task: Task, wakes: seq<Wake>): seq<R.Timed>
    requires Sound(config, task) && Prompt(config, task, wakes)
    decreases |wakes|
  {
    if wakes == [] then []
    else
      Calls(config.decoder.value, task.m, wakes[0]) + AllCalls(config, Woken(config, task, wakes[0]), wakes[1..])
  }

  /** The end is the end of the run of the runtime, and nothing else. */
  lemma {:induction false} EndIsRun(config: Config, task: Task, wakes: seq<Wake>)
    requires Sound(config, task) && Prompt(config, task, wakes)
    ensures AllAllowed(config, Steps(wakes))
    ensures End(config, task, wakes).view == RunTask(config, task.view, Steps(wakes))
    decreases |wakes|
  {
    hide Consistent, Shows, Next, Calls, PromptWake, Allowed, R.Run;
    if wakes != [] {
      EndIsRun(config, Woken(config, task, wakes[0]), wakes[1..]);
      assert Steps(wakes)[1..] == Steps(wakes[1..]);
      assert forall i | 0 < i < |wakes| :: Steps(wakes)[i] == Steps(wakes[1..])[i - 1];
    }
  }

  /** An owner task that keeps to its waits gives its decoder a punctual run, and what it shows is the
      decoder of real time after that run. */
  lemma {:induction false} PromptTasksArePunctual(config: Config, task: Task, wakes: seq<Wake>)
    requires Sound(config, task) && Prompt(config, task, wakes)
    ensures var (decoder, calls) := (config.decoder.value, AllCalls(config, task, wakes));
            var end := End(config, task, wakes);
            && task.t <= end.t && R.Punctual(decoder, task.m, calls, end.t)
            && end.m == R.Run(Unbounded, decoder, task.m, calls)
    decreases |wakes|
  {
    assert config.decoder.Some? && D.CompiledOk(config.decoder.value)
           && D.StateShaped(config.decoder.value, task.m.state);
    hide D.CompiledOk, D.StateShaped, Consistent, R.Resting, Next, Calls, MayWake;
    if wakes != [] {
      var (decoder, next) := (config.decoder.value, Woken(config, task, wakes[0]));
      var (calls, rest) := (Calls(decoder, task.m, wakes[0]), AllCalls(config, next, wakes[1..]));
      WokenIsSound(config, task, wakes[0]);
      PromptTasksArePunctual(config, next, wakes[1..]);
      hide R.Run, R.Punctual, Shows;
      RunJoins(Unbounded, decoder, task.m, calls, rest);
      PunctualJoins(decoder, task.m, calls, next.t, rest, End(config, task, wakes).t);
    }
  }

  /** Sleeping costs nothing: whatever punctual run on the same evidence the decoder had been given, polling
      it every millisecond included, the task would show the same phases, result, number and wake-up. */
  lemma SleepingTasksAgree(config: Config, task: Task, wakes: seq<Wake>, polled: seq<R.Timed>)
    requires Sound(config, task) && Prompt(config, task, wakes)
    requires R.Punctual(config.decoder.value, task.m, polled, End(config, task, wakes).t)
    requires R.Evidence(polled) == R.Evidence(AllCalls(config, task, wakes))
    ensures AllAllowed(config, Steps(wakes))
    ensures var end := RunTask(config, task.view, Steps(wakes));
            var polledEnd := R.Run(Unbounded, config.decoder.value, task.m, polled);
            && end.machine.Some? && end.machine.value.state == WrapState(polledEnd.state)
            && end.machine.value.deadline == WrapDeadline(polledEnd.deadline)
  {
    EndIsRun(config, task, wakes);
    PromptTasksArePunctual(config, task, wakes);
    R.PunctualRunsAgree(config.decoder.value, task.m, task.m, AllCalls(config, task, wakes), polled,
                        End(config, task, wakes).t);
    hide D.CompiledOk, R.Resting, Consistent, R.Punctual, R.Run, Prompt, RunTask, AllCalls, End, WrapState;
  }

  /** The task starts so: consistent, and showing a fresh decoder. */
  lemma StartIsSound(config: Config, at: int)
    requires config.Ok() && config.decoder.Some?
    ensures var started := ApplyEvent(config, InitialView(config), C.Boot(C.Between), Wrap(at), false);
            Sound(config, Task(started, R.InitialMachine(config.decoder.value), at))
  {
    R.InitiallyResting(config.decoder.value);
    InitialWraps(config.decoder.value);
    hide D.CompiledOk, R.Resting;
  }

  // ---- A prompt task can always go on ----

  lemma {:induction false} WaitExists(ats: seq<int>, now: Tick) returns (wait: D.Option<nat>)
    ensures IsWait(ats, now, wait)
  {
    hide Remaining;
    if ats == [] {
      return D.None;
    }
    var n := |ats| - 1;
    var rest := WaitExists(ats[..n], now);
    var last := Remaining(now, ats[n]);
    wait := D.Some(if rest.None? || last < rest.value then last else rest.value);
    if rest.Some? && rest.value <= last {
      var i :| 0 <= i < n && rest.value == Remaining(now, ats[..n][i]);
      assert wait.value == Remaining(now, ats[i]);
    } else {
      assert wait.value == Remaining(now, ats[n]);
    }
    forall i | 0 <= i < n ensures wait.value <= Remaining(now, ats[i]) {
      assert ats[..n][i] == ats[i];
    }
  }

  /** Wherever it is, the task can wait as long as it computed and look at its timers then. */
  lemma NextWake(config: Config, view: View, m: R.Machine, t: int) returns (wake: Wake)
    requires Shows(config, view, m, t)
    requires m.deadline.At? ==> CallInHorizon(config.decoder.value, m, R.Advance, m.deadline.at)
    ensures wake.timed.step.Timers? && PromptWake(config.decoder.value, view, m, t, wake)
  {
    assert D.CompiledOk(config.decoder.value) && D.StateShaped(config.decoder.value, m.state);
    hide D.CompiledOk, D.StateShaped, CallInHorizon, IsWait, R.Resting, R.Apply, Armed;
    var wait := WaitExists(Armed(view), Wrap(t));
    wake := Wake(TimedStep(Timers, t + if wait.Some? then wait.value else 0), 0, wait);
    if m.deadline.At? {
      WaitEndsInTime(config, view, m, t, wake);
      assert [R.Timed(R.Advance, m.deadline.at)][1..] == [];
    }
    assert InHorizon(config.decoder.value, m, Calls(config.decoder.value, m, wake));
  }

  lemma {:induction false} PromptJoins(config: Config, task: Task, wakes: seq<Wake>, wake: Wake)
    requires Sound(config, task) && Prompt(config, task, wakes)
    requires MayWake(config, End(config, task, wakes), wake)
    ensures Prompt(config, task, wakes + [wake])
    decreases |wakes|
  {
    hide Sound, MayWake, Woken;
    if wakes == [] {
      assert wakes + [wake] == [wake];
    } else {
      assert (wakes + [wake])[1..] == wakes[1..] + [wake];
      PromptJoins(config, Woken(config, task, wakes[0]), wakes[1..], wake);
    }
  }

  /** Every prompt run can be continued by looking at the timers in time, as long as the next wake-up of
      the decoder lies within the horizon. */
  lemma PromptTasksGoOn(config: Config, task: Task, wakes: seq<Wake>) returns (wake: Wake)
    requires Sound(config, task) && Prompt(config, task, wakes)
    requires var end := End(config, task, wakes);
             end.m.deadline.At? ==> CallInHorizon(config.decoder.value, end.m, R.Advance, end.m.deadline.at)
    ensures wake.timed.step.Timers? && Prompt(config, task, wakes + [wake])
  {
    hide Consistent, Prompt, End, PromptWake, CallInHorizon, R.Resting;
    var end := End(config, task, wakes);
    wake := NextWake(config, end.view, end.m, end.t);
    PromptJoins(config, task, wakes, wake);
  }
}

/** Runs of the decoder: calls with their instants, in order. */
module DecoderRuns {
  import opened Ticks
  import opened DecoderModel
  import opened DecoderEvaluation
  import opened DecoderQuiet

  datatype Event = Initialize(id: Byte, level: bool) | Update(id: Byte, level: bool)
                 | SetMonitoringHealthy(healthy: bool) | Advance

  datatype Machine = Machine(state: DecoderState, deadline: Deadline, lastNow: int, timeValid: bool)

  datatype Timed = Timed(event: Event, at: int)

  function InitialMachine(decoder: CompiledDecoder): Machine {
    Machine(InitialState(decoder), NoDeadline, 0, false)
  }

  /** Index of the first input declared with `id` at or after slot `i`; the number of inputs when there is none. */
  function FindInput(ids: seq<Byte>, id: Byte, i: nat): (index: nat)
    requires i <= |ids|
    ensures i <= index <= |ids|
    ensures index < |ids| ==> ids[index] == id
    ensures forall j | i <= j < index :: ids[j] != id
    decreases |ids| - i
  {
    if i == |ids| || ids[i] == id then i else FindInput(ids, id, i + 1)
  }

  predicate InTime(clock: Clock, machine: Machine, now: int) {
    machine.timeValid ==> Ahead(clock, machine.lastNow, now) >= 0
  }

  /** The retained history after one more edge: the oldest gives way when the ring is full. */
  function PushEdge(edges: seq<int>, at: int): seq<int> {
    if |edges| < MAX_EDGES_PER_INPUT then edges + [at] else edges[1..] + [at]
  }

  function UpdatedInput(input: InputView, level: bool, now: int): InputView {
    if input.level == level then input
    else InputView(input.valid, level, now, now, PushEdge(input.edges, now))
  }

  /** Whether a call changes the decoder at all, apart from the order of time. */
  predicate Meaningful(decoder: CompiledDecoder, state: DecoderState, event: Event)
    requires StateShaped(decoder, state)
  {
    match event
    case Initialize(id, _) =>
      var i := FindInput(decoder.inputIds, id, 0);
      i < |decoder.inputIds| && !state.inputs[i].valid
    case Update(id, _) =>
      var i := FindInput(decoder.inputIds, id, 0);
      i < |decoder.inputIds| && state.inputs[i].valid
    case _ => true
  }

  predicate Accepted(clock: Clock, decoder: CompiledDecoder, machine: Machine, event: Event, now: int)
    requires StateShaped(decoder, machine.state)
  {
    Meaningful(decoder, machine.state, event) && InTime(clock, machine, now)
  }

  /** The remembered evidence after the call, before it is evaluated. */
  function Record(decoder: CompiledDecoder, state: DecoderState, event: Event, now: int): (recorded: DecoderState)
    requires StateShaped(decoder, state) && Meaningful(decoder, state, event)
    ensures StateShaped(decoder, recorded)
  {
    match event
    case Initialize(id, level) =>
      var i := FindInput(decoder.inputIds, id, 0);
      state.(inputs := state.inputs[i := InputView(true, level, now, now, state.inputs[i].edges)])
    case Update(id, level) =>
      var i := FindInput(decoder.inputIds, id, 0);
      state.(inputs := state.inputs[i := UpdatedInput(state.inputs[i], level, now)])
    case SetMonitoringHealthy(healthy) => state.(monitoringHealthy := healthy)
    case Advance => state
  }

  ghost function Apply(clock: Clock, decoder: CompiledDecoder, machine: Machine, event: Event,
      now: int): (next: Machine)
    requires CompiledOk(decoder) && StateShaped(decoder, machine.state)
    ensures StateShaped(decoder, next.state)
  {
    if !Accepted(clock, decoder, machine, event, now) then machine
    else
      var e := Evaluate(clock, decoder, Record(decoder, machine.state, event, now), now);
      Machine(e.state, e.deadline, now, true)
  }

  ghost function Run(clock: Clock, decoder: CompiledDecoder, machine: Machine, run: seq<Timed>): (end: Machine)
    requires CompiledOk(decoder) && StateShaped(decoder, machine.state)
    ensures StateShaped(decoder, end.state)
    decreases |run|
  {
    if run == [] then machine
    else Run(clock, decoder, Apply(clock, decoder, machine, run[0].event, run[0].at), run[1..])
  }

  // ---- Event-driven and polled runs agree ----

  /** Everything but polls: the evidence a run is given. */
  function Evidence(run: seq<Timed>): seq<Timed> {
    if run == [] then []
    else (if run[0].event.Advance? then [] else [run[0]]) + Evidence(run[1..])
  }

  /** A run that never goes back in time, and polls at every announced wake-up exactly, up to `end`.
      It may poll as often as it likes in between. */
  ghost predicate Punctual(decoder: CompiledDecoder, machine: Machine, run: seq<Timed>, end: int)
    requires CompiledOk(decoder) && StateShaped(decoder, machine.state)
    decreases |run|
  {
    if run == [] then machine.deadline.At? ==> end < machine.deadline.at
    else
      var (event, at) := (run[0].event, run[0].at);
      && (machine.timeValid ==> machine.lastNow <= at)
      && at <= end
      && (machine.deadline.At? ==> if event.Advance? then at <= machine.deadline.at else at < machine.deadline.at)
      && Punctual(decoder, Apply(Unbounded, decoder, machine, event, at), run[1..], end)
  }

  /** Holds of every reachable machine: histories are in order and the state is what an
      evaluation at the last accepted instant leaves. */
  ghost predicate Resting(decoder: CompiledDecoder, machine: Machine) {
    && CompiledOk(decoder) && StateShaped(decoder, machine.state)
    && EdgesOrdered(machine.state.inputs)
    && HistoriesUpTo(machine)
    && (forall now | machine.timeValid ==> now == machine.lastNow ::
          AtRest(decoder, machine.state, machine.deadline, now))
  }

  ghost predicate NoEvidence(inputs: seq<InputView>) {
    forall i | 0 <= i < |inputs| :: !inputs[i].valid
  }

  lemma {:induction false} NoEvidenceNoValue(clock: Clock, rules: seq<CompiledRule>, inputs: seq<InputView>, now: int,
      n: nat)
    requires RulesOk(rules, |inputs|) && n <= |rules| && NoEvidence(inputs)
    ensures ExpressionCandidates(clock, rules, inputs, now, n) == []
    ensures forall r | 0 <= r < n :: !RuleValue(clock, rules[r], inputs, now, |rules[r].groups|)
  {
    hide CompiledRuleOk, RuleValue, RuleCandidates;
    if n > 0 {
      NoEvidenceNoValue(clock, rules, inputs, now, n - 1);
      NoEvidenceNoRule(clock, rules[n - 1], inputs, now, |rules[n - 1].groups|);
    }
  }

  lemma {:induction false} NoEvidenceNoRule(clock: Clock, rule: CompiledRule, inputs: seq<InputView>, now: int, n: nat)
    requires CompiledRuleOk(rule, |inputs|) && n <= |rule.groups|
    requires NoEvidence(inputs)
    ensures RuleCandidates(clock, rule, inputs, now, n) == [] && !RuleValue(clock, rule, inputs, now, n)
  {
    if n > 0 {
      NoEvidenceNoRule(clock, rule, inputs, now, n - 1);
      var group := rule.groups[n - 1];
      assert CompiledPredicateOk(group.predicates[0], |inputs|);
      NoEvidenceNoGroup(clock, group, inputs, now, |group.predicates|);
      assert !PredicateValue(clock, group.predicates[0], inputs[group.predicates[0].input], now);
      RuleValueSplits(clock, rule, inputs, now, n);
    }
  }

  lemma {:induction false} NoEvidenceNoGroup(clock: Clock, group: CompiledGroup, inputs: seq<InputView>, now: int,
      n: nat)
    requires CompiledGroupOk(group, |inputs|) && n <= |group.predicates|
    requires NoEvidence(inputs)
    ensures GroupCandidates(clock, group, inputs, now, n) == []
  {
    hide PredicateCandidates, StableOk, PeriodicOk;
    if n > 0 {
      var p := group.predicates[n - 1];
      assert CompiledPredicateOk(p, |inputs|);
      NoEvidenceNoGroup(clock, group, inputs, now, n - 1);
      NoEvidenceNoCandidates(clock, p, inputs[p.input], now);
    }
  }

  lemma NoEvidenceNoCandidates(clock: Clock, p: CompiledPredicate, input: InputView, now: int)
    requires !input.valid
    ensures PredicateCandidates(clock, p, input, now) == []
  {
  }

  lemma {:induction false} NothingVoted<V>(votes: seq<Option<V>>, idle: V)
    requires forall i | 0 <= i < |votes| :: votes[i].None?
    ensures CountVotes(votes, idle) == Tally(false, false, idle)
  {
    if votes != [] {
      NothingVoted(votes[..|votes| - 1], idle);
    }
  }

  ghost predicate AllUnmatched(movement: seq<MovementRuleState>) {
    forall r | 0 <= r < |movement| :: movement[r] == INITIAL_MOVEMENT
  }

  lemma UnmatchedHasNoCandidates(clock: Clock, m: MovementLifecycleConfig, matched: bool)
    ensures LifecycleRuleCandidates(clock, m, matched, INITIAL_MOVEMENT) == []
  {
  }

  lemma {:induction false} UnmatchedHaveNoCandidates(clock: Clock, decoder: CompiledDecoder, expressions: seq<bool>,
                                                     movement: seq<MovementRuleState>, n: nat)
    requires |expressions| == |movement| == |decoder.rules| && AllUnmatched(movement)
    requires n <= |decoder.movementRules| && forall i | 0 <= i < n :: decoder.movementRules[i] < |decoder.rules|
    ensures LifecycleCandidates(clock, decoder, expressions, movement, n) == []
  {
    hide LifecycleRuleCandidates;
    if n > 0 {
      var r := decoder.movementRules[n - 1];
      UnmatchedHasNoCandidates(clock, decoder.rules[r].movement, expressions[r]);
      UnmatchedHaveNoCandidates(clock, decoder, expressions, movement, n - 1);
    }
  }

  lemma UnmatchedStayUnmatched(decoder: CompiledDecoder, expressions: seq<bool>, movement: seq<MovementRuleState>,
      now: int)
    requires |expressions| == |movement| == |decoder.rules| && AllUnmatched(movement)
    requires forall r | 0 <= r < |expressions| :: !expressions[r]
    ensures SettleAll(Unbounded, decoder, expressions, movement, now) == movement
  {
    var settled := SettleAll(Unbounded, decoder, expressions, movement, now);
    forall r | 0 <= r < |movement| ensures settled[r] == movement[r] {
      assert LifecycleSteps(Unbounded, decoder.rules[r].movement, false, INITIAL_MOVEMENT, now, 1) == INITIAL_MOVEMENT;
    }
  }

  lemma NothingPublished(decoder: CompiledDecoder, expressions: seq<bool>, movement: seq<MovementRuleState>,
      inputs: seq<InputView>)
    requires CompiledOk(decoder) && |expressions| == |movement| == |decoder.rules| && AllUnmatched(movement)
    requires |inputs| > 0 && NoEvidence(inputs) && forall r | 0 <= r < |expressions| :: !expressions[r]
    ensures Arbitrate(decoder, expressions, movement, inputs, true, 0) == INITIAL_RESULT
  {
    hide RulesOk;
    NothingVoted(PositionVotes(decoder, expressions), Opened);
    NothingVoted(MovementVotes(decoder, movement), Stopped);
    assert !inputs[0].valid;
  }

  /** A fresh decoder is at rest at every instant. */
  lemma InitiallyAtRest(decoder: CompiledDecoder, now: int)
    requires CompiledOk(decoder)
    ensures AtRest(decoder, InitialState(decoder), NoDeadline, now)
  {
    hide RulesOk, Arbitrate;
    var state := InitialState(decoder);
    NoEvidenceNoValue(Unbounded, decoder.rules, state.inputs, now, |decoder.rules|);
    var expressions := Expressions(Unbounded, decoder.rules, state.inputs, now);
    UnmatchedStayUnmatched(decoder, expressions, state.movementRules, now);
    UnmatchedHaveNoCandidates(Unbounded, decoder, expressions, state.movementRules, |decoder.movementRules|);
    NothingPublished(decoder, expressions, state.movementRules, state.inputs);
  }

  lemma InitiallyResting(decoder: CompiledDecoder)
    requires CompiledOk(decoder)
    ensures Resting(decoder, InitialMachine(decoder))
  {
    hide CompiledOk, Evaluate;
    forall now ensures AtRest(decoder, InitialState(decoder), NoDeadline, now) {
      InitiallyAtRest(decoder, now);
    }
  }

  ghost predicate HistoriesUpTo(machine: Machine) {
    forall i | 0 <= i < |machine.state.inputs| && machine.state.inputs[i].edges != [] ::
      var edges := machine.state.inputs[i].edges;
      machine.timeValid && edges[|edges| - 1] <= machine.lastNow
  }

  lemma PushKeepsOrder(edges: seq<int>, at: int)
    requires InOrder(edges) && (edges != [] ==> edges[|edges| - 1] <= at)
    ensures InOrder(PushEdge(edges, at)) && PushEdge(edges, at)[|PushEdge(edges, at)| - 1] == at
  {
  }

  lemma RecordKeepsOrder(decoder: CompiledDecoder, machine: Machine, event: Event, now: int)
    requires StateShaped(decoder, machine.state) && EdgesOrdered(machine.state.inputs) && HistoriesUpTo(machine)
    requires Accepted(Unbounded, decoder, machine, event, now)
    ensures var recorded := Record(decoder, machine.state, event, now);
            EdgesOrdered(recorded.inputs) && HistoriesUpTo(Machine(recorded, NoDeadline, now, true))
  {
    if event.Update? {
      PushKeepsOrder(machine.state.inputs[FindInput(decoder.inputIds, event.id, 0)].edges, now);
    }
    hide InOrder, PushEdge;
  }

  /** Every call keeps the decoder at rest. */
  lemma ApplyKeepsResting(decoder: CompiledDecoder, machine: Machine, event: Event, now: int)
    requires Resting(decoder, machine)
    ensures Resting(decoder, Apply(Unbounded, decoder, machine, event, now))
  {
    hide CompiledOk, Evaluate;
    if Accepted(Unbounded, decoder, machine, event, now) {
      RecordKeepsOrder(decoder, machine, event, now);
      EvaluateTwice(Unbounded, decoder, Record(decoder, machine.state, event, now), now);
    }
  }

  /** A poll strictly before the announced wake-up only moves the clock. */
  lemma EarlyPollIsIdle(decoder: CompiledDecoder, machine: Machine, at: int)
    requires Resting(decoder, machine)
    requires machine.timeValid ==> machine.lastNow <= at
    requires machine.deadline.At? ==> at < machine.deadline.at
    ensures Apply(Unbounded, decoder, machine, Advance, at) == Machine(machine.state, machine.deadline, at, true)
  {
    hide CompiledOk, Evaluate, EdgesOrdered;
    NothingBeforeDeadline(decoder, machine.state, machine.deadline,
                          if machine.timeValid then machine.lastNow else at, at);
  }

  ghost predicate SameButClock(a: Machine, b: Machine) {
    a.state == b.state && a.deadline == b.deadline
  }

  lemma {:induction false} LaterEvidence(decoder: CompiledDecoder, machine: Machine, run: seq<Timed>, end: int)
    requires CompiledOk(decoder) && StateShaped(decoder, machine.state) && Punctual(decoder, machine, run, end)
    ensures machine.timeValid && Evidence(run) != [] ==> machine.lastNow <= Evidence(run)[0].at
    ensures Evidence(run) != [] ==> Evidence(run)[0].at <= end
    decreases |run|
  {
    if run != [] {
      LaterEvidence(decoder, Apply(Unbounded, decoder, machine, run[0].event, run[0].at), run[1..], end);
    }
  }

  /** Two decoders in the same condition, given the same evidence at the same instants and both
      polled at every announced wake-up, are in the same condition at every common instant `end`,
      whatever extra polls either is given. Waking only when announced therefore equals polling
      every millisecond. */
  lemma {:induction false} PunctualRunsAgree(decoder: CompiledDecoder, a: Machine, b: Machine,
                                             runA: seq<Timed>, runB: seq<Timed>, end: int)
    requires Resting(decoder, a) && Resting(decoder, b) && SameButClock(a, b)
    requires Punctual(decoder, a, runA, end) && Punctual(decoder, b, runB, end)
    requires Evidence(runA) == Evidence(runB)
    ensures SameButClock(Run(Unbounded, decoder, a, runA), Run(Unbounded, decoder, b, runB))
    decreases |runA| + |runB|
  {
    hide CompiledOk, Apply, EdgesOrdered, HistoriesUpTo, AtRest;
    if runA != [] && IsEarly(a, runA[0]) {
      EarlyPollIsIdle(decoder, a, runA[0].at);
      ApplyKeepsResting(decoder, a, Advance, runA[0].at);
      PunctualRunsAgree(decoder, Apply(Unbounded, decoder, a, Advance, runA[0].at), b, runA[1..], runB, end);
    } else if runB != [] && IsEarly(b, runB[0]) {
      EarlyPollIsIdle(decoder, b, runB[0].at);
      ApplyKeepsResting(decoder, b, Advance, runB[0].at);
      PunctualRunsAgree(decoder, a, Apply(Unbounded, decoder, b, Advance, runB[0].at), runA, runB[1..], end);
    } else if runA != [] {
      BothAct(decoder, a, b, runA, runB, end);
      var (event, at) := (runA[0].event, runA[0].at);
      ApplyKeepsResting(decoder, a, event, at);
      ApplyKeepsResting(decoder, b, event, at);
      PunctualRunsAgree(decoder, Apply(Unbounded, decoder, a, event, at), Apply(Unbounded, decoder, b, event, at),
                        runA[1..], runB[1..], end);
    } else if runB != [] {
      BothAct(decoder, b, a, runB, runA, end);
    }
  }

  ghost predicate IsEarly(machine: Machine, step: Timed) {
    step.event.Advance? && (machine.deadline.At? ==> step.at < machine.deadline.at)
  }

  /** A call in time for both depends only on what they have in common. */
  lemma ApplySame(decoder: CompiledDecoder, a: Machine, b: Machine, event: Event, now: int)
    requires CompiledOk(decoder) && StateShaped(decoder, a.state) && SameButClock(a, b)
    requires InTime(Unbounded, a, now) && InTime(Unbounded, b, now)
    ensures SameButClock(Apply(Unbounded, decoder, a, event, now), Apply(Unbounded, decoder, b, event, now))
  {
    hide CompiledOk, Evaluate;
  }

  lemma EvidenceNotBefore(decoder: CompiledDecoder, machine: Machine, run: seq<Timed>, end: int)
    requires CompiledOk(decoder) && StateShaped(decoder, machine.state) && Punctual(decoder, machine, run, end)
    requires run != [] && run[0].event.Advance? && Evidence(run) != []
    ensures run[0].at <= Evidence(run)[0].at <= end
  {
    hide CompiledOk, Evaluate;
    LaterEvidence(decoder, Apply(Unbounded, decoder, machine, Advance, run[0].at), run[1..], end);
  }

  /** What being punctual says about the next step alone. */
  ghost predicate NextInTime(machine: Machine, run: seq<Timed>, end: int) {
    if run == [] then machine.deadline.At? ==> end < machine.deadline.at
    else
      && InTime(Unbounded, machine, run[0].at)
      && run[0].at <= end
      && (machine.deadline.At? ==>
            if run[0].event.Advance? then run[0].at <= machine.deadline.at else run[0].at < machine.deadline.at)
      && (run[0].event.Advance? && Evidence(run) != [] ==> run[0].at <= Evidence(run)[0].at <= end)
  }

  lemma PunctualNext(decoder: CompiledDecoder, machine: Machine, run: seq<Timed>, end: int)
    requires CompiledOk(decoder) && StateShaped(decoder, machine.state) && Punctual(decoder, machine, run, end)
    ensures NextInTime(machine, run, end)
  {
    hide CompiledOk, Evaluate;
    if run != [] && run[0].event.Advance? && Evidence(run) != [] {
      EvidenceNotBefore(decoder, machine, run, end);
    }
  }

  /** When neither run starts with an early poll, both start with the same step. */
  lemma BothAct(decoder: CompiledDecoder, a: Machine, b: Machine, runA: seq<Timed>, runB: seq<Timed>, end: int)
    requires CompiledOk(decoder) && StateShaped(decoder, a.state) && SameButClock(a, b)
    requires Punctual(decoder, a, runA, end) && Punctual(decoder, b, runB, end)
    requires Evidence(runA) == Evidence(runB)
    requires runA != [] && !IsEarly(a, runA[0]) && (runB != [] ==> !IsEarly(b, runB[0]))
    ensures runB != [] && runA[0] == runB[0]
    ensures Evidence(runA[1..]) == Evidence(runB[1..])
    ensures SameButClock(Apply(Unbounded, decoder, a, runA[0].event, runA[0].at),
                         Apply(Unbounded, decoder, b, runA[0].event, runA[0].at))
  {
    hide CompiledOk, Apply, Punctual;
    PunctualNext(decoder, a, runA, end);
    PunctualNext(decoder, b, runB, end);
    assert runB != [] && runA[0] == runB[0];
    if !runA[0].event.Advance? {
      assert Evidence(runA[1..]) == Evidence(runA)[1..] == Evidence(runB)[1..] == Evidence(runB[1..]);
    }
    ApplySame(decoder, a, b, runA[0].event, runA[0].at);
  }

  // ---- Waking only when announced equals polling every millisecond ----

  /** The wake-ups a decoder asks for up to `end`, each taken exactly when announced. */
  ghost function Wakeups(decoder: CompiledDecoder, machine: Machine, end: int): seq<Timed>
    requires CompiledOk(decoder) && StateShaped(decoder, machine.state) && machine.timeValid
    decreases end - machine.lastNow
  {
    if machine.deadline.At? && machine.lastNow < machine.deadline.at <= end then
      var wake := Timed(Advance, machine.deadline.at);
      [wake] + Wakeups(decoder, Apply(Unbounded, decoder, machine, Advance, wake.at), end)
    else []
  }

  function EveryMillisecond(from: int, to: int): seq<Timed>
    decreases to - from
  {
    if from < to then [Timed(Advance, from + 1)] + EveryMillisecond(from + 1, to) else []
  }

  lemma DeadlineIsAhead(decoder: CompiledDecoder, machine: Machine)
    requires Resting(decoder, machine) && machine.timeValid
    ensures machine.deadline.At? ==> machine.lastNow < machine.deadline.at
  {
    hide CompiledOk;
    assert AtRest(decoder, machine.state, machine.deadline, machine.lastNow);
    DeadlineIsNearest(Unbounded, decoder, machine.state, machine.lastNow);
  }

  lemma AdvanceMovesClock(decoder: CompiledDecoder, machine: Machine, at: int)
    requires CompiledOk(decoder) && StateShaped(decoder, machine.state) && machine.timeValid && machine.lastNow <= at
    ensures var next := Apply(Unbounded, decoder, machine, Advance, at); next.timeValid && next.lastNow == at
  {
  }

  lemma {:induction false} WakeupsArePunctual(decoder: CompiledDecoder, machine: Machine, end: int)
    requires Resting(decoder, machine) && machine.timeValid && machine.lastNow <= end
    ensures Punctual(decoder, machine, Wakeups(decoder, machine, end), end)
    ensures Evidence(Wakeups(decoder, machine, end)) == []
    decreases end - machine.lastNow
  {
    hide CompiledOk, Apply;
    DeadlineIsAhead(decoder, machine);
    if machine.deadline.At? && machine.deadline.at <= end {
      ApplyKeepsResting(decoder, machine, Advance, machine.deadline.at);
      AdvanceMovesClock(decoder, machine, machine.deadline.at);
      WakeupsArePunctual(decoder, Apply(Unbounded, decoder, machine, Advance, machine.deadline.at), end);
    }
  }

  lemma {:induction false} PollingIsPunctual(decoder: CompiledDecoder, machine: Machine, end: int)
    requires Resting(decoder, machine) && machine.timeValid && machine.lastNow <= end
    ensures Punctual(decoder, machine, EveryMillisecond(machine.lastNow, end), end)
    ensures Evidence(EveryMillisecond(machine.lastNow, end)) == []
    decreases end - machine.lastNow
  {
    hide CompiledOk, Apply;
    DeadlineIsAhead(decoder, machine);
    if machine.lastNow < end {
      ApplyKeepsResting(decoder, machine, Advance, machine.lastNow + 1);
      AdvanceMovesClock(decoder, machine, machine.lastNow + 1);
      PollingIsPunctual(decoder, Apply(Unbounded, decoder, machine, Advance, machine.lastNow + 1), end);
    }
  }

  /** Sleeping until each announced wake-up leaves the decoder exactly where polling it every
      millisecond would. */
  lemma SleepingEqualsPolling(decoder: CompiledDecoder, machine: Machine, end: int)
    requires Resting(decoder, machine) && machine.timeValid && machine.lastNow <= end
    ensures SameButClock(Run(Unbounded, decoder, machine, Wakeups(decoder, machine, end)),
                         Run(Unbounded, decoder, machine, EveryMillisecond(machine.lastNow, end)))
  {
    hide CompiledOk, Punctual;
    WakeupsArePunctual(decoder, machine, end);
    PollingIsPunctual(decoder, machine, end);
    PunctualRunsAgree(decoder, machine, machine, Wakeups(decoder, machine, end),
                      EveryMillisecond(machine.lastNow, end), end);
  }
}

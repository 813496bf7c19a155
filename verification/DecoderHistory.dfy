/** The ring forgets all but the latest sixteen edges; no compiled rule can tell. */
module DecoderHistory {
  import opened Ticks
  import opened DecoderModel
  import opened DecoderEvaluation
  import opened DecoderQuiet
  import opened DecoderRuns

  function Latest(history: seq<int>): seq<int> {
    if |history| <= MAX_EDGES_PER_INPUT then history else history[|history| - MAX_EDGES_PER_INPUT..]
  }

  lemma PushKeepsLatest(history: seq<int>, at: int)
    ensures PushEdge(Latest(history), at) == Latest(history + [at])
  {
  }

  /** Dropping the `k` oldest edges cuts a run off at the cut, and nowhere else. */
  lemma {:induction false} RunStartOfSuffix(clock: Clock, config: PeriodicEdgesConfig, history: seq<int>, now: int,
                                            k: nat, i: nat)
    requires k + i < |history|
    ensures var whole := RunStart(clock, config, history, now, k + i);
            RunStart(clock, config, history[k..], now, i) == if whole < k then 0 else whole - k
  {
    if i > 0 {
      assert history[k..][i] == history[k + i] && history[k..][i - 1] == history[k + i - 1];
      RunStartOfSuffix(clock, config, history, now, k, i - 1);
    }
  }

  /** A compiled periodic predicate has the same value on the ring as on the whole history,
      on the wrapping clock as on the unbounded one. */
  lemma RingDecidesAsHistory(clock: Clock, config: PeriodicEdgesConfig, history: seq<int>, now: int)
    requires PeriodicOk(config)
    ensures PeriodicValue(clock, config, Latest(history), now) == PeriodicValue(clock, config, history, now)
  {
    var k := |history| - MAX_EDGES_PER_INPUT;
    if k > 0 {
      var newest := MAX_EDGES_PER_INPUT - 1;
      RunStartOfSuffix(clock, config, history, now, k, newest);
      RunInsideWindow(clock, config, history, now, k + newest);
      RunInsideWindow(clock, config, Latest(history), now, newest);
    }
  }

  /** The bound matters: were more edges demanded than the ring holds, the ring would lose the match. */
  lemma RingNeedsTheCap()
    ensures exists config: PeriodicEdgesConfig, history: seq<int>, now: int ::
              && config.minimumEdges > MAX_EDGES_PER_INPUT
              && PeriodicValue(Unbounded, config, history, now)
              && !PeriodicValue(Unbounded, config, Latest(history), now)
  {
    var config := PeriodicEdgesConfig(1, 1, 17, 100, 100);
    var history := seq(17, i => i);
    RunOfOnes(config, history, 16);
    assert PeriodicValue(Unbounded, config, history, 16);
    assert !PeriodicValue(Unbounded, config, Latest(history), 16);
  }

  lemma {:induction false} RunOfOnes(config: PeriodicEdgesConfig, history: seq<int>, i: nat)
    requires config.minimumIntervalMs == config.maximumIntervalMs == 1 && config.observationWindowMs == 100
    requires |history| == 17 && i < 17 && forall j | 0 <= j < 17 :: history[j] == j
    ensures RunStart(Unbounded, config, history, 16, i) == 0
  {
    if i > 0 {
      RunOfOnes(config, history, i - 1);
    }
  }

  // ---- Whole runs ----

  function LatestInput(input: InputView): InputView {
    input.(edges := Latest(input.edges))
  }

  function LatestInputs(inputs: seq<InputView>): (latest: seq<InputView>)
    ensures |latest| == |inputs|
  {
    seq(|inputs|, i requires 0 <= i < |inputs| => LatestInput(inputs[i]))
  }

  function LatestState(state: DecoderState): DecoderState {
    state.(inputs := LatestInputs(state.inputs))
  }

  /** What a decoder that forgets nothing would record. */
  function RecordAll(decoder: CompiledDecoder, state: DecoderState, event: Event, now: int): (recorded: DecoderState)
    requires StateShaped(decoder, state) && Meaningful(decoder, state, event)
    ensures StateShaped(decoder, recorded)
  {
    if event.Update? then
      var i := FindInput(decoder.inputIds, event.id, 0);
      var input := state.inputs[i];
      if input.level == event.level then state
      else state.(inputs := state.inputs[i := InputView(input.valid, event.level, now, now, input.edges + [now])])
    else Record(decoder, state, event, now)
  }

  ghost function ApplyAll(clock: Clock, decoder: CompiledDecoder, machine: Machine, event: Event,
      now: int): (next: Machine)
    requires CompiledOk(decoder) && StateShaped(decoder, machine.state)
    ensures StateShaped(decoder, next.state)
  {
    if !Accepted(clock, decoder, machine, event, now) then machine
    else
      var e := Evaluate(clock, decoder, RecordAll(decoder, machine.state, event, now), now);
      Machine(e.state, e.deadline, now, true)
  }

  ghost function RunAll(clock: Clock, decoder: CompiledDecoder, machine: Machine, run: seq<Timed>): (end: Machine)
    requires CompiledOk(decoder) && StateShaped(decoder, machine.state)
    ensures StateShaped(decoder, end.state)
    decreases |run|
  {
    if run == [] then machine
    else RunAll(clock, decoder, ApplyAll(clock, decoder, machine, run[0].event, run[0].at), run[1..])
  }

  lemma PredicateRemembers(clock: Clock, p: CompiledPredicate, input: InputView, now: int)
    requires CompiledPredicateOk(p, p.input + 1)
    ensures PredicateValue(clock, p, LatestInput(input), now) == PredicateValue(clock, p, input, now)
  {
    if p.kind == PeriodicEdges {
      RingDecidesAsHistory(clock, p.periodic, input.edges, now);
    }
  }

  lemma GroupRemembers(clock: Clock, group: CompiledGroup, inputs: seq<InputView>, now: int)
    requires CompiledGroupOk(group, |inputs|)
    ensures GroupValue(clock, group, LatestInputs(inputs), now, |group.predicates|)
         == GroupValue(clock, group, inputs, now, |group.predicates|)
  {
    hide PredicateValue, LatestInput;
    forall i | 0 <= i < |group.predicates|
      ensures var p := group.predicates[i];
              PredicateValue(clock, p, LatestInputs(inputs)[p.input], now)
                == PredicateValue(clock, p, inputs[p.input], now)
    {
      var p := group.predicates[i];
      assert CompiledPredicateOk(p, |inputs|);
      PredicateRemembers(clock, p, inputs[p.input], now);
    }
  }

  lemma ExpressionsRemember(clock: Clock, rules: seq<CompiledRule>, inputs: seq<InputView>, now: int)
    requires RulesOk(rules, |inputs|)
    ensures Expressions(clock, rules, LatestInputs(inputs), now) == Expressions(clock, rules, inputs, now)
  {
    hide CompiledGroupOk, GroupValue, LatestInput;
    forall r | 0 <= r < |rules|
      ensures RuleValue(clock, rules[r], LatestInputs(inputs), now, |rules[r].groups|)
           == RuleValue(clock, rules[r], inputs, now, |rules[r].groups|)
    {
      assert CompiledRuleOk(rules[r], |inputs|);
      forall g | 0 <= g < |rules[r].groups|
        ensures var group := rules[r].groups[g];
                GroupValue(clock, group, LatestInputs(inputs), now, |group.predicates|)
                == GroupValue(clock, group, inputs, now, |group.predicates|)
      {
        GroupRemembers(clock, rules[r].groups[g], inputs, now);
      }
    }
  }

  lemma EvaluateRemembers(clock: Clock, decoder: CompiledDecoder, state: DecoderState, now: int)
    requires CompiledOk(decoder) && StateShaped(decoder, state)
    ensures Evaluate(clock, decoder, LatestState(state), now).state
              == LatestState(Evaluate(clock, decoder, state, now).state)
  {
    hide RulesOk, IsFamily, SettleAll, CountVotes, Publish, AllCandidates, Expressions, LatestInput, AnyExpired,
      AnyFault, AnyAgeObstruction, PositionVotes, MovementVotes;
    RulesOfDecoder(decoder);
    ExpressionsRemember(clock, decoder.rules, state.inputs, now);
    SameInputsValid(state.inputs);
  }

  lemma SameInputsValid(inputs: seq<InputView>)
    ensures AllInputsValid(LatestInputs(inputs)) == AllInputsValid(inputs)
  {
    assert forall i | 0 <= i < |inputs| :: LatestInputs(inputs)[i].valid == inputs[i].valid;
  }

  lemma RecordRemembers(decoder: CompiledDecoder, state: DecoderState, event: Event, now: int)
    requires StateShaped(decoder, state)
    ensures Meaningful(decoder, LatestState(state), event) == Meaningful(decoder, state, event)
    ensures Meaningful(decoder, state, event) ==>
              Record(decoder, LatestState(state), event, now) == LatestState(RecordAll(decoder, state, event, now))
  {
    hide Latest, PushEdge;
    if Meaningful(decoder, state, event) && event.Update? {
      var i := FindInput(decoder.inputIds, event.id, 0);
      PushKeepsLatest(state.inputs[i].edges, now);
      assert LatestInputs(RecordAll(decoder, state, event, now).inputs)
          == Record(decoder, LatestState(state), event, now).inputs;
    } else if Meaningful(decoder, state, event) && event.Initialize? {
      assert LatestInputs(RecordAll(decoder, state, event, now).inputs)
          == Record(decoder, LatestState(state), event, now).inputs;
    }
  }

  /** Over any run, the decoder with its rings and a decoder that forgets nothing hold the same
      levels, phases and result. Only wake-ups may differ: the forgetful one may sleep longer. */
  lemma {:induction false} RingRunsAsHistory(clock: Clock, decoder: CompiledDecoder, ring: Machine, all: Machine,
                                             run: seq<Timed>)
    requires CompiledOk(decoder) && StateShaped(decoder, all.state)
    requires ring.state == LatestState(all.state) && ring.lastNow == all.lastNow && ring.timeValid == all.timeValid
    ensures StateShaped(decoder, ring.state)
    ensures Run(clock, decoder, ring, run).state == LatestState(RunAll(clock, decoder, all, run).state)
    decreases |run|
  {
    hide CompiledOk, Evaluate, Record, RecordAll, Meaningful, LatestInputs;
    if run != [] {
      var (event, now) := (run[0].event, run[0].at);
      RecordRemembers(decoder, all.state, event, now);
      if Accepted(clock, decoder, all, event, now) {
        EvaluateRemembers(clock, decoder, RecordAll(decoder, all.state, event, now), now);
      }
      RingRunsAsHistory(clock, decoder, Apply(clock, decoder, ring, event, now),
                        ApplyAll(clock, decoder, all, event, now), run[1..]);
    }
  }
}

/** The decoder object: it updates its inputs, rings, lifecycle states, result and wake-up in place.
    Every method is proved to do to them what `DecoderRuns.Apply` says, on the wrapping clock. */
module SignalDecoder {
  import opened Ticks
  import opened DecoderModel
  import opened DecoderEvaluation
  import opened DecoderRuns
  import opened EdgeRing

  datatype InputState = InputState(valid: bool, level: bool, levelSince: Tick, lastEdgeAt: Tick)

  class SignalDecoder {
    const config: CompiledDecoder
    const inputs: array<InputState>
    /** The edge history of each input. */
    const edges: seq<EdgeHistory>
    const movementRules: array<MovementRuleState>
    var result: DecoderResult
    var monitoringHealthy: bool
    var nextDeadline: Deadline
    var lastNow: Tick
    var timeValid: bool

    ghost function Rings(): set<object> {
      (set i | 0 <= i < |edges| :: edges[i] as object) + (set i | 0 <= i < |edges| :: edges[i].timestamps as object)
    }

    ghost function Repr(): set<object> {
      {this, inputs, movementRules} + Rings()
    }

    ghost predicate Valid()
      reads Rings()
    {
      && CompiledOk(config)
      && inputs.Length == |edges| == |config.inputIds|
      && movementRules.Length == |config.rules|
      && (forall i | 0 <= i < |edges| :: edges[i].Valid())
      && (forall i, j | 0 <= i < j < |edges| :: edges[i] != edges[j] && edges[i].timestamps != edges[j].timestamps)
    }

    ghost function View(i: nat): InputView
      requires Valid() && i < |edges|
      reads inputs, Rings()
    {
      InputView(inputs[i].valid, inputs[i].level, inputs[i].levelSince, inputs[i].lastEdgeAt, edges[i].Contents())
    }

    ghost function Views(): (views: seq<InputView>)
      requires Valid()
      reads inputs, Rings()
      ensures |views| == |config.inputIds|
      ensures forall i | 0 <= i < |views| :: views[i] == View(i)
    {
      seq(|edges|, i requires 0 <= i < |edges| && Valid() reads inputs, Rings() => View(i))
    }

    ghost function State(): (state: DecoderState)
      requires Valid()
      reads this, inputs, movementRules, Rings()
      ensures StateShaped(config, state)
    {
      DecoderState(Views(), movementRules[..], result, monitoringHealthy)
    }

    ghost function Machine(): (machine: DecoderRuns.Machine)
      requires Valid()
      reads this, inputs, movementRules, Rings()
      ensures StateShaped(config, machine.state)
    {
      DecoderRuns.Machine(State(), nextDeadline, lastNow, timeValid)
    }

    constructor (config: CompiledDecoder)
      requires CompiledOk(config)
      ensures this.config == config && Valid() && fresh(Repr())
      ensures Machine() == InitialMachine(config)
    {
      this.config := config;
      var idle := new InputState[|config.inputIds|](_ => InputState(false, false, 0, 0));
      var unmatched := new MovementRuleState[|config.rules|](_ => INITIAL_MOVEMENT);
      var rings: seq<EdgeHistory> := [];
      for i := 0 to |config.inputIds|
        invariant |rings| == i
        invariant forall k | 0 <= k < idle.Length :: idle[k] == InputState(false, false, 0, 0)
        invariant forall k | 0 <= k < unmatched.Length :: unmatched[k] == INITIAL_MOVEMENT
        invariant forall k | 0 <= k < i :: fresh(rings[k]) && fresh(rings[k].timestamps) && rings[k].Valid()
                                           && rings[k].Contents() == []
        invariant forall k, l | 0 <= k < l < i :: rings[k] != rings[l] && rings[k].timestamps != rings[l].timestamps
      {
        var ring := new EdgeHistory();
        rings := rings + [ring];
      }
      inputs, movementRules, edges := idle, unmatched, rings;
      result, monitoringHealthy, nextDeadline, lastNow, timeValid := INITIAL_RESULT, true, NoDeadline, 0, false;
      new;
      assert Views() == InitialState(config).inputs;
      assert movementRules[..] == InitialState(config).movementRules;
    }

    // ---- One predicate ----

    /** The loop that walks a run of edges backwards from the newest. */
    method MeasureRun(periodic: PeriodicEdgesConfig, i: nat, now: Tick) returns (runEdges: nat, runOldest: Tick)
      requires Valid() && i < |edges| && edges[i].count > 0
      ensures var history := View(i).edges;
              var start := RunStart(Wrapping, periodic, history, now, |history| - 1);
              runEdges == |history| - start && runOldest == history[start]
    {
      hide CompiledOk, Unrolled;
      var ring := edges[i];
      ghost var history := View(i).edges;
      var count := ring.count;
      runOldest := ring.EdgeAt(count - 1);
      runEdges := 1;
      var offset: nat := 1;
      while offset < count
        invariant 1 <= offset <= count && runEdges == offset && runOldest == history[count - offset]
        invariant RunStart(Wrapping, periodic, history, now, count - 1)
               == RunStart(Wrapping, periodic, history, now, count - offset)
      {
        var newer := ring.EdgeAt(count - offset);
        var older := ring.EdgeAt(count - offset - 1);
        var interval := (newer - older) % WRAP;
        if interval < periodic.minimumIntervalMs || interval > periodic.maximumIntervalMs { break; }
        if (now - older) % WRAP > periodic.observationWindowMs { break; }
        runOldest, runEdges, offset := older, runEdges + 1, offset + 1;
      }
    }

    method EvaluateStable(p: CompiledPredicate, now: Tick) returns (value: bool, deadline: Deadline)
      requires Valid() && p.kind == StableLevel && p.input < |config.inputIds| && inputs[p.input].valid
      ensures value == PredicateValue(Wrapping, p, Views()[p.input], now)
      ensures deadline == Earliest(Wrapping, now, PredicateCandidates(Wrapping, p, Views()[p.input], now))
    {
      hide CompiledOk, Consider, PeriodicValue, RunStart;
      var input := inputs[p.input];
      value, deadline := false, NoDeadline;
      if input.level != p.stable.level { return; }
      value := (now - input.levelSince) % WRAP >= p.stable.holdMs;
      if !value {
        var candidate := (input.levelSince + p.stable.holdMs) % WRAP;
        EarliestOfTwo(now, candidate, candidate);
        deadline := Consider(Wrapping, now, candidate, deadline);
      }
    }

    method EvaluatePeriodic(p: CompiledPredicate, now: Tick) returns (value: bool, deadline: Deadline)
      requires Valid() && p.kind != StableLevel && p.input < |config.inputIds| && inputs[p.input].valid
      ensures value == PredicateValue(Wrapping, p, Views()[p.input], now)
      ensures deadline == Earliest(Wrapping, now, PredicateCandidates(Wrapping, p, Views()[p.input], now))
    {
      hide CompiledOk, Consider, StableValue, RunStart, Unrolled, Earliest;
      var config := p.periodic;
      value, deadline := false, NoDeadline;
      EarliestOfTwo(now, 0, 0);
      if edges[p.input].count == 0 { return; }
      var newest := edges[p.input].EdgeAt(edges[p.input].count - 1);
      var runEdges, runOldest := MeasureRun(config, p.input, now);
      value := && runEdges >= config.minimumEdges
               && (now - runOldest) % WRAP <= config.observationWindowMs
               && (now - newest) % WRAP < config.maximumGapMs;
      if value {
        var gap, window := (newest + config.maximumGapMs) % WRAP, (runOldest + config.observationWindowMs + 1) % WRAP;
        EarliestOfTwo(now, gap, window);
        deadline := Consider(Wrapping, now, gap, deadline);
        deadline := Consider(Wrapping, now, window, deadline);
      }
    }

    method EvaluatePredicate(p: CompiledPredicate, now: Tick) returns (value: bool, deadline: Deadline)
      requires Valid() && p.input < |config.inputIds|
      ensures value == PredicateValue(Wrapping, p, Views()[p.input], now)
      ensures deadline == Earliest(Wrapping, now, PredicateCandidates(Wrapping, p, Views()[p.input], now))
    {
      hide CompiledOk, StableValue, PeriodicValue, RunStart, Unrolled;
      if !inputs[p.input].valid { return false, NoDeadline; }
      if p.kind == StableLevel {
        value, deadline := EvaluateStable(p, now);
      } else {
        value, deadline := EvaluatePeriodic(p, now);
      }
    }

    static lemma EarliestOfTwo(now: int, a: int, b: int)
      ensures Earliest(Wrapping, now, []) == NoDeadline
      ensures Earliest(Wrapping, now, [a]) == Consider(Wrapping, now, a, NoDeadline)
      ensures Earliest(Wrapping, now, [a, b]) == Consider(Wrapping, now, b, Consider(Wrapping, now, a, NoDeadline))
    {
      assert [a][..0] == [] && [a, b][..1] == [a];
    }

    // ---- One rule ----

    method EvaluateGroup(group: CompiledGroup, now: Tick, before: Deadline, ghost seen: seq<int>)
      returns (value: bool, deadline: Deadline)
      requires Valid() && CompiledGroupOk(group, |config.inputIds|)
      requires AllTicks(seen) && before == Earliest(Wrapping, now, seen)
      ensures value == GroupValue(Wrapping, group, Views(), now, |group.predicates|)
      ensures deadline == Earliest(Wrapping, now,
                                   seen + GroupCandidates(Wrapping, group, Views(), now, |group.predicates|))
    {
      hide CompiledOk, PredicateValue, PredicateCandidates, Earliest, Consider, CompiledPredicateOk;
      ghost var views := Views();
      value, deadline := true, before;
      assert seen + [] == seen;
      for p := 0 to |group.predicates|
        invariant Views() == views
        invariant value == GroupValue(Wrapping, group, views, now, p)
        invariant deadline == Earliest(Wrapping, now, seen + GroupCandidates(Wrapping, group, views, now, p))
      {
        var config := group.predicates[p];
        assert CompiledPredicateOk(config, |views|);
        InputInRange(config, |views|);
        var holds, wake := EvaluatePredicate(config, now);
        value := value && holds;
        ghost var sofar := seen + GroupCandidates(Wrapping, group, views, now, p);
        ghost var own := PredicateCandidates(Wrapping, config, views[config.input], now);
        assert seen + GroupCandidates(Wrapping, group, views, now, p + 1) == sofar + own;
        EarliestOfParts(Wrapping, now, sofar, own);
        deadline := ConsiderDeadline(Wrapping, now, wake, deadline);
      }
    }

    static lemma InputInRange(p: CompiledPredicate, inputCount: nat)
      requires CompiledPredicateOk(p, inputCount)
      ensures p.input < inputCount
    {
    }

    method EvaluateExpression(rule: CompiledRule, now: Tick) returns (value: bool, deadline: Deadline)
      requires Valid() && CompiledRuleOk(rule, |config.inputIds|)
      ensures value == RuleValue(Wrapping, rule, Views(), now, |rule.groups|)
      ensures deadline == Earliest(Wrapping, now, RuleCandidates(Wrapping, rule, Views(), now, |rule.groups|))
    {
      hide CompiledOk, GroupValue, GroupCandidates, Consider, CompiledGroupOk;
      ghost var views := Views();
      value, deadline := false, NoDeadline;
      for g := 0 to |rule.groups|
        invariant Views() == views
        invariant value == RuleValue(Wrapping, rule, views, now, g)
        invariant deadline == Earliest(Wrapping, now, RuleCandidates(Wrapping, rule, views, now, g))
      {
        assert CompiledGroupOk(rule.groups[g], |views|);
        var group;
        group, deadline := EvaluateGroup(rule.groups[g], now, deadline, RuleCandidates(Wrapping, rule, views, now, g));
        value := value || group;
      }
    }

    method EvaluateExpressions(now: Tick) returns (values: seq<bool>, deadline: Deadline)
      requires Valid()
      ensures values == Expressions(Wrapping, config.rules, Views(), now)
      ensures deadline == Earliest(Wrapping, now,
                                   ExpressionCandidates(Wrapping, config.rules, Views(), now, |config.rules|))
    {
      hide RuleValue, RuleCandidates, Consider, CompiledRuleOk, IsFamily, Earliest;
      ghost var views := Views();
      values, deadline := [], Earliest(Wrapping, now, []);
      for r := 0 to |config.rules|
        invariant Views() == views
        invariant |values| == r
        invariant forall k | 0 <= k < r ::
                    values[k] == RuleValue(Wrapping, config.rules[k], views, now, |config.rules[k].groups|)
        invariant deadline == Earliest(Wrapping, now, ExpressionCandidates(Wrapping, config.rules, views, now, r))
      {
        var value, wake := EvaluateExpression(config.rules[r], now);
        values := values + [value];
        EarliestOfParts(Wrapping, now, ExpressionCandidates(Wrapping, config.rules, views, now, r),
                        RuleCandidates(Wrapping, config.rules[r], views, now, |config.rules[r].groups|));
        deadline := ConsiderDeadline(Wrapping, now, wake, deadline);
      }
    }

    // ---- Movement lifecycles ----

    /** The transition of one rule; `changed` when it left its phase. */
    method StepLifecycle(r: nat, matched: bool, now: Tick) returns (changed: bool)
      requires Valid() && r < movementRules.Length
      modifies movementRules
      ensures movementRules[..]
           == old(movementRules[..])[r := LifecycleStep(Wrapping, config.rules[r].movement, matched,
                                                        old(movementRules[r]), now)]
      ensures changed <==> movementRules[r] != old(movementRules[r])
    {
      hide CompiledOk;
      var m, lifecycle := config.rules[r].movement, movementRules[r];
      changed := false;
      match lifecycle.phase {
        case Unmatched =>
          if matched {
            var phase := if m.entryConfirmationMs == 0 then Matched else EntryPending;
            lifecycle := lifecycle.(phase := phase, phaseSince := now);
            if phase == Matched { lifecycle := lifecycle.(matchedSince := now); }
            changed := true;
          }
        case EntryPending =>
          if !matched {
            lifecycle, changed := lifecycle.(phase := Unmatched, phaseSince := now), true;
          } else if (now - lifecycle.phaseSince) % WRAP >= m.entryConfirmationMs {
            lifecycle, changed := MovementRuleState(Matched, now, now), true;
          }
        case Matched =>
          if m.matchAgeLimitMs != 0 && (now - lifecycle.matchedSince) % WRAP >= m.matchAgeLimitMs {
            lifecycle, changed := lifecycle.(phase := Expired, phaseSince := now), true;
          } else if !matched {
            lifecycle := lifecycle.(phase := if m.lossConfirmationMs == 0 then Unmatched else LossPending,
                                    phaseSince := now);
            changed := true;
          }
        case LossPending =>
          if matched {
            lifecycle, changed := lifecycle.(phase := Matched, phaseSince := now), true;
          } else if (now - lifecycle.phaseSince) % WRAP >= m.lossConfirmationMs {
            lifecycle, changed := MovementRuleState(Unmatched, now, 0), true;
          }
        case Expired =>
          if !matched {
            lifecycle := lifecycle.(phase := if m.lossConfirmationMs == 0 then Unmatched else LossPending,
                                    phaseSince := now);
            changed := true;
          }
      }
      movementRules[r] := lifecycle;
    }

    /** `LifecycleSteps` of one rule, starting from what `from` holds. */
    ghost function Stepped(expressions: seq<bool>, from: seq<MovementRuleState>, now: Tick, r: nat,
        n: nat): MovementRuleState
      requires |expressions| == |from| == |config.rules| && r < |from|
    {
      if IsMovement(config, r) then LifecycleSteps(Wrapping, config.rules[r].movement, expressions[r], from[r], now, n)
      else from[r]
    }

    ghost function AllStepped(expressions: seq<bool>, from: seq<MovementRuleState>, now: Tick, n: nat)
      : (states: seq<MovementRuleState>)
      requires |expressions| == |from| == |config.rules|
      ensures |states| == |from|
    {
      seq(|from|, r requires 0 <= r < |from| => Stepped(expressions, from, now, r, n))
    }

    /** One more step of rule `r`. */
    ghost function OneStep(expressions: seq<bool>, states: seq<MovementRuleState>, now: Tick, r: nat): MovementRuleState
      requires |expressions| == |states| == |config.rules| && r < |states|
    {
      LifecycleStep(Wrapping, config.rules[r].movement, expressions[r], states[r], now)
    }

    /** `states` after the first `i` movement rules took their step. */
    ghost function PassUpTo(expressions: seq<bool>, states: seq<MovementRuleState>, now: Tick, i: nat)
      : (next: seq<MovementRuleState>)
      requires CompiledOk(config) && |expressions| == |states| == |config.rules| && i <= |config.movementRules|
      ensures |next| == |states|
    {
      if i == 0 then states
      else
        var previous, r := PassUpTo(expressions, states, now, i - 1), config.movementRules[i - 1];
        previous[r := OneStep(expressions, previous, now, r)]
    }

    /** Each listed rule takes its step from where it stood before the pass. */
    lemma {:induction false} PassSteps(expressions: seq<bool>, states: seq<MovementRuleState>, now: Tick, i: nat,
        r: nat)
      requires CompiledOk(config) && |expressions| == |states| == |config.rules| && i <= |config.movementRules|
      requires r < |states|
      ensures PassUpTo(expressions, states, now, i)[r]
           == if r in config.movementRules[..i] then OneStep(expressions, states, now, r) else states[r]
    {
      hide RulesOk, LifecycleStep;
      if i > 0 {
        PassSteps(expressions, states, now, i - 1, r);
        var family := config.movementRules;
        assert family[..i] == family[..i - 1] + [family[i - 1]];
        assert forall k | 0 <= k < i - 1 :: family[k] < family[i - 1];
      }
    }

    lemma WholePass(expressions: seq<bool>, from: seq<MovementRuleState>, now: Tick, n: nat)
      requires CompiledOk(config) && |expressions| == |from| == |config.rules|
      ensures PassUpTo(expressions, AllStepped(expressions, from, now, n), now, |config.movementRules|)
           == AllStepped(expressions, from, now, n + 1)
    {
      hide RulesOk, LifecycleStep, PassUpTo;
      var states, family := AllStepped(expressions, from, now, n), config.movementRules;
      forall r | 0 <= r < |from|
        ensures PassUpTo(expressions, states, now, |family|)[r] == Stepped(expressions, from, now, r, n + 1)
      {
        PassSteps(expressions, states, now, |family|, r);
        assert family[..|family|] == family;
        assert IsMovement(config, r) <==> r in family;
      }
    }

    /** One pass over the movement rules. */
    method LifecyclePass(expressions: seq<bool>, now: Tick) returns (changed: bool)
      requires Valid() && |expressions| == |config.rules|
      modifies movementRules
      ensures movementRules[..] == PassUpTo(expressions, old(movementRules[..]), now, |config.movementRules|)
      ensures !changed ==> movementRules[..] == old(movementRules[..])
    {
      hide RulesOk, LifecycleStep;
      changed := false;
      for i := 0 to |config.movementRules|
        invariant movementRules[..] == PassUpTo(expressions, old(movementRules[..]), now, i)
        invariant !changed ==> movementRules[..] == old(movementRules[..])
      {
        var r := config.movementRules[i];
        var moved := StepLifecycle(r, expressions[r], now);
        if moved { changed := true; }
      }
    }

    /** At most four passes, fewer when one changes nothing. */
    method RunLifecycles(expressions: seq<bool>, now: Tick)
      requires Valid() && |expressions| == |config.rules|
      modifies movementRules
      ensures movementRules[..] == SettleAll(Wrapping, config, expressions, old(movementRules[..]), now)
    {
      hide RulesOk, IsFamily, LifecycleStep, LifecycleSteps, PassUpTo, Stepped;
      ghost var from := movementRules[..];
      StartStepping(expressions, from, now);
      var pass: nat := 0;
      ghost var done := false;
      while pass < 4
        invariant pass <= 4 && !done && movementRules[..] == AllStepped(expressions, from, now, pass)
      {
        WholePass(expressions, from, now, pass);
        var changed := LifecyclePass(expressions, now);
        pass := pass + 1;
        if !changed { done := true; break; }
      }
      forall r | 0 <= r < |from|
        ensures movementRules[..][r] == SettleAll(Wrapping, config, expressions, from, now)[r]
      {
        assert done ==> AllStepped(expressions, from, now, pass)[r] == AllStepped(expressions, from, now, pass - 1)[r];
        PassesSettle(expressions, from, now, r, pass);
      }
    }

    lemma StartStepping(expressions: seq<bool>, from: seq<MovementRuleState>, now: Tick)
      requires |expressions| == |from| == |config.rules|
      ensures AllStepped(expressions, from, now, 0) == from
    {
    }

    /** Four passes, or a pass that changed nothing, leave a rule settled. */
    lemma PassesSettle(expressions: seq<bool>, from: seq<MovementRuleState>, now: Tick, r: nat, n: nat)
      requires |expressions| == |from| == |config.rules| && r < |from|
      requires n == 4 || (n > 0 && Stepped(expressions, from, now, r, n) == Stepped(expressions, from, now, r, n - 1))
      ensures Stepped(expressions, from, now, r, n) == SettleAll(Wrapping, config, expressions, from, now)[r]
    {
      if IsMovement(config, r) {
        StepsSettle(config.rules[r].movement, expressions[r], from[r], now, n);
      }
    }

    static lemma StepsSettle(m: MovementLifecycleConfig, matched: bool, s: MovementRuleState, now: int, n: nat)
      requires n == 4 || (n > 0
                          && LifecycleSteps(Wrapping, m, matched, s, now, n)
                               == LifecycleSteps(Wrapping, m, matched, s, now, n - 1))
      ensures LifecycleSteps(Wrapping, m, matched, s, now, n) == Settle(Wrapping, m, matched, s, now)
    {
      SettleSettles(Wrapping, m, matched, s, now);
      if n == 1 {
        assert LifecycleSteps(Wrapping, m, matched, s, now, 1) == LifecycleStep(Wrapping, m, matched, s, now);
      } else {
        StepsStay(m, matched, s, now, n);
      }
    }

    static lemma {:induction false} StepsStay(m: MovementLifecycleConfig, matched: bool, s: MovementRuleState,
        now: int, n: nat)
      requires n >= 2 && Settled(Wrapping, m, matched, LifecycleSteps(Wrapping, m, matched, s, now, 2), now)
      ensures LifecycleSteps(Wrapping, m, matched, s, now, n) == LifecycleSteps(Wrapping, m, matched, s, now, 2)
    {
      if n > 2 {
        StepsStay(m, matched, s, now, n - 1);
      }
    }

    /** The wake-ups of the settled rules. */
    method LifecycleDeadlines(expressions: seq<bool>, now: Tick, before: Deadline, ghost seen: seq<int>)
      returns (deadline: Deadline)
      requires Valid() && |expressions| == |config.rules|
      requires AllTicks(seen) && before == Earliest(Wrapping, now, seen)
      ensures deadline == Earliest(Wrapping, now, seen
                            + LifecycleCandidates(Wrapping, config, expressions, movementRules[..],
                                                  |config.movementRules|))
    {
      hide RulesOk, LifecycleRuleCandidates, Consider, Earliest;
      ghost var movement := movementRules[..];
      deadline := before;
      assert seen + [] == seen;
      for i := 0 to |config.movementRules|
        invariant deadline == Earliest(Wrapping, now,
                                       seen + LifecycleCandidates(Wrapping, config, expressions, movement, i))
      {
        var r := config.movementRules[i];
        ghost var sofar := seen + LifecycleCandidates(Wrapping, config, expressions, movement, i);
        ghost var own := LifecycleRuleCandidates(Wrapping, config.rules[r].movement, expressions[r], movement[r]);
        assert seen + LifecycleCandidates(Wrapping, config, expressions, movement, i + 1) == sofar + own;
        deadline := RuleDeadline(config.rules[r].movement, expressions[r], movementRules[r], now, deadline, sofar);
      }
    }

    static method RuleDeadline(m: MovementLifecycleConfig, matched: bool, lifecycle: MovementRuleState, now: Tick,
                               before: Deadline, ghost seen: seq<int>) returns (deadline: Deadline)
      requires AllTicks(seen) && before == Earliest(Wrapping, now, seen)
      ensures deadline == Earliest(Wrapping, now, seen + LifecycleRuleCandidates(Wrapping, m, matched, lifecycle))
    {
      hide Consider, Earliest;
      deadline := before;
      ghost var own := LifecycleRuleCandidates(Wrapping, m, matched, lifecycle);
      assert seen + [] == seen;
      match lifecycle.phase {
        case EntryPending =>
          Append(now, seen, (lifecycle.phaseSince + m.entryConfirmationMs) % WRAP);
          deadline := Consider(Wrapping, now, (lifecycle.phaseSince + m.entryConfirmationMs) % WRAP, deadline);
        case Matched =>
          if m.matchAgeLimitMs != 0 {
            Append(now, seen, (lifecycle.matchedSince + m.matchAgeLimitMs) % WRAP);
            deadline := Consider(Wrapping, now, (lifecycle.matchedSince + m.matchAgeLimitMs) % WRAP, deadline);
          }
        case LossPending =>
          ghost var sofar := seen;
          if m.matchAgeLimitMs != 0 {
            Append(now, seen, (lifecycle.matchedSince + m.matchAgeLimitMs) % WRAP);
            deadline := Consider(Wrapping, now, (lifecycle.matchedSince + m.matchAgeLimitMs) % WRAP, deadline);
            sofar := seen + [(lifecycle.matchedSince + m.matchAgeLimitMs) % WRAP];
          }
          Append(now, sofar, (lifecycle.phaseSince + m.lossConfirmationMs) % WRAP);
          assert sofar + [(lifecycle.phaseSince + m.lossConfirmationMs) % WRAP] == seen + own;
          deadline := Consider(Wrapping, now, (lifecycle.phaseSince + m.lossConfirmationMs) % WRAP, deadline);
        case Expired =>
          if !matched && m.lossConfirmationMs != 0 {
            Append(now, seen, (lifecycle.phaseSince + m.lossConfirmationMs) % WRAP);
            deadline := Consider(Wrapping, now, (lifecycle.phaseSince + m.lossConfirmationMs) % WRAP, deadline);
          }
        case Unmatched =>
      }
    }

    static lemma Append(now: int, seen: seq<int>, candidate: int)
      ensures Earliest(Wrapping, now, seen + [candidate])
                == Consider(Wrapping, now, candidate, Earliest(Wrapping, now, seen))
    {
      assert (seen + [candidate])[..|seen|] == seen;
    }

    // ---- Arbitration ----

    method CountPositions(expressions: seq<bool>) returns (tally: Tally<PositionValue>)
      requires Valid() && |expressions| == |config.rules|
      ensures tally == CountVotes(PositionVotes(config, expressions), Opened)
    {
      hide RulesOk;
      ghost var votes := PositionVotes(config, expressions);
      var seen, ambiguous, position := false, false, Opened;
      for i := 0 to |config.positionRules|
        invariant Tally(seen, ambiguous, position) == CountVotes(votes[..i], Opened)
      {
        var r := config.positionRules[i];
        assert votes[..i + 1][..i] == votes[..i];
        if expressions[r] {
          var value := config.rules[r].output.position;
          if seen && position != value { ambiguous := true; }
          position, seen := value, true;
        }
      }
      assert votes[..|votes|] == votes;
      tally := Tally(seen, ambiguous, position);
    }

    method CountMovements() returns (tally: Tally<MovementValue>)
      requires Valid()
      ensures tally == CountVotes(MovementVotes(config, movementRules[..]), Stopped)
    {
      hide RulesOk;
      ghost var votes := MovementVotes(config, movementRules[..]);
      var seen, ambiguous, movement := false, false, Stopped;
      for i := 0 to |config.movementRules|
        invariant Tally(seen, ambiguous, movement) == CountVotes(votes[..i], Stopped)
      {
        var r := config.movementRules[i];
        assert votes[..i + 1][..i] == votes[..i];
        if Asserted(movementRules[r]) {
          var value := config.rules[r].output.movement;
          if seen && movement != value { ambiguous := true; }
          movement, seen := value, true;
        }
      }
      assert votes[..|votes|] == votes;
      tally := Tally(seen, ambiguous, movement);
    }

    /** The part of the same loop that looks for rules withdrawn by age. */
    method FindExpired() returns (expired: bool, ageObstruction: bool)
      requires Valid()
      ensures expired == AnyExpired(config, movementRules[..])
      ensures ageObstruction == AnyAgeObstruction(config, movementRules[..])
    {
      hide RulesOk;
      ghost var rest := movementRules[..];
      var family := config.movementRules;
      expired, ageObstruction := false, false;
      for i := 0 to |family|
        invariant expired <==> exists k | 0 <= k < i :: ExpiredRule(config, rest, family[k])
        invariant ageObstruction <==> exists k | 0 <= k < i ::
                    ExpiredRule(config, rest, family[k]) && ObstructsOnExpiry(config.rules[family[k]].movement)
      {
        var r := family[i];
        assert IsMovement(config, r);
        if movementRules[r].phase == Expired {
          assert ExpiredRule(config, rest, family[i]);
          expired := true;
          ageObstruction := ageObstruction || ObstructsOnExpiry(config.rules[r].movement);
        }
      }
      forall r | 0 <= r < |rest| && ExpiredRule(config, rest, r)
        ensures exists k | 0 <= k < |family| :: family[k] == r
      {
        assert r in family;
      }
    }

    method FindFault(expressions: seq<bool>) returns (fault: bool)
      requires Valid() && |expressions| == |config.rules|
      ensures fault == AnyFault(config, expressions)
    {
      hide RulesOk;
      fault := false;
      var family := config.faultRules;
      for i := 0 to |family|
        invariant fault <==> exists k | 0 <= k < i :: ObstructingRule(config, expressions, family[k])
      {
        assert config.rules[family[i]].output.kind == Fault;
        if expressions[family[i]] && config.rules[family[i]].output.fault == Obstructed {
          assert ObstructingRule(config, expressions, family[i]);
          fault := true;
        }
      }
      forall r | 0 <= r < |config.rules| && ObstructingRule(config, expressions, r)
        ensures exists k | 0 <= k < |family| :: family[k] == r
      {
        assert r in family;
      }
    }

    method CheckInputs() returns (allValid: bool)
      requires Valid()
      ensures allValid == AllInputsValid(Views())
    {
      hide RulesOk, IsFamily;
      allValid := inputs.Length > 0;
      for i := 0 to inputs.Length
        invariant allValid <==> inputs.Length > 0 && forall k | 0 <= k < i :: inputs[k].valid
      {
        allValid := allValid && inputs[i].valid;
      }
      assert forall k | 0 <= k < inputs.Length :: Views()[k].valid == inputs[k].valid;
    }

    method Arbitrate(expressions: seq<bool>) returns (next: DecoderResult)
      requires Valid() && |expressions| == |config.rules|
      ensures next == Renumber(result, DecoderEvaluation.Arbitrate(config, expressions, movementRules[..], Views(),
                                                                   monitoringHealthy, result.generation))
    {
      hide CompiledOk, CountVotes, PositionVotes, MovementVotes, AnyExpired, AnyAgeObstruction, AnyFault,
        AllInputsValid;
      var inputsValid := CheckInputs();
      ghost var (views, rest) := (Views(), movementRules[..]);
      var position := CountPositions(expressions);
      var movement := CountMovements();
      var expired, ageObstruction := FindExpired();
      var faultObstruction := FindFault(expressions);
      var positionValid := position.seen && !position.ambiguous;
      var movementValid := movement.seen && !movement.ambiguous && !positionValid;
      var obstructed := !positionValid && (faultObstruction || ageObstruction);
      var health: DecoderHealth;
      if !monitoringHealthy {
        positionValid, movementValid, health := false, false, MonitoringFailed;
      } else if position.ambiguous {
        positionValid, movementValid, health := false, false, AmbiguousPosition;
      } else if movement.ambiguous {
        movementValid, health := false, AmbiguousMovement;
      } else if !inputsValid {
        health := GatheringEvidence;
      } else {
        health := Healthy;
      }
      next := DecoderResult(positionValid, position.value, movementValid, movement.value, obstructed, expired, health,
                            result.generation);
      assert Views() == views && movementRules[..] == rest;
      assert next == Publish(position, movement, expired, faultObstruction || ageObstruction, inputsValid,
                             monitoringHealthy, result.generation);
      if next != result {
        next := next.(generation := (next.generation + 1) % WRAP);
      }
    }

    // ---- Evaluation and the public calls ----

    method Evaluate(now: Tick)
      requires Valid()
      modifies this`result, this`nextDeadline, movementRules
      ensures Valid()
      ensures Evaluation(State(), nextDeadline) == DecoderEvaluation.Evaluate(Wrapping, config, old(State()), now)
    {
      hide RulesOk, IsFamily, Expressions, ExpressionCandidates, LifecycleCandidates, SettleAll, Earliest,
        DecoderEvaluation.Arbitrate;
      ghost var views := Views();
      nextDeadline := NoDeadline;
      assert Views() == views;
      var expressions, wake := EvaluateExpressions(now);
      assert Views() == views;
      ghost var candidates := ExpressionCandidates(Wrapping, config.rules, views, now, |config.rules|);
      assert wake == Earliest(Wrapping, now, candidates);
      RunLifecycles(expressions, now);
      assert Views() == views;
      var deadline := LifecycleDeadlines(expressions, now, wake, candidates);
      var next := Arbitrate(expressions);
      assert Views() == views && result == old(result);
      nextDeadline := deadline;
      result := next;
      assert Views() == views;
      ghost var e := DecoderEvaluation.Evaluate(Wrapping, config, old(State()), now);
      assert movementRules[..] == e.state.movementRules;
      assert result == e.state.result;
      assert nextDeadline == e.deadline;
    }

    method FindInput(id: Byte) returns (index: int)
      requires Valid()
      ensures var found := DecoderRuns.FindInput(config.inputIds, id, 0);
              index == if found < |config.inputIds| then found as int else -1
    {
      hide CompiledOk;
      var i := 0;
      while i < |config.inputIds|
        invariant 0 <= i <= |config.inputIds|
        invariant DecoderRuns.FindInput(config.inputIds, id, 0) == DecoderRuns.FindInput(config.inputIds, id, i)
      {
        if config.inputIds[i] == id { return i; }
        i := i + 1;
      }
      return -1;
    }

    method AcceptTime(now: Tick) returns (accepted: bool)
      requires Valid()
      modifies this`timeValid, this`lastNow
      ensures Valid()
      ensures accepted == InTime(Wrapping, old(Machine()), now)
      ensures Machine() == if accepted then old(Machine()).(lastNow := now, timeValid := true) else old(Machine())
    {
      hide CompiledOk;
      ghost var views := Views();
      if timeValid && Signed((now - lastNow) % WRAP) < 0 {
        assert Views() == views;
        return false;
      }
      timeValid, lastNow := true, now;
      assert Views() == views;
      return true;
    }

    method Initialize(id: Byte, level: bool, now: Tick) returns (accepted: bool)
      requires Valid()
      modifies Repr()
      ensures Valid()
      ensures accepted == Accepted(Wrapping, config, old(Machine()), Event.Initialize(id, level), now)
      ensures Machine() == Apply(Wrapping, config, old(Machine()), Event.Initialize(id, level), now)
    {
      hide CompiledOk, DecoderEvaluation.Evaluate;
      ghost var views := Views();
      var index := FindInput(id);
      if index < 0 || inputs[index].valid { return false; }
      accepted := AcceptTime(now);
      if !accepted { return; }
      inputs[index] := InputState(true, level, now, now);
      assert Views() == views[index := InputView(true, level, now, now, views[index].edges)];
      Evaluate(now);
    }

    method Update(id: Byte, level: bool, now: Tick) returns (accepted: bool)
      requires Valid()
      modifies Repr()
      ensures Valid()
      ensures accepted == Accepted(Wrapping, config, old(Machine()), Event.Update(id, level), now)
      ensures Machine() == Apply(Wrapping, config, old(Machine()), Event.Update(id, level), now)
    {
      hide CompiledOk, DecoderEvaluation.Evaluate, Unrolled, DecoderRuns.PushEdge;
      ghost var views := Views();
      var index := FindInput(id);
      if index < 0 || !inputs[index].valid { return false; }
      accepted := AcceptTime(now);
      if !accepted { return; }
      TakeLevel(index, level, now);
      Evaluate(now);
    }

    /** A change of level is dated and pushed; a level that is already there is nothing new. */
    method TakeLevel(index: nat, level: bool, now: Tick)
      requires Valid() && index < inputs.Length && inputs[index].valid
      modifies inputs, edges[index], edges[index].timestamps
      ensures Valid() && Views() == old(Views())[index := UpdatedInput(old(Views())[index], level, now)]
    {
      hide CompiledOk, Unrolled, DecoderRuns.PushEdge;
      if inputs[index].level != level {
        inputs[index] := InputState(true, level, now, now);
        edges[index].PushEdge(now);
      }
    }

    method SetMonitoringHealthy(healthy: bool, now: Tick)
      requires Valid()
      modifies Repr()
      ensures Valid()
      ensures Machine() == Apply(Wrapping, config, old(Machine()), Event.SetMonitoringHealthy(healthy), now)
    {
      hide CompiledOk, DecoderEvaluation.Evaluate;
      var accepted := AcceptTime(now);
      if !accepted { return; }
      ghost var views := Views();
      monitoringHealthy := healthy;
      assert Views() == views;
      Evaluate(now);
    }

    method Advance(now: Tick)
      requires Valid()
      modifies Repr()
      ensures Valid()
      ensures Machine() == Apply(Wrapping, config, old(Machine()), Event.Advance, now)
    {
      hide CompiledOk, DecoderEvaluation.Evaluate;
      var accepted := AcceptTime(now);
      if !accepted { return; }
      Evaluate(now);
    }
  }
}

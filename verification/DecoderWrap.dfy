/** The firmware's 32-bit clock shows the decoder of real time: reducing every timestamp modulo
    2^32 commutes with every call, while no retained timestamp is a full wrap old. */
module DecoderWrap {
  import opened Ticks
  import opened DecoderModel
  import opened DecoderEvaluation
  import opened DecoderQuiet
  import opened DecoderRuns

  function WrapInput(input: InputView): InputView {
    InputView(input.valid, input.level, Wrap(input.levelSince), Wrap(input.lastEdgeAt), WrapAll(input.edges))
  }

  function WrapInputs(inputs: seq<InputView>): (wrapped: seq<InputView>)
    ensures |wrapped| == |inputs|
  {
    seq(|inputs|, i requires 0 <= i < |inputs| => WrapInput(inputs[i]))
  }

  function WrapMovement(s: MovementRuleState): MovementRuleState {
    MovementRuleState(s.phase, Wrap(s.phaseSince), Wrap(s.matchedSince))
  }

  function WrapMovements(movement: seq<MovementRuleState>): (wrapped: seq<MovementRuleState>)
    ensures |wrapped| == |movement|
  {
    seq(|movement|, r requires 0 <= r < |movement| => WrapMovement(movement[r]))
  }

  function WrapState(state: DecoderState): DecoderState {
    DecoderState(WrapInputs(state.inputs), WrapMovements(state.movementRules), state.result, state.monitoringHealthy)
  }

  function WrapMachine(machine: Machine): Machine {
    Machine(WrapState(machine.state), WrapDeadline(machine.deadline), Wrap(machine.lastNow), machine.timeValid)
  }

  lemma WrapAllSplits(a: seq<int>, b: seq<int>)
    ensures WrapAll(a + b) == WrapAll(a) + WrapAll(b)
  {
  }

  // ---- The horizon ----

  predicate Recent(since: int, now: int) {
    0 <= now - since < WRAP
  }

  /** The search for a run of edges looks at those of the run and at the one before it. */
  ghost predicate FreshEdges(config: PeriodicEdgesConfig, edges: seq<int>, now: int) {
    InOrder(edges) && (edges != [] ==> FreshFrom(edges, now, RunStart(Unbounded, config, edges, now, |edges| - 1) - 1))
  }

  ghost predicate FreshFrom(edges: seq<int>, now: int, from: int) {
    forall k | 0 <= k < |edges| && from <= k :: Recent(edges[k], now)
  }

  /** The timestamps a predicate consults are less than one wrap old. A level other than the one it
      asks for may have lasted for any length of time. */
  ghost predicate FreshInput(p: CompiledPredicate, input: InputView, now: int) {
    input.valid ==>
      if p.kind == StableLevel then input.level == p.stable.level ==> Recent(input.levelSince, now)
      else FreshEdges(p.periodic, input.edges, now)
  }

  ghost predicate FreshGroup(group: CompiledGroup, inputs: seq<InputView>, now: int)
    requires CompiledGroupOk(group, |inputs|)
  {
    forall p | 0 <= p < |group.predicates| :: FreshInput(group.predicates[p], inputs[group.predicates[p].input], now)
  }

  ghost predicate FreshRule(rule: CompiledRule, inputs: seq<InputView>, now: int)
    requires CompiledRuleOk(rule, |inputs|)
  {
    forall g | 0 <= g < |rule.groups| :: FreshGroup(rule.groups[g], inputs, now)
  }

  ghost predicate FreshRules(rules: seq<CompiledRule>, inputs: seq<InputView>, now: int)
    requires RulesOk(rules, |inputs|)
  {
    forall r | 0 <= r < |rules| :: FreshRule(rules[r], inputs, now)
  }

  /** The timestamps the phase of a rule still consults are less than one wrap old. A rule whose
      match has no age limit may stay matched, and an expired one expired, for any length of time. */
  predicate FreshMovement(m: MovementLifecycleConfig, matched: bool, s: MovementRuleState, now: int) {
    && (s.phase == EntryPending || s.phase == LossPending ==> Recent(s.phaseSince, now))
    && (m.matchAgeLimitMs != 0 && (s.phase == Matched || s.phase == LossPending) ==> Recent(s.matchedSince, now))
    && var settled := Settle(Unbounded, m, matched, s, now);
       (m.matchAgeLimitMs != 0 && settled.phase == LossPending ==>
          0 <= now - settled.matchedSince <= m.matchAgeLimitMs + HALF)
  }

  ghost predicate Fresh(decoder: CompiledDecoder, state: DecoderState, now: int)
    requires CompiledOk(decoder) && StateShaped(decoder, state)
  {
    && FreshRules(decoder.rules, state.inputs, now)
    && forall r | 0 <= r < |decoder.rules| && IsMovement(decoder, r) ::
         FreshMovement(decoder.rules[r].movement, Expressions(Unbounded, decoder.rules, state.inputs, now)[r],
                       state.movementRules[r], now)
  }

  /** Why the match age of a rule that is losing its match has to stay within half a wrap of its
      limit: beyond that, and only there, the limit that has long passed reads as one still to come. */
  lemma StaleAgeLimitLooksAhead(m: MovementLifecycleConfig, matchedSince: int, now: int)
    requires 0 <= m.matchAgeLimitMs <= MAX_DURATION_MS && Recent(matchedSince, now)
    ensures !IsFuture(Unbounded, now, matchedSince + m.matchAgeLimitMs) ==>
              (IsFuture(Wrapping, Wrap(now), Wrap(matchedSince + m.matchAgeLimitMs))
               <==> now - matchedSince > m.matchAgeLimitMs + HALF)
  {
    var candidate := matchedSince + m.matchAgeLimitMs;
    assert (Wrap(candidate) - Wrap(now)) % WRAP == (candidate - now) % WRAP;
  }

  // ---- Predicates ----

  lemma {:induction false} RunStartWraps(config: PeriodicEdgesConfig, edges: seq<int>, now: int, i: nat)
    requires i < |edges| && InOrder(edges) && FreshFrom(edges, now, RunStart(Unbounded, config, edges, now, i) - 1)
    ensures RunStart(Wrapping, config, WrapAll(edges), Wrap(now), i) == RunStart(Unbounded, config, edges, now, i)
  {
    if i > 0 {
      WrappedAge(edges[i], edges[i - 1]);
      WrappedAge(now, edges[i - 1]);
      if RunStart(Unbounded, config, edges, now, i) < i {
        RunStartWraps(config, edges, now, i - 1);
      }
    }
  }

  lemma PeriodicWraps(config: PeriodicEdgesConfig, edges: seq<int>, now: int)
    requires FreshEdges(config, edges, now)
    ensures PeriodicValue(Wrapping, config, WrapAll(edges), Wrap(now)) == PeriodicValue(Unbounded, config, edges, now)
  {
    if edges != [] {
      var newest := |edges| - 1;
      RunStartWraps(config, edges, now, newest);
      WrappedAge(now, edges[RunStart(Unbounded, config, edges, now, newest)]);
      WrappedAge(now, edges[newest]);
    }
  }

  /** A matching run has two edges at least, so its oldest edge is strictly in the past. */
  lemma MatchingRunIsOld(config: PeriodicEdgesConfig, edges: seq<int>, now: int)
    requires PeriodicOk(config) && InOrder(edges) && PeriodicValue(Unbounded, config, edges, now)
    requires edges[|edges| - 1] <= now
    ensures edges[RunStart(Unbounded, config, edges, now, |edges| - 1)] < now
  {
    var newest := |edges| - 1;
    Ordered(edges, RunStart(Unbounded, config, edges, now, newest), newest - 1);
  }

  lemma StableWraps(config: StableLevelConfig, input: InputView, now: int)
    requires StableOk(config) && (input.level == config.level ==> Recent(input.levelSince, now))
    ensures StableValue(Wrapping, config, WrapInput(input), Wrap(now)) == StableValue(Unbounded, config, input, now)
    ensures !StableValue(Unbounded, config, input, now) && input.level == config.level ==>
              now <= After(Unbounded, input.levelSince, config.holdMs) < now + HALF
  {
    if input.level == config.level {
      WrappedAge(now, input.levelSince);
    }
  }

  lemma PeriodicCandidatesNear(config: PeriodicEdgesConfig, edges: seq<int>, now: int)
    requires PeriodicOk(config) && FreshEdges(config, edges, now) && PeriodicValue(Unbounded, config, edges, now)
    ensures now <= After(Unbounded, edges[|edges| - 1], config.maximumGapMs) < now + HALF
    ensures now <= After(Unbounded, edges[RunStart(Unbounded, config, edges, now, |edges| - 1)],
                         config.observationWindowMs + 1) < now + HALF
  {
    MatchingRunIsOld(config, edges, now);
  }

  lemma PredicateWraps(p: CompiledPredicate, input: InputView, now: int)
    requires CompiledPredicateOk(p, p.input + 1) && FreshInput(p, input, now)
    ensures PredicateValue(Wrapping, p, WrapInput(input), Wrap(now)) == PredicateValue(Unbounded, p, input, now)
    ensures PredicateCandidates(Wrapping, p, WrapInput(input), Wrap(now))
         == WrapAll(PredicateCandidates(Unbounded, p, input, now))
    ensures NearEnough(now, PredicateCandidates(Unbounded, p, input, now))
  {
    hide StableValue, PeriodicValue, RunStart, After, Wrap;
    if !input.valid {
    } else if p.kind == StableLevel {
      StableWraps(p.stable, input, now);
      WrappedAfter(input.levelSince, p.stable.holdMs);
    } else {
      PeriodicWraps(p.periodic, input.edges, now);
      if PeriodicValue(Unbounded, p.periodic, input.edges, now) {
        HasEdges(p.periodic, input.edges, now);
        RunStartWraps(p.periodic, input.edges, now, |input.edges| - 1);
        PeriodicCandidatesNear(p.periodic, input.edges, now);
        WrappedAfter(input.edges[|input.edges| - 1], p.periodic.maximumGapMs);
        WrappedAfter(input.edges[RunStart(Unbounded, p.periodic, input.edges, now, |input.edges| - 1)],
                     p.periodic.observationWindowMs + 1);
      }
    }
  }

  lemma HasEdges(config: PeriodicEdgesConfig, edges: seq<int>, now: int)
    requires PeriodicValue(Unbounded, config, edges, now)
    ensures |edges| > 0
  {
  }

  // ---- Expressions ----

  lemma {:induction false} GroupWraps(group: CompiledGroup, inputs: seq<InputView>, now: int, n: nat)
    requires CompiledGroupOk(group, |inputs|) && n <= |group.predicates| && FreshGroup(group, inputs, now)
    ensures GroupValue(Wrapping, group, WrapInputs(inputs), Wrap(now), n)
              == GroupValue(Unbounded, group, inputs, now, n)
    ensures GroupCandidates(Wrapping, group, WrapInputs(inputs), Wrap(now), n)
         == WrapAll(GroupCandidates(Unbounded, group, inputs, now, n))
    ensures NearEnough(now, GroupCandidates(Unbounded, group, inputs, now, n))
  {
    hide PredicateValue, PredicateCandidates, WrapInput, FreshInput;
    if n > 0 {
      var p := group.predicates[n - 1];
      assert CompiledPredicateOk(p, |inputs|);
      GroupWraps(group, inputs, now, n - 1);
      PredicateWraps(p, inputs[p.input], now);
      WrapAllSplits(GroupCandidates(Unbounded, group, inputs, now, n - 1),
                    PredicateCandidates(Unbounded, p, inputs[p.input], now));
      GroupValueSplits(Unbounded, group, inputs, now, n);
      GroupValueSplits(Wrapping, group, WrapInputs(inputs), Wrap(now), n);
    }
  }

  lemma {:induction false} RuleWraps(rule: CompiledRule, inputs: seq<InputView>, now: int, n: nat)
    requires CompiledRuleOk(rule, |inputs|) && n <= |rule.groups| && FreshRule(rule, inputs, now)
    ensures RuleValue(Wrapping, rule, WrapInputs(inputs), Wrap(now), n) == RuleValue(Unbounded, rule, inputs, now, n)
    ensures RuleCandidates(Wrapping, rule, WrapInputs(inputs), Wrap(now), n)
         == WrapAll(RuleCandidates(Unbounded, rule, inputs, now, n))
    ensures NearEnough(now, RuleCandidates(Unbounded, rule, inputs, now, n))
  {
    hide CompiledGroupOk, GroupValue, FreshGroup, WrapInput;
    if n > 0 {
      var group := rule.groups[n - 1];
      RuleWraps(rule, inputs, now, n - 1);
      GroupWraps(group, inputs, now, |group.predicates|);
      WrapAllSplits(RuleCandidates(Unbounded, rule, inputs, now, n - 1),
                    GroupCandidates(Unbounded, group, inputs, now, |group.predicates|));
      RuleValueSplits(Unbounded, rule, inputs, now, n);
      RuleValueSplits(Wrapping, rule, WrapInputs(inputs), Wrap(now), n);
    }
  }

  lemma {:induction false} ExpressionCandidatesWrap(rules: seq<CompiledRule>, inputs: seq<InputView>, now: int, n: nat)
    requires RulesOk(rules, |inputs|) && n <= |rules| && FreshRules(rules, inputs, now)
    ensures ExpressionCandidates(Wrapping, rules, WrapInputs(inputs), Wrap(now), n)
         == WrapAll(ExpressionCandidates(Unbounded, rules, inputs, now, n))
    ensures NearEnough(now, ExpressionCandidates(Unbounded, rules, inputs, now, n))
  {
    hide CompiledRuleOk, FreshRule, WrapInput, RuleValue, RuleCandidates;
    if n > 0 {
      var rule := rules[n - 1];
      ExpressionCandidatesWrap(rules, inputs, now, n - 1);
      RuleWraps(rule, inputs, now, |rule.groups|);
      WrapAllSplits(ExpressionCandidates(Unbounded, rules, inputs, now, n - 1),
                    RuleCandidates(Unbounded, rule, inputs, now, |rule.groups|));
    }
  }

  lemma ExpressionsWrap(rules: seq<CompiledRule>, inputs: seq<InputView>, now: int)
    requires RulesOk(rules, |inputs|) && FreshRules(rules, inputs, now)
    ensures Expressions(Wrapping, rules, WrapInputs(inputs), Wrap(now)) == Expressions(Unbounded, rules, inputs, now)
  {
    hide CompiledRuleOk, FreshRule, WrapInput, RuleValue;
    forall r | 0 <= r < |rules|
      ensures RuleValue(Wrapping, rules[r], WrapInputs(inputs), Wrap(now), |rules[r].groups|)
           == RuleValue(Unbounded, rules[r], inputs, now, |rules[r].groups|)
    {
      RuleWraps(rules[r], inputs, now, |rules[r].groups|);
    }
  }

  // ---- Lifecycles ----

  lemma LifecycleStepWraps(m: MovementLifecycleConfig, matched: bool, s: MovementRuleState, now: int)
    requires s.phase == EntryPending || s.phase == LossPending ==> Recent(s.phaseSince, now)
    requires m.matchAgeLimitMs != 0 && s.phase == Matched ==> Recent(s.matchedSince, now)
    ensures LifecycleStep(Wrapping, m, matched, WrapMovement(s), Wrap(now))
         == WrapMovement(LifecycleStep(Unbounded, m, matched, s, now))
  {
    if s.phase == EntryPending || s.phase == LossPending {
      WrappedAge(now, s.phaseSince);
    } else if s.phase == Matched && m.matchAgeLimitMs != 0 {
      WrappedAge(now, s.matchedSince);
    }
  }

  lemma SettleWraps(m: MovementLifecycleConfig, matched: bool, s: MovementRuleState, now: int)
    requires FreshMovement(m, matched, s, now)
    ensures Settle(Wrapping, m, matched, WrapMovement(s), Wrap(now))
              == WrapMovement(Settle(Unbounded, m, matched, s, now))
  {
    var one := LifecycleStep(Unbounded, m, matched, s, now);
    LifecycleStepWraps(m, matched, s, now);
    LifecycleStepWraps(m, matched, one, now);
    assert LifecycleSteps(Unbounded, m, matched, s, now, 1) == one;
    assert LifecycleSteps(Wrapping, m, matched, WrapMovement(s), Wrap(now), 1) == WrapMovement(one);
  }

  /** What a settled rule may still be waiting for lies near the present. */
  lemma SettledIsRecent(m: MovementLifecycleConfig, matched: bool, s: MovementRuleState, now: int)
    requires FreshMovement(m, matched, s, now)
    ensures var settled := Settle(Unbounded, m, matched, s, now);
            && (settled.phase == EntryPending ==> 0 <= now - settled.phaseSince < m.entryConfirmationMs)
            && (settled.phase == LossPending ==> 0 <= now - settled.phaseSince < m.lossConfirmationMs)
            && (settled.phase == Matched && m.matchAgeLimitMs != 0 ==>
                  0 <= now - settled.matchedSince < m.matchAgeLimitMs)
            && (settled.phase == Expired ==> matched)
  {
    SettleSettles(Unbounded, m, matched, s, now);
    var one := LifecycleStep(Unbounded, m, matched, s, now);
    assert LifecycleSteps(Unbounded, m, matched, s, now, 1) == one;
  }

  lemma LifecycleCandidatesNear(output: RuleOutputConfig, m: MovementLifecycleConfig, matched: bool,
      s: MovementRuleState, now: int)
    requires LifecycleOk(output, m) && FreshMovement(m, matched, s, now)
    ensures var settled := Settle(Unbounded, m, matched, s, now);
            && LifecycleRuleCandidates(Wrapping, m, matched, WrapMovement(settled))
               == WrapAll(LifecycleRuleCandidates(Unbounded, m, matched, settled))
            && NearEnough(now, LifecycleRuleCandidates(Unbounded, m, matched, settled))
  {
    var settled := Settle(Unbounded, m, matched, s, now);
    SettledIsRecent(m, matched, s, now);
    LossAgeIsNear(output, m, matched, s, now);
    hide Settle, After, Wrap, FreshMovement;
    WrappedAfter(settled.phaseSince, m.entryConfirmationMs);
    WrappedAfter(settled.phaseSince, m.lossConfirmationMs);
    WrappedAfter(settled.matchedSince, m.matchAgeLimitMs);
    SettledIsNear(output, m, settled, now);
  }

  lemma LossAgeIsNear(output: RuleOutputConfig, m: MovementLifecycleConfig, matched: bool, s: MovementRuleState,
      now: int)
    requires LifecycleOk(output, m) && FreshMovement(m, matched, s, now)
    ensures var settled := Settle(Unbounded, m, matched, s, now);
            settled.phase == LossPending && m.matchAgeLimitMs != 0 ==>
              -HALF <= After(Unbounded, settled.matchedSince, m.matchAgeLimitMs) - now < HALF
  {
  }

  lemma SettledIsNear(output: RuleOutputConfig, m: MovementLifecycleConfig, settled: MovementRuleState, now: int)
    requires LifecycleOk(output, m)
    ensures 0 <= now - settled.phaseSince < m.entryConfirmationMs ==>
              -HALF <= After(Unbounded, settled.phaseSince, m.entryConfirmationMs) - now < HALF
    ensures 0 <= now - settled.phaseSince < m.lossConfirmationMs ==>
              -HALF <= After(Unbounded, settled.phaseSince, m.lossConfirmationMs) - now < HALF
    ensures 0 <= now - settled.matchedSince < m.matchAgeLimitMs ==>
              -HALF <= After(Unbounded, settled.matchedSince, m.matchAgeLimitMs) - now < HALF
  {
  }

  lemma {:induction false} LifecyclesWrap(decoder: CompiledDecoder, expressions: seq<bool>,
      movement: seq<MovementRuleState>, now: int, n: nat)
    requires |expressions| == |movement| == |decoder.rules|
    requires n <= |decoder.movementRules| && forall i | 0 <= i < n :: decoder.movementRules[i] < |decoder.rules|
    requires forall i | 0 <= i < n :: var r := decoder.movementRules[i];
               && LifecycleRuleCandidates(Wrapping, decoder.rules[r].movement, expressions[r],
                                          WrapMovement(movement[r]))
                  == WrapAll(LifecycleRuleCandidates(Unbounded, decoder.rules[r].movement, expressions[r], movement[r]))
               && NearEnough(now,
                             LifecycleRuleCandidates(Unbounded, decoder.rules[r].movement, expressions[r], movement[r]))
    ensures LifecycleCandidates(Wrapping, decoder, expressions, WrapMovements(movement), n)
         == WrapAll(LifecycleCandidates(Unbounded, decoder, expressions, movement, n))
    ensures NearEnough(now, LifecycleCandidates(Unbounded, decoder, expressions, movement, n))
  {
    hide LifecycleRuleCandidates;
    if n > 0 {
      var r := decoder.movementRules[n - 1];
      LifecyclesWrap(decoder, expressions, movement, now, n - 1);
      WrapAllSplits(LifecycleCandidates(Unbounded, decoder, expressions, movement, n - 1),
                    LifecycleRuleCandidates(Unbounded, decoder.rules[r].movement, expressions[r], movement[r]));
    }
  }

  lemma SettleAllWraps(decoder: CompiledDecoder, state: DecoderState, now: int)
    requires CompiledOk(decoder) && StateShaped(decoder, state) && Fresh(decoder, state, now)
    ensures var expressions := Expressions(Unbounded, decoder.rules, state.inputs, now);
            SettleAll(Wrapping, decoder, expressions, WrapMovements(state.movementRules), Wrap(now))
            == WrapMovements(SettleAll(Unbounded, decoder, expressions, state.movementRules, now))
  {
    hide RulesOk, IsFamily, WrapMovement, FreshMovement, RuleValue, Settle;
    var expressions := Expressions(Unbounded, decoder.rules, state.inputs, now);
    forall r | 0 <= r < |decoder.rules| && IsMovement(decoder, r)
      ensures Settle(Wrapping, decoder.rules[r].movement, expressions[r], WrapMovement(state.movementRules[r]),
                     Wrap(now))
           == WrapMovement(Settle(Unbounded, decoder.rules[r].movement, expressions[r], state.movementRules[r], now))
    {
      SettleWraps(decoder.rules[r].movement, expressions[r], state.movementRules[r], now);
    }
  }

  // ---- Arbitration reads phases only ----

  lemma ArbitrationIgnoresTime(decoder: CompiledDecoder, expressions: seq<bool>, movement: seq<MovementRuleState>,
                               inputs: seq<InputView>, healthy: bool, generation: Tick)
    requires CompiledOk(decoder) && |expressions| == |movement| == |decoder.rules|
    ensures Arbitrate(decoder, expressions, WrapMovements(movement), WrapInputs(inputs), healthy, generation)
         == Arbitrate(decoder, expressions, movement, inputs, healthy, generation)
  {
    hide RulesOk, CountVotes, Publish;
    var wrapped := WrapMovements(movement);
    assert MovementVotes(decoder, wrapped) == MovementVotes(decoder, movement);
    assert forall r | 0 <= r < |movement| :: ExpiredRule(decoder, wrapped, r) == ExpiredRule(decoder, movement, r);
    assert AnyExpired(decoder, wrapped) == AnyExpired(decoder, movement);
    assert AnyAgeObstruction(decoder, wrapped) == AnyAgeObstruction(decoder, movement);
    assert forall i | 0 <= i < |inputs| :: WrapInputs(inputs)[i].valid == inputs[i].valid;
  }

  // ---- Evaluation and runs ----

  lemma AllCandidatesWrap(decoder: CompiledDecoder, state: DecoderState, now: int)
    requires CompiledOk(decoder) && StateShaped(decoder, state) && Fresh(decoder, state, now)
    ensures var expressions := Expressions(Unbounded, decoder.rules, state.inputs, now);
            var movement := SettleAll(Unbounded, decoder, expressions, state.movementRules, now);
            && AllCandidates(Wrapping, decoder, WrapInputs(state.inputs), WrapMovements(movement), Wrap(now))
               == WrapAll(AllCandidates(Unbounded, decoder, state.inputs, movement, now))
            && NearEnough(now, AllCandidates(Unbounded, decoder, state.inputs, movement, now))
  {
    hide CompiledRuleOk, WrapInput, FreshRules, FreshMovement, LifecycleRuleCandidates, RuleValue, Settle,
      ExpressionCandidates, LifecycleCandidates;
    var expressions := Expressions(Unbounded, decoder.rules, state.inputs, now);
    var movement := SettleAll(Unbounded, decoder, expressions, state.movementRules, now);
    ExpressionsWrap(decoder.rules, state.inputs, now);
    ExpressionCandidatesWrap(decoder.rules, state.inputs, now, |decoder.rules|);
    forall i | 0 <= i < |decoder.movementRules|
      ensures var r := decoder.movementRules[i];
              && LifecycleRuleCandidates(Wrapping, decoder.rules[r].movement, expressions[r], WrapMovement(movement[r]))
                 == WrapAll(LifecycleRuleCandidates(Unbounded, decoder.rules[r].movement, expressions[r], movement[r]))
              && NearEnough(now,
                            LifecycleRuleCandidates(Unbounded, decoder.rules[r].movement, expressions[r], movement[r]))
    {
      var r := decoder.movementRules[i];
      RuleLifecycleOk(decoder, r);
      LifecycleCandidatesNear(decoder.rules[r].output, decoder.rules[r].movement, expressions[r],
                              state.movementRules[r], now);
    }
    LifecyclesWrap(decoder, expressions, movement, now, |decoder.movementRules|);
    WrapAllSplits(ExpressionCandidates(Unbounded, decoder.rules, state.inputs, now, |decoder.rules|),
                  LifecycleCandidates(Unbounded, decoder, expressions, movement, |decoder.movementRules|));
  }

  lemma RuleLifecycleOk(decoder: CompiledDecoder, r: nat)
    requires CompiledOk(decoder) && r < |decoder.rules|
    ensures LifecycleOk(decoder.rules[r].output, decoder.rules[r].movement)
  {
  }

  /** The firmware's evaluation, on reduced timestamps, is the reduced evaluation of real time. */
  lemma EvaluateWraps(decoder: CompiledDecoder, state: DecoderState, now: int)
    requires CompiledOk(decoder) && StateShaped(decoder, state) && Fresh(decoder, state, now)
    ensures var ideal := Evaluate(Unbounded, decoder, state, now);
            Evaluate(Wrapping, decoder, WrapState(state), Wrap(now))
            == Evaluation(WrapState(ideal.state), WrapDeadline(ideal.deadline))
  {
    hide CompiledOk, FreshMovement, FreshRules, Settle, WrapInput, WrapMovement, RuleValue, Arbitrate,
      ExpressionCandidates, LifecycleCandidates, AllCandidates, SettleAll, Earliest, Expressions;
    RulesOfDecoder(decoder);
    var expressions := Expressions(Unbounded, decoder.rules, state.inputs, now);
    var movement := SettleAll(Unbounded, decoder, expressions, state.movementRules, now);
    FreshParts(decoder, state, now);
    ExpressionsWrap(decoder.rules, state.inputs, now);
    SettleAllWraps(decoder, state, now);
    AllCandidatesWrap(decoder, state, now);
    WrappedEarliest(now, AllCandidates(Unbounded, decoder, state.inputs, movement, now));
    ArbitrationIgnoresTime(decoder, expressions, movement, state.inputs, state.monitoringHealthy,
                           state.result.generation);
  }

  lemma FreshParts(decoder: CompiledDecoder, state: DecoderState, now: int)
    requires CompiledOk(decoder) && StateShaped(decoder, state) && Fresh(decoder, state, now)
    ensures FreshRules(decoder.rules, state.inputs, now)
  {
  }

  // ---- Runs ----

  /** A call within half a wrap of the last accepted one, on evidence less than a wrap old. */
  ghost predicate CallInHorizon(decoder: CompiledDecoder, machine: Machine, event: Event, now: int)
    requires CompiledOk(decoder) && StateShaped(decoder, machine.state)
  {
    && (machine.timeValid ==> -HALF <= now - machine.lastNow < HALF)
    && (Accepted(Unbounded, decoder, machine, event, now) ==>
          Fresh(decoder, Record(decoder, machine.state, event, now), now))
  }

  ghost predicate InHorizon(decoder: CompiledDecoder, machine: Machine, run: seq<Timed>)
    requires CompiledOk(decoder) && StateShaped(decoder, machine.state)
    decreases |run|
  {
    run != [] ==>
      && CallInHorizon(decoder, machine, run[0].event, run[0].at)
      && InHorizon(decoder, Apply(Unbounded, decoder, machine, run[0].event, run[0].at), run[1..])
  }

  function WrapRun(run: seq<Timed>): (wrapped: seq<Timed>)
    ensures |wrapped| == |run|
  {
    seq(|run|, i requires 0 <= i < |run| => Timed(run[i].event, Wrap(run[i].at)))
  }

  lemma PushWraps(edges: seq<int>, at: int)
    ensures PushEdge(WrapAll(edges), Wrap(at)) == WrapAll(PushEdge(edges, at))
  {
    assert WrapAll(edges + [at]) == WrapAll(edges) + [Wrap(at)];
    if edges != [] {
      assert WrapAll(edges[1..] + [at]) == WrapAll(edges)[1..] + [Wrap(at)];
    }
  }

  lemma RecordWraps(decoder: CompiledDecoder, state: DecoderState, event: Event, now: int)
    requires StateShaped(decoder, state)
    ensures Meaningful(decoder, WrapState(state), event) == Meaningful(decoder, state, event)
    ensures Meaningful(decoder, state, event) ==>
              Record(decoder, WrapState(state), event, Wrap(now)) == WrapState(Record(decoder, state, event, now))
  {
    hide WrapAll, PushEdge, Wrap;
    if Meaningful(decoder, state, event) && event.Update? {
      var i := FindInput(decoder.inputIds, event.id, 0);
      PushWraps(state.inputs[i].edges, now);
      assert WrapInputs(state.inputs[i := UpdatedInput(state.inputs[i], event.level, now)])
          == WrapInputs(state.inputs)[i := WrapInput(UpdatedInput(state.inputs[i], event.level, now))];
    } else if Meaningful(decoder, state, event) && event.Initialize? {
      var i := FindInput(decoder.inputIds, event.id, 0);
      var input := InputView(true, event.level, now, now, state.inputs[i].edges);
      assert WrapInputs(state.inputs[i := input]) == WrapInputs(state.inputs)[i := WrapInput(input)];
    }
  }

  /** Each call of the firmware shows the call of real time. */
  lemma ApplyWraps(decoder: CompiledDecoder, machine: Machine, event: Event, now: int)
    requires CompiledOk(decoder) && StateShaped(decoder, machine.state)
    requires CallInHorizon(decoder, machine, event, now)
    ensures Apply(Wrapping, decoder, WrapMachine(machine), event, Wrap(now))
         == WrapMachine(Apply(Unbounded, decoder, machine, event, now))
  {
    hide CompiledOk, Evaluate, Fresh, Record, WrapState, Meaningful, Ahead;
    StateStaysShaped(decoder, machine.state);
    RecordWraps(decoder, machine.state, event, now);
    TimeOrderWraps(machine, now);
    if Accepted(Unbounded, decoder, machine, event, now) {
      EvaluateWraps(decoder, Record(decoder, machine.state, event, now), now);
    }
  }

  lemma StateStaysShaped(decoder: CompiledDecoder, state: DecoderState)
    requires StateShaped(decoder, state)
    ensures StateShaped(decoder, WrapState(state))
  {
  }

  lemma TimeOrderWraps(machine: Machine, now: int)
    requires machine.timeValid ==> -HALF <= now - machine.lastNow < HALF
    ensures InTime(Wrapping, WrapMachine(machine), Wrap(now)) == InTime(Unbounded, machine, now)
  {
    if machine.timeValid {
      WrappedAhead(machine.lastNow, now);
    }
  }

  /** Every run of the firmware inside the horizon shows the run of real time. */
  lemma {:induction false} RunWraps(decoder: CompiledDecoder, machine: Machine, run: seq<Timed>)
    requires CompiledOk(decoder) && StateShaped(decoder, machine.state) && InHorizon(decoder, machine, run)
    ensures StateShaped(decoder, WrapMachine(machine).state)
    ensures Run(Wrapping, decoder, WrapMachine(machine), WrapRun(run))
              == WrapMachine(Run(Unbounded, decoder, machine, run))
    decreases |run|
  {
    hide CompiledOk, Apply, CallInHorizon, WrapState;
    StateStaysShaped(decoder, machine.state);
    if run != [] {
      ApplyWraps(decoder, machine, run[0].event, run[0].at);
      RunWraps(decoder, Apply(Unbounded, decoder, machine, run[0].event, run[0].at), run[1..]);
      assert WrapRun(run)[1..] == WrapRun(run[1..]);
    }
  }

  /** The firmware itself: two decoders started together, given the same evidence at the same
      instants and woken at every announced deadline, show the same phases, result, number and
      deadline at every common instant, however often either was polled in between. */
  lemma FirmwareRunsAgree(decoder: CompiledDecoder, runA: seq<Timed>, runB: seq<Timed>, end: int)
    requires CompiledOk(decoder)
    requires Punctual(decoder, InitialMachine(decoder), runA, end) && InHorizon(decoder, InitialMachine(decoder), runA)
    requires Punctual(decoder, InitialMachine(decoder), runB, end) && InHorizon(decoder, InitialMachine(decoder), runB)
    requires Evidence(runA) == Evidence(runB)
    ensures SameButClock(Run(Wrapping, decoder, InitialMachine(decoder), WrapRun(runA)),
                         Run(Wrapping, decoder, InitialMachine(decoder), WrapRun(runB)))
  {
    hide CompiledOk, Punctual, InHorizon, Run, WrapRun, Resting;
    var initial := InitialMachine(decoder);
    InitialWraps(decoder);
    InitiallyResting(decoder);
    PunctualRunsAgree(decoder, initial, initial, runA, runB, end);
    RunWraps(decoder, initial, runA);
    RunWraps(decoder, initial, runB);
  }

  lemma InitialWraps(decoder: CompiledDecoder)
    ensures WrapMachine(InitialMachine(decoder)) == InitialMachine(decoder)
  {
  }
}

/** Between an evaluation and the wake-up it announces, time alone changes nothing. */
module DecoderQuiet {
  import opened Ticks
  import opened DecoderModel
  import opened DecoderEvaluation

  /** Every candidate still ahead at `from` is still ahead at `to`. */
  ghost predicate QuietUntil(candidates: seq<int>, from: int, to: int) {
    forall c | c in candidates && from < c :: to < c
  }

  lemma QuietParts(left: seq<int>, right: seq<int>, from: int, to: int)
    requires QuietUntil(left + right, from, to)
    ensures QuietUntil(left, from, to) && QuietUntil(right, from, to)
  {
    assert forall c :: c in left || c in right ==> c in left + right;
  }

  lemma {:induction false} RunInsideWindow(clock: Clock, config: PeriodicEdgesConfig, edges: seq<int>, now: int, i: nat)
    requires i < |edges|
    ensures var start := RunStart(clock, config, edges, now, i);
            start < i ==> Age(clock, now, edges[start]) <= config.observationWindowMs
  {
    if i > 0 && RunStart(clock, config, edges, now, i) < i {
      RunInsideWindow(clock, config, edges, now, i - 1);
    }
  }

  /** As time passes a run of edges can only shorten. */
  lemma {:induction false} RunShrinks(config: PeriodicEdgesConfig, edges: seq<int>, from: int, to: int, i: nat)
    requires i < |edges| && from <= to
    ensures RunStart(Unbounded, config, edges, from, i) <= RunStart(Unbounded, config, edges, to, i)
  {
    if i > 0 && RunStart(Unbounded, config, edges, to, i) < i {
      RunShrinks(config, edges, from, to, i - 1);
    }
  }

  /** It keeps its length while its oldest edge is inside the window. */
  lemma {:induction false} RunKeeps(config: PeriodicEdgesConfig, edges: seq<int>, from: int, to: int, i: nat)
    requires i < |edges| && from <= to
    requires forall j | 0 <= j < i :: edges[j] <= edges[j + 1]
    requires to - edges[RunStart(Unbounded, config, edges, from, i)] <= config.observationWindowMs
    ensures RunStart(Unbounded, config, edges, from, i) == RunStart(Unbounded, config, edges, to, i)
  {
    if i > 0 && RunStart(Unbounded, config, edges, from, i) < i {
      Ordered(edges, RunStart(Unbounded, config, edges, from, i), i - 1);
      RunKeeps(config, edges, from, to, i - 1);
    }
  }

  lemma {:induction false} Ordered(edges: seq<int>, i: nat, k: nat)
    requires i <= k < |edges|
    requires forall j | 0 <= j < k :: edges[j] <= edges[j + 1]
    ensures edges[i] <= edges[k]
  {
    if i < k {
      Ordered(edges, i, k - 1);
    }
  }

  ghost predicate EdgesOrdered(inputs: seq<InputView>) {
    forall i | 0 <= i < |inputs| :: InOrder(inputs[i].edges)
  }

  ghost predicate InOrder(edges: seq<int>) {
    forall j | 0 <= j < |edges| - 1 :: edges[j] <= edges[j + 1]
  }

  lemma PeriodicQuiet(config: PeriodicEdgesConfig, edges: seq<int>, from: int, to: int)
    requires PeriodicOk(config) && InOrder(edges) && from <= to && |edges| > 0
    requires PeriodicValue(Unbounded, config, edges, from) ==>
               && to < edges[|edges| - 1] + config.maximumGapMs
               && to <= edges[RunStart(Unbounded, config, edges, from, |edges| - 1)] + config.observationWindowMs
    ensures PeriodicValue(Unbounded, config, edges, from) == PeriodicValue(Unbounded, config, edges, to)
    ensures PeriodicValue(Unbounded, config, edges, from) ==>
              RunStart(Unbounded, config, edges, from, |edges| - 1)
                == RunStart(Unbounded, config, edges, to, |edges| - 1)
  {
    var newest := |edges| - 1;
    if PeriodicValue(Unbounded, config, edges, from) {
      RunKeeps(config, edges, from, to, newest);
    } else {
      RunShrinks(config, edges, from, to, newest);
      RunInsideWindow(Unbounded, config, edges, from, newest);
    }
  }

  lemma PredicateQuiet(p: CompiledPredicate, input: InputView, from: int, to: int)
    requires CompiledPredicateOk(p, p.input + 1) && InOrder(input.edges) && from <= to
    requires QuietUntil(PredicateCandidates(Unbounded, p, input, from), from, to)
    ensures PredicateValue(Unbounded, p, input, to) == PredicateValue(Unbounded, p, input, from)
    ensures PredicateCandidates(Unbounded, p, input, to) == PredicateCandidates(Unbounded, p, input, from)
  {
    if input.valid {
      var candidates := PredicateCandidates(Unbounded, p, input, from);
      if p.kind == StableLevel {
        if input.level == p.stable.level && !StableValue(Unbounded, p.stable, input, from) {
          assert candidates[0] in candidates;
        }
      } else if input.edges != [] {
        if PeriodicValue(Unbounded, p.periodic, input.edges, from) {
          assert candidates[0] in candidates && candidates[1] in candidates;
        }
        PeriodicQuiet(p.periodic, input.edges, from, to);
      }
    }
  }

  lemma {:induction false} GroupQuiet(group: CompiledGroup, inputs: seq<InputView>, from: int, to: int, n: nat)
    requires CompiledGroupOk(group, |inputs|) && n <= |group.predicates| && EdgesOrdered(inputs) && from <= to
    requires QuietUntil(GroupCandidates(Unbounded, group, inputs, from, n), from, to)
    ensures GroupValue(Unbounded, group, inputs, to, n) == GroupValue(Unbounded, group, inputs, from, n)
    ensures GroupCandidates(Unbounded, group, inputs, to, n) == GroupCandidates(Unbounded, group, inputs, from, n)
  {
    if n > 0 {
      var p := group.predicates[n - 1];
      assert CompiledPredicateOk(p, |inputs|);
      QuietParts(GroupCandidates(Unbounded, group, inputs, from, n - 1),
                 PredicateCandidates(Unbounded, p, inputs[p.input], from), from, to);
      GroupQuiet(group, inputs, from, to, n - 1);
      PredicateQuiet(p, inputs[p.input], from, to);
      GroupValueSplits(Unbounded, group, inputs, from, n);
      GroupValueSplits(Unbounded, group, inputs, to, n);
    }
  }

  lemma GroupValueSplits(clock: Clock, group: CompiledGroup, inputs: seq<InputView>, now: int, n: nat)
    requires CompiledGroupOk(group, |inputs|) && 0 < n <= |group.predicates|
    ensures GroupValue(clock, group, inputs, now, n)
        <==> GroupValue(clock, group, inputs, now, n - 1)
             && PredicateValue(clock, group.predicates[n - 1], inputs[group.predicates[n - 1].input], now)
  {
  }

  lemma RuleValueSplits(clock: Clock, rule: CompiledRule, inputs: seq<InputView>, now: int, n: nat)
    requires CompiledRuleOk(rule, |inputs|) && 0 < n <= |rule.groups|
    ensures RuleValue(clock, rule, inputs, now, n)
        <==> RuleValue(clock, rule, inputs, now, n - 1)
             || GroupValue(clock, rule.groups[n - 1], inputs, now, |rule.groups[n - 1].predicates|)
  {
    if RuleValue(clock, rule, inputs, now, n - 1) {
      var g :| 0 <= g < n - 1 && GroupValue(clock, rule.groups[g], inputs, now, |rule.groups[g].predicates|);
    }
  }

  lemma {:induction false} RuleQuiet(rule: CompiledRule, inputs: seq<InputView>, from: int, to: int, n: nat)
    requires CompiledRuleOk(rule, |inputs|) && n <= |rule.groups| && EdgesOrdered(inputs) && from <= to
    requires QuietUntil(RuleCandidates(Unbounded, rule, inputs, from, n), from, to)
    ensures RuleValue(Unbounded, rule, inputs, to, n) == RuleValue(Unbounded, rule, inputs, from, n)
    ensures RuleCandidates(Unbounded, rule, inputs, to, n) == RuleCandidates(Unbounded, rule, inputs, from, n)
  {
    if n > 0 {
      var group := rule.groups[n - 1];
      QuietParts(RuleCandidates(Unbounded, rule, inputs, from, n - 1),
                 GroupCandidates(Unbounded, group, inputs, from, |group.predicates|), from, to);
      RuleQuiet(rule, inputs, from, to, n - 1);
      GroupQuiet(group, inputs, from, to, |group.predicates|);
      RuleValueSplits(Unbounded, rule, inputs, from, n);
      RuleValueSplits(Unbounded, rule, inputs, to, n);
    }
  }

  /** The candidates of rule `r`. */
  ghost function OwnCandidates(rules: seq<CompiledRule>, inputs: seq<InputView>, now: int, r: nat): seq<int>
    requires RulesOk(rules, |inputs|) && r < |rules|
  {
    RuleCandidates(Unbounded, rules[r], inputs, now, |rules[r].groups|)
  }

  lemma {:induction false} QuietRule(rules: seq<CompiledRule>, inputs: seq<InputView>, from: int, to: int, n: nat,
      r: nat)
    requires RulesOk(rules, |inputs|) && r < n <= |rules|
    requires QuietUntil(ExpressionCandidates(Unbounded, rules, inputs, from, n), from, to)
    ensures QuietUntil(OwnCandidates(rules, inputs, from, r), from, to)
  {
    QuietParts(ExpressionCandidates(Unbounded, rules, inputs, from, n - 1),
               OwnCandidates(rules, inputs, from, n - 1), from, to);
    if r < n - 1 {
      QuietRule(rules, inputs, from, to, n - 1, r);
    }
  }

  lemma {:induction false} SameCandidates(rules: seq<CompiledRule>, inputs: seq<InputView>, from: int, to: int, n: nat)
    requires RulesOk(rules, |inputs|) && n <= |rules|
    requires forall r | 0 <= r < n :: OwnCandidates(rules, inputs, to, r) == OwnCandidates(rules, inputs, from, r)
    ensures ExpressionCandidates(Unbounded, rules, inputs, to, n)
              == ExpressionCandidates(Unbounded, rules, inputs, from, n)
  {
    if n > 0 {
      SameCandidates(rules, inputs, from, to, n - 1);
      assert OwnCandidates(rules, inputs, to, n - 1) == OwnCandidates(rules, inputs, from, n - 1);
    }
  }

  lemma ExpressionsQuiet(rules: seq<CompiledRule>, inputs: seq<InputView>, from: int, to: int)
    requires RulesOk(rules, |inputs|) && EdgesOrdered(inputs) && from <= to
    requires QuietUntil(ExpressionCandidates(Unbounded, rules, inputs, from, |rules|), from, to)
    ensures ExpressionCandidates(Unbounded, rules, inputs, to, |rules|)
         == ExpressionCandidates(Unbounded, rules, inputs, from, |rules|)
    ensures Expressions(Unbounded, rules, inputs, to) == Expressions(Unbounded, rules, inputs, from)
  {
    forall r | 0 <= r < |rules|
      ensures OwnCandidates(rules, inputs, to, r) == OwnCandidates(rules, inputs, from, r)
      ensures Expressions(Unbounded, rules, inputs, to)[r] == Expressions(Unbounded, rules, inputs, from)[r]
    {
      QuietRule(rules, inputs, from, to, |rules|, r);
      RuleQuiet(rules[r], inputs, from, to, |rules[r].groups|);
    }
    SameCandidates(rules, inputs, from, to, |rules|);
  }

  /** A resting rule stays at rest while none of its candidates is reached. */
  lemma LifecycleQuiet(m: MovementLifecycleConfig, matched: bool, s: MovementRuleState, from: int, to: int)
    requires from <= to && Settled(Unbounded, m, matched, s, from)
    requires QuietUntil(LifecycleRuleCandidates(Unbounded, m, matched, s), from, to)
    ensures Settled(Unbounded, m, matched, s, to)
    ensures Settle(Unbounded, m, matched, s, to) == s
  {
    var candidates := LifecycleRuleCandidates(Unbounded, m, matched, s);
    if candidates != [] {
      assert candidates[0] in candidates && candidates[|candidates| - 1] in candidates;
    }
    assert LifecycleSteps(Unbounded, m, matched, s, to, 1) == s;
  }

  lemma {:induction false} LifecyclesQuiet(decoder: CompiledDecoder, expressions: seq<bool>,
      movement: seq<MovementRuleState>, from: int, to: int, n: nat)
    requires CompiledOk(decoder) && |expressions| == |movement| == |decoder.rules| && n <= |decoder.movementRules|
    requires from <= to
    requires SettleAll(Unbounded, decoder, expressions, movement, from) == movement
    requires forall r | 0 <= r < |movement| :: IsMovement(decoder, r) ==>
               Settled(Unbounded, decoder.rules[r].movement, expressions[r], movement[r], from)
    requires QuietUntil(LifecycleCandidates(Unbounded, decoder, expressions, movement, n), from, to)
    ensures forall i | 0 <= i < n :: var r := decoder.movementRules[i];
              Settle(Unbounded, decoder.rules[r].movement, expressions[r], movement[r], to) == movement[r]
  {
    if n > 0 {
      var r := decoder.movementRules[n - 1];
      QuietParts(LifecycleCandidates(Unbounded, decoder, expressions, movement, n - 1),
                 LifecycleRuleCandidates(Unbounded, decoder.rules[r].movement, expressions[r], movement[r]), from, to);
      LifecyclesQuiet(decoder, expressions, movement, from, to, n - 1);
      LifecycleQuiet(decoder.rules[r].movement, expressions[r], movement[r], from, to);
    }
  }

  /** `state` and `deadline` are what an evaluation at `now` leaves. */
  ghost predicate AtRest(decoder: CompiledDecoder, state: DecoderState, deadline: Deadline, now: int)
    requires CompiledOk(decoder) && StateShaped(decoder, state)
  {
    Evaluate(Unbounded, decoder, state, now) == Evaluation(state, deadline)
  }

  /** An evaluation strictly before the announced wake-up (at any time when there is none) leaves
      phases, result, number and wake-up exactly as they were. */
  lemma NothingBeforeDeadline(decoder: CompiledDecoder, state: DecoderState, deadline: Deadline, from: int, to: int)
    requires CompiledOk(decoder) && StateShaped(decoder, state) && EdgesOrdered(state.inputs)
    requires AtRest(decoder, state, deadline, from) && from <= to
    requires deadline.At? ==> to < deadline.at
    ensures AtRest(decoder, state, deadline, to)
  {
    hide RuleValue, RuleCandidates, LifecycleRuleCandidates, Arbitrate, CompiledRuleOk, ExpressionCandidates, Settle,
      Settled;
    var expressions := Expressions(Unbounded, decoder.rules, state.inputs, from);
    var movement := state.movementRules;
    var candidates := AllCandidates(Unbounded, decoder, state.inputs, movement, from);
    EarliestIsMinimum(Unbounded, from, candidates);
    assert QuietUntil(candidates, from, to);
    QuietParts(ExpressionCandidates(Unbounded, decoder.rules, state.inputs, from, |decoder.rules|),
               LifecycleCandidates(Unbounded, decoder, expressions, movement, |decoder.movementRules|), from, to);
    ExpressionsQuiet(decoder.rules, state.inputs, from, to);
    forall r | 0 <= r < |movement| && IsMovement(decoder, r)
      ensures Settled(Unbounded, decoder.rules[r].movement, expressions[r], movement[r], from)
    {
      SettleSettles(Unbounded, decoder.rules[r].movement, expressions[r], movement[r], from);
      assert SettleAll(Unbounded, decoder, expressions, movement, from)[r] == movement[r];
    }
    LifecyclesQuiet(decoder, expressions, movement, from, to, |decoder.movementRules|);
    var later := SettleAll(Unbounded, decoder, expressions, movement, to);
    forall r | 0 <= r < |movement| ensures later[r] == movement[r] {
      if IsMovement(decoder, r) {
        var i :| 0 <= i < |decoder.movementRules| && decoder.movementRules[i] == r;
      }
    }
    assert later == movement;
    assert AllCandidates(Unbounded, decoder, state.inputs, movement, to) == candidates;
    EarliestIsMinimum(Unbounded, to, candidates);
    EarliestStays(candidates, from, to);
  }

  lemma EarliestStays(candidates: seq<int>, from: int, to: int)
    requires QuietUntil(candidates, from, to) && from <= to
    ensures Earliest(Unbounded, to, candidates) == Earliest(Unbounded, from, candidates)
  {
    EarliestIsMinimum(Unbounded, from, candidates);
    EarliestIsMinimum(Unbounded, to, candidates);
    EarliestIsUnique(Unbounded, from, candidates, Earliest(Unbounded, to, candidates),
                     Earliest(Unbounded, from, candidates));
  }
}

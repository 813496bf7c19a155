/** What one evaluation of the decoder computes, as functions of the compiled tables, the
    remembered state and an instant. The same functions describe the firmware (`Wrapping`) and
    the decoder an installer has in mind, whose clock never wraps (`Unbounded`). */
module DecoderEvaluation {
  import opened Ticks
  import opened DecoderModel

  // ---- Predicates ----

  /** Index of the oldest edge of the run of evenly spaced, recent edges that ends at edge `i`. */
  function RunStart(clock: Clock, config: PeriodicEdgesConfig, edges: seq<int>, now: int, i: nat): (start: nat)
    requires i < |edges|
    ensures start <= i
  {
    if i == 0 then 0
    else
      var interval := Age(clock, edges[i], edges[i - 1]);
      if interval < config.minimumIntervalMs || interval > config.maximumIntervalMs
         || Age(clock, now, edges[i - 1]) > config.observationWindowMs
      then i
      else RunStart(clock, config, edges, now, i - 1)
  }

  predicate PeriodicValue(clock: Clock, config: PeriodicEdgesConfig, edges: seq<int>, now: int) {
    |edges| > 0 &&
    var newest := |edges| - 1;
    var start := RunStart(clock, config, edges, now, newest);
    && |edges| - start >= config.minimumEdges
    && Age(clock, now, edges[start]) <= config.observationWindowMs
    && Age(clock, now, edges[newest]) < config.maximumGapMs
  }

  predicate StableValue(clock: Clock, config: StableLevelConfig, input: InputView, now: int) {
    input.level == config.level && Age(clock, now, input.levelSince) >= config.holdMs
  }

  predicate PredicateValue(clock: Clock, p: CompiledPredicate, input: InputView, now: int) {
    input.valid &&
    if p.kind == StableLevel then StableValue(clock, p.stable, input, now)
    else PeriodicValue(clock, p.periodic, input.edges, now)
  }

  /** The instants at which time alone may change the predicate. */
  function PredicateCandidates(clock: Clock, p: CompiledPredicate, input: InputView, now: int): (candidates: seq<int>)
    ensures ProperTimes(clock, candidates)
  {
    if !input.valid then []
    else if p.kind == StableLevel then
      if input.level == p.stable.level && !StableValue(clock, p.stable, input, now)
      then [After(clock, input.levelSince, p.stable.holdMs)]
      else []
    else if PeriodicValue(clock, p.periodic, input.edges, now) then
      var newest := |input.edges| - 1;
      var start := RunStart(clock, p.periodic, input.edges, now, newest);
      [After(clock, input.edges[newest], p.periodic.maximumGapMs),
       After(clock, input.edges[start], p.periodic.observationWindowMs + 1)]
    else []
  }

  // ---- Expressions: any group all of whose predicates hold ----

  ghost predicate GroupValue(clock: Clock, group: CompiledGroup, inputs: seq<InputView>, now: int, n: nat)
    requires CompiledGroupOk(group, |inputs|) && n <= |group.predicates|
  {
    forall p | 0 <= p < n :: PredicateValue(clock, group.predicates[p], inputs[group.predicates[p].input], now)
  }

  ghost predicate RuleValue(clock: Clock, rule: CompiledRule, inputs: seq<InputView>, now: int, n: nat)
    requires CompiledRuleOk(rule, |inputs|) && n <= |rule.groups|
  {
    exists g | 0 <= g < n :: GroupValue(clock, rule.groups[g], inputs, now, |rule.groups[g].predicates|)
  }

  ghost function GroupCandidates(clock: Clock, group: CompiledGroup, inputs: seq<InputView>, now: int, n: nat)
    : (candidates: seq<int>)
    requires CompiledGroupOk(group, |inputs|) && n <= |group.predicates|
    ensures ProperTimes(clock, candidates)
  {
    if n == 0 then []
    else
      var p := group.predicates[n - 1];
      GroupCandidates(clock, group, inputs, now, n - 1) + PredicateCandidates(clock, p, inputs[p.input], now)
  }

  ghost function RuleCandidates(clock: Clock, rule: CompiledRule, inputs: seq<InputView>, now: int, n: nat)
    : (candidates: seq<int>)
    requires CompiledRuleOk(rule, |inputs|) && n <= |rule.groups|
    ensures ProperTimes(clock, candidates)
  {
    if n == 0 then []
    else
      var group := rule.groups[n - 1];
      RuleCandidates(clock, rule, inputs, now, n - 1)
      + GroupCandidates(clock, group, inputs, now, |group.predicates|)
  }

  ghost function Expressions(clock: Clock, rules: seq<CompiledRule>, inputs: seq<InputView>,
      now: int): (values: seq<bool>)
    requires RulesOk(rules, |inputs|)
    ensures |values| == |rules|
  {
    seq(|rules|, r requires 0 <= r < |rules| => RuleValue(clock, rules[r], inputs, now, |rules[r].groups|))
  }

  ghost function ExpressionCandidates(clock: Clock, rules: seq<CompiledRule>, inputs: seq<InputView>, now: int, n: nat)
    : (candidates: seq<int>)
    requires RulesOk(rules, |inputs|) && n <= |rules|
    ensures ProperTimes(clock, candidates)
  {
    if n == 0 then []
    else
      ExpressionCandidates(clock, rules, inputs, now, n - 1)
      + RuleCandidates(clock, rules[n - 1], inputs, now, |rules[n - 1].groups|)
  }

  // ---- Movement lifecycle ----

  function LifecycleStep(clock: Clock, m: MovementLifecycleConfig, matched: bool, s: MovementRuleState, now: int)
    : MovementRuleState
  {
    match s.phase
    case Unmatched =>
      if matched then
        if m.entryConfirmationMs == 0 then MovementRuleState(Matched, now, now)
        else MovementRuleState(EntryPending, now, s.matchedSince)
      else s
    case EntryPending =>
      if !matched then MovementRuleState(Unmatched, now, s.matchedSince)
      else if Age(clock, now, s.phaseSince) >= m.entryConfirmationMs then MovementRuleState(Matched, now, now)
      else s
    case Matched =>
      if m.matchAgeLimitMs != 0 && Age(clock, now, s.matchedSince) >= m.matchAgeLimitMs then
        MovementRuleState(Expired, now, s.matchedSince)
      else if !matched then
        MovementRuleState(if m.lossConfirmationMs == 0 then Unmatched else LossPending, now, s.matchedSince)
      else s
    case LossPending =>
      if matched then MovementRuleState(Matched, now, s.matchedSince)
      else if Age(clock, now, s.phaseSince) >= m.lossConfirmationMs then MovementRuleState(Unmatched, now, 0)
      else s
    case Expired =>
      if !matched then
        MovementRuleState(if m.lossConfirmationMs == 0 then Unmatched else LossPending, now, s.matchedSince)
      else s
  }

  function LifecycleSteps(clock: Clock, m: MovementLifecycleConfig, matched: bool, s: MovementRuleState, now: int,
      n: nat)
    : MovementRuleState
  {
    if n == 0 then s
    else LifecycleStep(clock, m, matched, LifecycleSteps(clock, m, matched, s, now, n - 1), now)
  }

  predicate Settled(clock: Clock, m: MovementLifecycleConfig, matched: bool, s: MovementRuleState, now: int) {
    LifecycleStep(clock, m, matched, s, now) == s
  }

  /** The phase a rule comes to rest in. */
  function Settle(clock: Clock, m: MovementLifecycleConfig, matched: bool, s: MovementRuleState, now: int)
    : MovementRuleState
  {
    LifecycleSteps(clock, m, matched, s, now, 2)
  }

  /** Two steps always reach rest, from any phase: the four passes of the firmware are enough,
      and the third can change nothing. Resting again at the same instant changes nothing. */
  lemma SettleSettles(clock: Clock, m: MovementLifecycleConfig, matched: bool, s: MovementRuleState, now: int)
    ensures Settled(clock, m, matched, Settle(clock, m, matched, s, now), now)
    ensures Settle(clock, m, matched, Settle(clock, m, matched, s, now), now) == Settle(clock, m, matched, s, now)
  {
    var one := LifecycleStep(clock, m, matched, s, now);
    assert LifecycleSteps(clock, m, matched, s, now, 1) == one;
    var two := LifecycleStep(clock, m, matched, one, now);
    assert Age(clock, now, now) == 0;
    assert LifecycleSteps(clock, m, matched, two, now, 1) == LifecycleStep(clock, m, matched, two, now);
  }

  /** Two steps are sometimes needed: a rule whose loss was pending can match again and find its
      match already too old. */
  lemma OneStepIsNotEnough()
    ensures exists clock, m, matched, s, now ::
              LifecycleOk(RuleOutputConfig(Movement, Opened, Opening, Obstructed), m)
              && !Settled(clock, m, matched, LifecycleStep(clock, m, matched, s, now), now)
  {
    var m := MovementLifecycleConfig(0, 50, 10, UnknownExpiry);
    var s := MovementRuleState(LossPending, 95, 80);
    var one := LifecycleStep(Unbounded, m, true, s, 100);
    assert LifecycleStep(Unbounded, m, true, one, 100).phase == Expired;
    assert !Settled(Unbounded, m, true, one, 100);
  }

  predicate IsMovement(decoder: CompiledDecoder, r: nat)
    requires r < |decoder.rules|
  {
    decoder.rules[r].output.kind == Movement
  }

  function SettleAll(clock: Clock, decoder: CompiledDecoder, expressions: seq<bool>,
                     movement: seq<MovementRuleState>, now: int): (settled: seq<MovementRuleState>)
    requires |expressions| == |movement| == |decoder.rules|
    ensures |settled| == |decoder.rules|
  {
    seq(|decoder.rules|, r requires 0 <= r < |decoder.rules| =>
      if IsMovement(decoder, r) then Settle(clock, decoder.rules[r].movement, expressions[r], movement[r], now)
      else movement[r])
  }

  /** The instants at which time alone may move a resting rule to another phase. */
  function LifecycleRuleCandidates(clock: Clock, m: MovementLifecycleConfig, matched: bool, s: MovementRuleState)
    : (candidates: seq<int>)
    ensures ProperTimes(clock, candidates)
  {
    match s.phase
    case EntryPending => [After(clock, s.phaseSince, m.entryConfirmationMs)]
    case Matched => if m.matchAgeLimitMs != 0 then [After(clock, s.matchedSince, m.matchAgeLimitMs)] else []
    case LossPending =>
      (if m.matchAgeLimitMs != 0 then [After(clock, s.matchedSince, m.matchAgeLimitMs)] else [])
      + [After(clock, s.phaseSince, m.lossConfirmationMs)]
    case Expired =>
      if !matched && m.lossConfirmationMs != 0 then [After(clock, s.phaseSince, m.lossConfirmationMs)] else []
    case Unmatched => []
  }

  function LifecycleCandidates(clock: Clock, decoder: CompiledDecoder, expressions: seq<bool>,
                               movement: seq<MovementRuleState>, n: nat): (candidates: seq<int>)
    requires |expressions| == |movement| == |decoder.rules|
    requires n <= |decoder.movementRules| && forall i | 0 <= i < n :: decoder.movementRules[i] < |decoder.rules|
    ensures ProperTimes(clock, candidates)
  {
    if n == 0 then []
    else
      var r := decoder.movementRules[n - 1];
      LifecycleCandidates(clock, decoder, expressions, movement, n - 1)
      + LifecycleRuleCandidates(clock, decoder.rules[r].movement, expressions[r], movement[r])
  }

  // ---- Arbitration of the three channels ----

  /** The values voted for on one channel so far: whether any was, whether two differed, and the last. */
  datatype Tally<V> = Tally(seen: bool, ambiguous: bool, value: V)

  function CountVotes<V(==)>(votes: seq<Option<V>>, idle: V): Tally<V> {
    if votes == [] then Tally(false, false, idle)
    else AddVote(CountVotes(votes[..|votes| - 1], idle), votes[|votes| - 1])
  }

  function AddVote<V(==)>(tally: Tally<V>, vote: Option<V>): Tally<V> {
    match vote
    case None => tally
    case Some(v) => Tally(true, tally.ambiguous || (tally.seen && tally.value != v), v)
  }

  predicate Asserted(s: MovementRuleState) {
    s.phase == Matched || s.phase == LossPending
  }

  function PositionVote(rule: CompiledRule, value: bool): Option<PositionValue> {
    if value then Some(rule.output.position) else None
  }

  function MovementVote(rule: CompiledRule, s: MovementRuleState): Option<MovementValue> {
    if Asserted(s) then Some(rule.output.movement) else None
  }

  function PositionVotes(decoder: CompiledDecoder, expressions: seq<bool>): seq<Option<PositionValue>>
    requires CompiledOk(decoder) && |expressions| == |decoder.rules|
  {
    seq(|decoder.positionRules|, i requires 0 <= i < |decoder.positionRules| =>
      PositionVote(decoder.rules[decoder.positionRules[i]], expressions[decoder.positionRules[i]]))
  }

  function MovementVotes(decoder: CompiledDecoder, movement: seq<MovementRuleState>): seq<Option<MovementValue>>
    requires CompiledOk(decoder) && |movement| == |decoder.rules|
  {
    seq(|decoder.movementRules|, i requires 0 <= i < |decoder.movementRules| =>
      MovementVote(decoder.rules[decoder.movementRules[i]], movement[decoder.movementRules[i]]))
  }

  predicate ObstructsOnExpiry(m: MovementLifecycleConfig) {
    m.expiry == ObstructedExpiry || m.expiry == UnknownAndObstructedExpiry
  }

  predicate ExpiredRule(decoder: CompiledDecoder, movement: seq<MovementRuleState>, r: nat)
    requires r < |decoder.rules| == |movement|
  {
    IsMovement(decoder, r) && movement[r].phase == Expired
  }

  predicate ObstructingRule(decoder: CompiledDecoder, expressions: seq<bool>, r: nat)
    requires r < |decoder.rules| == |expressions|
  {
    decoder.rules[r].output.kind == Fault && expressions[r] && decoder.rules[r].output.fault == Obstructed
  }

  ghost predicate AnyExpired(decoder: CompiledDecoder, movement: seq<MovementRuleState>)
    requires |decoder.rules| == |movement|
  {
    exists r | 0 <= r < |decoder.rules| :: ExpiredRule(decoder, movement, r)
  }

  ghost predicate AnyAgeObstruction(decoder: CompiledDecoder, movement: seq<MovementRuleState>)
    requires |decoder.rules| == |movement|
  {
    exists r | 0 <= r < |decoder.rules| ::
      ExpiredRule(decoder, movement, r) && ObstructsOnExpiry(decoder.rules[r].movement)
  }

  ghost predicate AnyFault(decoder: CompiledDecoder, expressions: seq<bool>)
    requires |decoder.rules| == |expressions|
  {
    exists r | 0 <= r < |decoder.rules| :: ObstructingRule(decoder, expressions, r)
  }

  ghost predicate AllInputsValid(inputs: seq<InputView>) {
    |inputs| > 0 && forall i | 0 <= i < |inputs| :: inputs[i].valid
  }

  /** The public result for the counted votes. */
  function Publish(position: Tally<PositionValue>, movement: Tally<MovementValue>, expired: bool,
                   obstruction: bool, inputsValid: bool, monitoringHealthy: bool, generation: Tick): (r: DecoderResult)
    ensures r.positionValid ==> !r.movementValid && !r.obstructed
    ensures r.health == AmbiguousPosition || r.health == MonitoringFailed ==> !r.positionValid && !r.movementValid
    ensures r.health == AmbiguousMovement ==> !r.movementValid
  {
    var positionProven := position.seen && !position.ambiguous;
    var movementProven := movement.seen && !movement.ambiguous && !positionProven;
    DecoderResult(
      positionProven && monitoringHealthy,
      position.value,
      movementProven && monitoringHealthy && !position.ambiguous,
      movement.value,
      !positionProven && obstruction,
      expired,
      if !monitoringHealthy then MonitoringFailed
      else if position.ambiguous then AmbiguousPosition
      else if movement.ambiguous then AmbiguousMovement
      else if !inputsValid then GatheringEvidence
      else Healthy,
      generation)
  }

  /** `next` under the number that follows `previous` whenever anything but the number changed. */
  function Renumber(previous: DecoderResult, next: DecoderResult): DecoderResult {
    if previous.(generation := 0) == next.(generation := 0) then previous
    else next.(generation := (previous.generation + 1) % WRAP)
  }

  ghost function Arbitrate(decoder: CompiledDecoder, expressions: seq<bool>, movement: seq<MovementRuleState>,
                           inputs: seq<InputView>, monitoringHealthy: bool, generation: Tick): DecoderResult
    requires CompiledOk(decoder) && |expressions| == |movement| == |decoder.rules|
  {
    Publish(CountVotes(PositionVotes(decoder, expressions), Opened),
            CountVotes(MovementVotes(decoder, movement), Stopped),
            AnyExpired(decoder, movement),
            AnyFault(decoder, expressions) || AnyAgeObstruction(decoder, movement),
            AllInputsValid(inputs), monitoringHealthy, generation)
  }

  // ---- One evaluation ----

  datatype Evaluation = Evaluation(state: DecoderState, deadline: Deadline)

  ghost function AllCandidates(clock: Clock, decoder: CompiledDecoder, inputs: seq<InputView>,
                               movement: seq<MovementRuleState>, now: int): (candidates: seq<int>)
    requires CompiledOk(decoder) && |inputs| == |decoder.inputIds| && |movement| == |decoder.rules|
    ensures ProperTimes(clock, candidates)
  {
    ExpressionCandidates(clock, decoder.rules, inputs, now, |decoder.rules|)
    + LifecycleCandidates(clock, decoder, Expressions(clock, decoder.rules, inputs, now), movement,
                          |decoder.movementRules|)
  }

  ghost function Evaluate(clock: Clock, decoder: CompiledDecoder, state: DecoderState, now: int): (e: Evaluation)
    requires CompiledOk(decoder) && StateShaped(decoder, state)
    ensures StateShaped(decoder, e.state) && e.state.inputs == state.inputs
  {
    var expressions := Expressions(clock, decoder.rules, state.inputs, now);
    var movement := SettleAll(clock, decoder, expressions, state.movementRules, now);
    var result := Renumber(state.result,
      Arbitrate(decoder, expressions, movement, state.inputs, state.monitoringHealthy, state.result.generation));
    Evaluation(DecoderState(state.inputs, movement, result, state.monitoringHealthy),
               Earliest(clock, now, AllCandidates(clock, decoder, state.inputs, movement, now)))
  }

  lemma RulesOfDecoder(decoder: CompiledDecoder)
    requires CompiledOk(decoder)
    ensures RulesOk(decoder.rules, |decoder.inputIds|)
  {
  }

  /** A second evaluation at the same instant changes nothing: phases, result, number and wake-up
      are already those of a fixed point. */
  lemma EvaluateTwice(clock: Clock, decoder: CompiledDecoder, state: DecoderState, now: int)
    requires CompiledOk(decoder) && StateShaped(decoder, state)
    ensures var once := Evaluate(clock, decoder, state, now);
            Evaluate(clock, decoder, once.state, now) == once
  {
    hide RulesOk, IsFamily, RuleValue, AllCandidates, LifecycleStep, CountVotes, PositionVotes, MovementVotes,
      AllInputsValid, AnyExpired, AnyFault, AnyAgeObstruction, Settle;
    var once := Evaluate(clock, decoder, state, now);
    RulesOfDecoder(decoder);
    var expressions := Expressions(clock, decoder.rules, state.inputs, now);
    var again := SettleAll(clock, decoder, expressions, once.state.movementRules, now);
    forall r | 0 <= r < |decoder.rules|
      ensures again[r] == once.state.movementRules[r]
    {
      SettleSettles(clock, decoder.rules[r].movement, expressions[r], state.movementRules[r], now);
    }
    assert again == once.state.movementRules;
  }

  /** Every wake-up is strictly ahead and is the nearest of all the instants that could matter. */
  lemma DeadlineIsNearest(clock: Clock, decoder: CompiledDecoder, state: DecoderState, now: int)
    requires CompiledOk(decoder) && StateShaped(decoder, state)
    ensures var e := Evaluate(clock, decoder, state, now);
            IsEarliest(clock, now, AllCandidates(clock, decoder, state.inputs, e.state.movementRules, now), e.deadline)
  {
    var e := Evaluate(clock, decoder, state, now);
    EarliestIsMinimum(clock, now, AllCandidates(clock, decoder, state.inputs, e.state.movementRules, now));
  }
}

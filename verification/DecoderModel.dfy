/** Records of the signal decoder: what the installer writes, what compilation keeps,
    and what the running decoder remembers. */
module DecoderModel {
  import opened Ticks

  datatype Option<+T> = None | Some(value: T)

  const MAX_INPUTS: nat := 4
  const MAX_RULES: nat := 8
  const MAX_GROUPS_PER_RULE: nat := 2
  const MAX_PREDICATES_PER_GROUP: nat := 3
  const MAX_EDGES_PER_INPUT: nat := 16

  type Byte = b: int | 0 <= b < 256

  // Enumerations are single bytes in the firmware. A byte that names no enumerator, which a
  // corrupt configuration can hold, is an `Other...` value.
  datatype PredicateKind = StableLevel | PeriodicEdges | OtherPredicate(code: Byte)
  datatype PositionValue = Opened | Closed | OtherPosition(code: Byte)
  datatype MovementValue = Opening | Closing | Stopped | OtherMovement(code: Byte)
  datatype FaultValue = Obstructed | OtherFault(code: Byte)
  datatype RuleOutputKind = Position | Movement | Fault | OtherOutput(code: Byte)
  datatype MatchAgeExpiry =
    NoExpiry | UnknownExpiry | ObstructedExpiry | UnknownAndObstructedExpiry | OtherExpiry(code: Byte)

  datatype StableLevelConfig = StableLevelConfig(level: bool, holdMs: Duration)

  datatype PeriodicEdgesConfig = PeriodicEdgesConfig(
    minimumIntervalMs: Duration, maximumIntervalMs: Duration, minimumEdges: Byte,
    observationWindowMs: Duration, maximumGapMs: Duration)

  datatype RuleOutputConfig = RuleOutputConfig(
    kind: RuleOutputKind, position: PositionValue, movement: MovementValue, fault: FaultValue)

  datatype MovementLifecycleConfig = MovementLifecycleConfig(
    entryConfirmationMs: Duration, lossConfirmationMs: Duration, matchAgeLimitMs: Duration,
    expiry: MatchAgeExpiry)

  // ---- The installer's configuration: fixed arrays with a count of the slots in use ----

  datatype PredicateConfig = PredicateConfig(
    kind: PredicateKind, inputId: Byte, stable: StableLevelConfig, periodic: PeriodicEdgesConfig)

  datatype PredicateGroupConfig = PredicateGroupConfig(predicates: seq<PredicateConfig>, predicateCount: Byte)

  datatype RuleConfig = RuleConfig(
    id: Byte, enabled: bool, output: RuleOutputConfig, groups: seq<PredicateGroupConfig>, groupCount: Byte,
    movement: MovementLifecycleConfig)

  datatype DecoderConfig = DecoderConfig(
    inputIds: seq<Byte>, inputCount: Byte, rules: seq<RuleConfig>, ruleCount: Byte)
  {
    /** The array sizes the record type fixes; the counts may still be anything. */
    ghost predicate WellShaped() {
      && |inputIds| == MAX_INPUTS
      && |rules| == MAX_RULES
      && forall r | 0 <= r < MAX_RULES :: RuleShaped(rules[r])
    }
  }

  ghost predicate RuleShaped(rule: RuleConfig) {
    && |rule.groups| == MAX_GROUPS_PER_RULE
    && forall g | 0 <= g < MAX_GROUPS_PER_RULE :: |rule.groups[g].predicates| == MAX_PREDICATES_PER_GROUP
  }

  // ---- The compiled tables: a table and its count are one sequence ----

  datatype CompiledPredicate = CompiledPredicate(
    kind: PredicateKind, input: nat, stable: StableLevelConfig, periodic: PeriodicEdgesConfig)

  datatype CompiledGroup = CompiledGroup(predicates: seq<CompiledPredicate>)

  datatype CompiledRule = CompiledRule(
    id: Byte, output: RuleOutputConfig, groups: seq<CompiledGroup>, movement: MovementLifecycleConfig)

  datatype CompiledDecoder = CompiledDecoder(
    inputIds: seq<Byte>, rules: seq<CompiledRule>,
    positionRules: seq<nat>, movementRules: seq<nat>, faultRules: seq<nat>,
    requiredEdgeCapacity: seq<nat>)

  predicate KnownOutput(output: RuleOutputConfig) {
    !output.kind.OtherOutput? && !output.position.OtherPosition? && !output.movement.OtherMovement?
    && !output.fault.OtherFault?
  }

  predicate StableOk(stable: StableLevelConfig) {
    0 < stable.holdMs <= MAX_DURATION_MS
  }

  /** The least time that `minimumEdges` edges `minimumIntervalMs` apart can span,
      computed as the firmware does with a uint32 count of intervals. */
  function MinimumSpan(periodic: PeriodicEdgesConfig): int {
    ((periodic.minimumEdges - 1) % WRAP) * periodic.minimumIntervalMs
  }

  predicate PeriodicRangesOk(periodic: PeriodicEdgesConfig) {
    && 0 < periodic.minimumIntervalMs <= periodic.maximumIntervalMs <= MAX_DURATION_MS
    && 2 <= periodic.minimumEdges <= MAX_EDGES_PER_INPUT
    && 0 < periodic.observationWindowMs <= MAX_DURATION_MS
    && periodic.maximumIntervalMs <= periodic.maximumGapMs <= MAX_DURATION_MS
  }

  predicate PeriodicOk(periodic: PeriodicEdgesConfig) {
    PeriodicRangesOk(periodic) && MinimumSpan(periodic) <= periodic.observationWindowMs
  }

  predicate LifecycleEmpty(m: MovementLifecycleConfig) {
    m.entryConfirmationMs == 0 && m.lossConfirmationMs == 0 && m.matchAgeLimitMs == 0 && m.expiry == NoExpiry
  }

  predicate LifecycleOk(output: RuleOutputConfig, m: MovementLifecycleConfig) {
    && (output.kind != Movement ==> LifecycleEmpty(m))
    && !m.expiry.OtherExpiry?
    && m.entryConfirmationMs <= MAX_DURATION_MS
    && m.lossConfirmationMs <= MAX_DURATION_MS
    && m.matchAgeLimitMs <= MAX_DURATION_MS
    && (m.matchAgeLimitMs == 0 <==> m.expiry == NoExpiry)
  }

  ghost predicate CompiledPredicateOk(p: CompiledPredicate, inputCount: nat) {
    && p.input < inputCount
    && (p.kind == StableLevel || p.kind == PeriodicEdges)
    && (p.kind == StableLevel ==> StableOk(p.stable))
    && (p.kind == PeriodicEdges ==> PeriodicOk(p.periodic))
  }

  ghost predicate CompiledGroupOk(group: CompiledGroup, inputCount: nat) {
    && 1 <= |group.predicates| <= MAX_PREDICATES_PER_GROUP
    && forall p | 0 <= p < |group.predicates| :: CompiledPredicateOk(group.predicates[p], inputCount)
  }

  ghost predicate CompiledRuleOk(rule: CompiledRule, inputCount: nat) {
    && KnownOutput(rule.output)
    && LifecycleOk(rule.output, rule.movement)
    && 1 <= |rule.groups| <= MAX_GROUPS_PER_RULE
    && forall g | 0 <= g < |rule.groups| :: CompiledGroupOk(rule.groups[g], inputCount)
  }

  ghost predicate RulesOk(rules: seq<CompiledRule>, inputCount: nat) {
    forall r | 0 <= r < |rules| :: CompiledRuleOk(rules[r], inputCount)
  }

  /** `family` lists, in increasing order, exactly the rules of one output kind. */
  ghost predicate IsFamily(rules: seq<CompiledRule>, kind: RuleOutputKind, family: seq<nat>) {
    && (forall i, j | 0 <= i < j < |family| :: family[i] < family[j])
    && (forall i | 0 <= i < |family| :: family[i] < |rules| && rules[family[i]].output.kind == kind)
    && (forall r | 0 <= r < |rules| && rules[r].output.kind == kind :: r in family)
  }

  /** What a successful compilation guarantees about its tables. */
  ghost predicate CompiledOk(decoder: CompiledDecoder) {
    && 1 <= |decoder.inputIds| <= MAX_INPUTS
    && (forall i, j | 0 <= i < j < |decoder.inputIds| :: decoder.inputIds[i] != decoder.inputIds[j])
    && |decoder.rules| <= MAX_RULES
    && RulesOk(decoder.rules, |decoder.inputIds|)
    && (forall r, s | 0 <= r < s < |decoder.rules| :: decoder.rules[r].id != decoder.rules[s].id)
    && IsFamily(decoder.rules, Position, decoder.positionRules)
    && IsFamily(decoder.rules, Movement, decoder.movementRules)
    && IsFamily(decoder.rules, Fault, decoder.faultRules)
  }

  // ---- What the running decoder remembers ----

  /** One input. `edges` is the retained edge history, oldest first. */
  datatype InputView = InputView(valid: bool, level: bool, levelSince: int, lastEdgeAt: int, edges: seq<int>)

  datatype MovementRulePhase = Unmatched | EntryPending | Matched | LossPending | Expired

  datatype MovementRuleState = MovementRuleState(phase: MovementRulePhase, phaseSince: int, matchedSince: int)

  datatype DecoderHealth = GatheringEvidence | Healthy | AmbiguousPosition | AmbiguousMovement | MonitoringFailed

  datatype DecoderResult = DecoderResult(
    positionValid: bool, position: PositionValue, movementValid: bool, movement: MovementValue,
    obstructed: bool, movementWithdrawnByAge: bool, health: DecoderHealth, generation: Tick)

  datatype DecoderState = DecoderState(
    inputs: seq<InputView>, movementRules: seq<MovementRuleState>, result: DecoderResult, monitoringHealthy: bool)

  const INITIAL_RESULT :=
    DecoderResult(false, Opened, false, Stopped, false, false, GatheringEvidence, 0)

  const INITIAL_MOVEMENT := MovementRuleState(Unmatched, 0, 0)
  const INITIAL_INPUT := InputView(false, false, 0, 0, [])

  function InitialState(decoder: CompiledDecoder): DecoderState {
    DecoderState(seq(|decoder.inputIds|, i => INITIAL_INPUT), seq(|decoder.rules|, r => INITIAL_MOVEMENT),
                 INITIAL_RESULT, true)
  }

  ghost predicate StateShaped(decoder: CompiledDecoder, state: DecoderState) {
    |state.inputs| == |decoder.inputIds| && |state.movementRules| == |decoder.rules|
  }
}

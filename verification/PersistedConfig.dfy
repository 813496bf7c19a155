/** The packed record in which a configuration is stored, and its coding. Two records are equal
    exactly when their bytes are. */
module PersistedConfig {
  import opened Ticks
  import opened DecoderModel
  import opened AppConfigModel

  type Int8 = i: int | -128 <= i < 128

  const MAGIC: Tick := 0x4741_5445
  const LABEL_SIZE: nat := 33

  datatype PersistedV1 = PersistedV1(
    magic: Tick, schemaVersion: Tick, wifiSsid: Bytes, wifiPassword: Bytes, connectionDeadlineMs: Tick,
    apPassword: Bytes, apShutdownMs: Tick, displayName: Bytes, setupCode: Bytes, setupId: Bytes,
    relayGpio: Int8, relayActiveLevel: Byte, relayPulseMs: Tick, relayMinimumIntervalMs: Tick,
    sensorGpio: Int8, sensorActiveLevel: Byte, sensorPull: Byte, sensorDebounceMs: Tick,
    openingMs: Tick, closingMs: Tick, sensorReleaseTimeoutMs: Tick,
    adminSalt: Bytes, adminSaltLength: Byte, adminVerifier: Bytes, adminVerifierLength: Byte, pbkdf2Iterations: Tick)

  datatype PersistedV2 = PersistedV2(v1: PersistedV1, sensorActiveEndpoint: Byte, sensorEndpointStabilityMs: Tick)

  datatype PersistedOutput = PersistedOutput(gpio: Int8, activeLevel: Byte, pulseMs: Tick)
  datatype PersistedInput = PersistedInput(gpio: Int8, activeLevel: Byte, pull: Byte, debounceMs: Tick)

  datatype PersistedV3 = PersistedV3(
    commonAndSlotA: PersistedV2, operatorProfile: Byte, feedbackTopology: Byte,
    secondOutput: PersistedOutput, secondFeedback: PersistedInput)

  datatype PersistedDecoderInput = PersistedDecoderInput(id: Byte, inputLabel: Bytes, electrical: PersistedInput)

  datatype PersistedPredicate = PersistedPredicate(
    kind: Byte, inputId: Byte, stableLevel: Byte, stableHoldMs: Tick, minimumIntervalMs: Tick, maximumIntervalMs: Tick,
    minimumEdges: Byte, observationWindowMs: Tick, maximumGapMs: Tick)

  datatype PersistedGroup = PersistedGroup(predicateCount: Byte, predicates: seq<PersistedPredicate>)

  datatype PersistedRule = PersistedRule(
    id: Byte, ruleLabel: Bytes, enabled: Byte, outputKind: Byte, position: Byte, movement: Byte, fault: Byte,
    groupCount: Byte, groups: seq<PersistedGroup>, entryConfirmationMs: Tick, lossConfirmationMs: Tick,
    matchAgeLimitMs: Tick, matchAgeExpiry: Byte)

  datatype PersistedDecoder = PersistedDecoder(
    profile: Byte, inputCount: Byte, inputs: seq<PersistedDecoderInput>, ruleInputCount: Byte, ruleInputIds: seq<Byte>,
    ruleCount: Byte, rules: seq<PersistedRule>)

  datatype PersistedV4 = PersistedV4(v3: PersistedV3, decoder: PersistedDecoder)

  // ---- Array sizes ----

  ghost predicate V1Shaped(p: PersistedV1) {
    && |p.wifiSsid| == 33 && |p.wifiPassword| == 64 && |p.apPassword| == 64 && |p.displayName| == 65
    && |p.setupCode| == 9 && |p.setupId| == 5 && |p.adminSalt| == 32 && |p.adminVerifier| == 64
  }

  ghost predicate RuleRecordShaped(rule: PersistedRule) {
    && |rule.ruleLabel| == LABEL_SIZE && |rule.groups| == MAX_GROUPS_PER_RULE
    && forall g | 0 <= g < MAX_GROUPS_PER_RULE :: |rule.groups[g].predicates| == MAX_PREDICATES_PER_GROUP
  }

  ghost predicate DecoderRecordShaped(d: PersistedDecoder) {
    && |d.inputs| == MAX_INPUTS && (forall i | 0 <= i < MAX_INPUTS :: |d.inputs[i].inputLabel| == LABEL_SIZE)
    && |d.ruleInputIds| == MAX_INPUTS
    && |d.rules| == MAX_RULES && (forall r | 0 <= r < MAX_RULES :: RuleRecordShaped(d.rules[r]))
  }

  ghost predicate Shaped(p: PersistedV4) {
    V1Shaped(p.v3.commonAndSlotA.v1) && DecoderRecordShaped(p.decoder)
  }

  // ---- What value-initialised records hold ----

  function Zeros(n: nat): Bytes {
    seq(n, i => 0)
  }

  const ZERO_OUTPUT := PersistedOutput(0, 0, 0)
  const ZERO_INPUT := PersistedInput(0, 0, 0, 0)
  const ZERO_DECODER_INPUT := PersistedDecoderInput(0, Zeros(LABEL_SIZE), ZERO_INPUT)
  const ZERO_PREDICATE := PersistedPredicate(0, 0, 0, 0, 0, 0, 0, 0, 0)
  const ZERO_GROUP := PersistedGroup(0, seq(MAX_PREDICATES_PER_GROUP, p => ZERO_PREDICATE))
  const ZERO_RULE :=
    PersistedRule(0, Zeros(LABEL_SIZE), 0, 0, 0, 0, 0, 0, seq(MAX_GROUPS_PER_RULE, g => ZERO_GROUP), 0, 0, 0, 0)

  /** A record that holds nothing but its profile. */
  function EmptyDecoder(profile: DecoderProfile): PersistedDecoder {
    PersistedDecoder(DecoderProfileCode(profile), 0, seq(MAX_INPUTS, i => ZERO_DECODER_INPUT), 0, Zeros(MAX_INPUTS), 0,
                     seq(MAX_RULES, r => ZERO_RULE))
  }

  const DEFAULT_OUTPUT := PulseOutputConfig(-1, LowLevel, 500)
  const DEFAULT_INPUT := FeedbackInputConfig(-1, LowLevel, PullUp, 50)
  const DEFAULT_DECODER_INPUT := DecoderInputConfig(0, [], DEFAULT_INPUT)
  const DEFAULT_PREDICATE :=
    PredicateConfig(StableLevel, 0, StableLevelConfig(false, 0), PeriodicEdgesConfig(0, 0, 0, 0, 0))
  const DEFAULT_GROUP := PredicateGroupConfig(seq(MAX_PREDICATES_PER_GROUP, p => DEFAULT_PREDICATE), 0)
  const DEFAULT_RULE_OUTPUT := RuleOutputConfig(Position, Opened, Opening, Obstructed)
  const DEFAULT_RULE :=
    RuleConfig(0, false, DEFAULT_RULE_OUTPUT, seq(MAX_GROUPS_PER_RULE, g => DEFAULT_GROUP), 0,
               MovementLifecycleConfig(0, 0, 0, NoExpiry))

  // ---- Strings, flags, pins ----

  /** Zero-padded, cut to leave room for at least one zero. */
  function CopyString(size: nat, source: Bytes): (stored: Bytes)
    requires size > 0
    ensures |stored| == size
  {
    if |source| < size then source + Zeros(size - |source|) else source[..size - 1] + [0]
  }

  /** The bytes before the first zero. */
  function ReadString(stored: Bytes): (text: Bytes)
    ensures |text| <= |stored| && NulFree(text)
  {
    if stored == [] || stored[0] == 0 then [] else [stored[0]] + ReadString(stored[1..])
  }

  predicate NulFree(text: Bytes) {
    forall i | 0 <= i < |text| :: text[i] != 0
  }

  function Flag(value: bool): Byte {
    if value then 1 else 0
  }

  /** The conversion to `int8_t`. */
  function ToInt8(gpio: int): Int8 {
    (gpio + 128) % 256 - 128
  }

  // ---- Enumerations ----

  function LevelCode(level: ActiveLevel): Byte {
    match level case LowLevel => 0 case HighLevel => 1 case OtherLevel(code) => code
  }

  function LevelOf(code: Byte): ActiveLevel {
    if code == 0 then LowLevel else if code == 1 then HighLevel else OtherLevel(code)
  }

  function PullCode(pull: SensorPull): Byte {
    match pull case NoPull => 0 case PullUp => 1 case PullDown => 2 case OtherPull(code) => code
  }

  function PullOf(code: Byte): SensorPull {
    if code == 0 then NoPull else if code == 1 then PullUp else if code == 2 then PullDown else OtherPull(code)
  }

  function EndpointCode(endpoint: FeedbackEndpoint): Byte {
    match endpoint case OpenEndpoint => 0 case ClosedEndpoint => 1 case OtherEndpoint(code) => code
  }

  function EndpointOf(code: Byte): FeedbackEndpoint {
    if code == 0 then OpenEndpoint else if code == 1 then ClosedEndpoint else OtherEndpoint(code)
  }

  function ProfileCode(profile: OperatorProfile): Byte {
    match profile case Sequential => 0 case Directional => 1 case OtherProfile(code) => code
  }

  function ProfileOf(code: Byte): OperatorProfile {
    if code == 0 then Sequential else if code == 1 then Directional else OtherProfile(code)
  }

  function TopologyCode(topology: FeedbackTopology): Byte {
    match topology case SingleFeedback => 0 case DualFeedback => 1 case OtherTopology(code) => code
  }

  function TopologyOf(code: Byte): FeedbackTopology {
    if code == 0 then SingleFeedback else if code == 1 then DualFeedback else OtherTopology(code)
  }

  function DecoderProfileCode(profile: DecoderProfile): Byte {
    match profile case EndpointPreset => 0 case CustomRules => 1 case OtherDecoder(code) => code
  }

  function DecoderProfileOf(code: Byte): DecoderProfile {
    if code == 0 then EndpointPreset else if code == 1 then CustomRules else OtherDecoder(code)
  }

  function KindCode(kind: PredicateKind): Byte {
    match kind case StableLevel => 0 case PeriodicEdges => 1 case OtherPredicate(code) => code
  }

  function KindOf(code: Byte): PredicateKind {
    if code == 0 then StableLevel else if code == 1 then PeriodicEdges else OtherPredicate(code)
  }

  function OutputKindCode(kind: RuleOutputKind): Byte {
    match kind case Position => 0 case Movement => 1 case Fault => 2 case OtherOutput(code) => code
  }

  function OutputKindOf(code: Byte): RuleOutputKind {
    if code == 0 then Position else if code == 1 then Movement else if code == 2 then Fault else OtherOutput(code)
  }

  function PositionCode(position: PositionValue): Byte {
    match position case Opened => 0 case Closed => 1 case OtherPosition(code) => code
  }

  function PositionOf(code: Byte): PositionValue {
    if code == 0 then Opened else if code == 1 then Closed else OtherPosition(code)
  }

  function MovementCode(movement: MovementValue): Byte {
    match movement case Opening => 0 case Closing => 1 case Stopped => 2 case OtherMovement(code) => code
  }

  function MovementOf(code: Byte): MovementValue {
    if code == 0 then Opening else if code == 1 then Closing else if code == 2 then Stopped else OtherMovement(code)
  }

  function FaultCode(fault: FaultValue): Byte {
    match fault case Obstructed => 0 case OtherFault(code) => code
  }

  function FaultOf(code: Byte): FaultValue {
    if code == 0 then Obstructed else OtherFault(code)
  }

  function ExpiryCode(expiry: MatchAgeExpiry): Byte {
    match expiry
    case NoExpiry => 0 case UnknownExpiry => 1 case ObstructedExpiry => 2 case UnknownAndObstructedExpiry => 3
    case OtherExpiry(code) => code
  }

  function ExpiryOf(code: Byte): MatchAgeExpiry {
    if code == 0 then NoExpiry else if code == 1 then UnknownExpiry else if code == 2 then ObstructedExpiry
    else if code == 3 then UnknownAndObstructedExpiry else OtherExpiry(code)
  }

  // ---- Encoding ----

  function EncodedInput(input: FeedbackInputConfig): PersistedInput {
    PersistedInput(ToInt8(input.gpio), LevelCode(input.activeLevel), PullCode(input.pull), input.debounceMs)
  }

  function EncodedOutput(output: PulseOutputConfig): PersistedOutput {
    PersistedOutput(ToInt8(output.gpio), LevelCode(output.activeLevel), output.pulseMs)
  }

  function EncodedDecoderInput(input: DecoderInputConfig): PersistedDecoderInput {
    PersistedDecoderInput(input.id, CopyString(LABEL_SIZE, input.inputLabel), EncodedInput(input.electrical))
  }

  function EncodedPredicate(p: PredicateConfig): PersistedPredicate {
    PersistedPredicate(KindCode(p.kind), p.inputId, Flag(p.stable.level), p.stable.holdMs, p.periodic.minimumIntervalMs,
                       p.periodic.maximumIntervalMs, p.periodic.minimumEdges, p.periodic.observationWindowMs,
                       p.periodic.maximumGapMs)
  }

  /** The counts lie within their arrays, without which the loops would leave them. */
  ghost predicate GroupFits(group: PredicateGroupConfig) {
    |group.predicates| == MAX_PREDICATES_PER_GROUP && group.predicateCount <= MAX_PREDICATES_PER_GROUP
  }

  ghost predicate RuleFits(rule: RuleConfig) {
    && RuleShaped(rule) && rule.groupCount <= MAX_GROUPS_PER_RULE
    && forall g | 0 <= g < rule.groupCount :: GroupFits(rule.groups[g])
  }

  ghost predicate DecoderFits(decoder: FeedbackDecoderConfig) {
    && |decoder.inputs| == MAX_INPUTS && |decoder.ruleLabels| == MAX_RULES && decoder.rules.WellShaped()
    && decoder.inputCount <= MAX_INPUTS && decoder.rules.inputCount <= MAX_INPUTS
        && decoder.rules.ruleCount <= MAX_RULES
    && forall r | 0 <= r < decoder.rules.ruleCount :: RuleFits(decoder.rules.rules[r])
  }

  ghost function EncodedGroup(group: PredicateGroupConfig): PersistedGroup
    requires GroupFits(group)
  {
    PersistedGroup(group.predicateCount, seq(MAX_PREDICATES_PER_GROUP, p requires 0 <= p < MAX_PREDICATES_PER_GROUP =>
      if p < group.predicateCount then EncodedPredicate(group.predicates[p]) else ZERO_PREDICATE))
  }

  ghost function EncodedRule(rule: RuleConfig, text: Bytes): PersistedRule
    requires RuleFits(rule)
  {
    PersistedRule(
      rule.id, CopyString(LABEL_SIZE, text), Flag(rule.enabled), OutputKindCode(rule.output.kind),
      PositionCode(rule.output.position), MovementCode(rule.output.movement), FaultCode(rule.output.fault),
      rule.groupCount,
      seq(MAX_GROUPS_PER_RULE, g requires 0 <= g < MAX_GROUPS_PER_RULE =>
        if g < rule.groupCount then EncodedGroup(rule.groups[g]) else ZERO_GROUP),
      rule.movement.entryConfirmationMs, rule.movement.lossConfirmationMs, rule.movement.matchAgeLimitMs,
      ExpiryCode(rule.movement.expiry))
  }

  ghost function EncodedDecoder(source: FeedbackDecoderConfig): PersistedDecoder
    requires DecoderFits(source)
  {
    PersistedDecoder(
      DecoderProfileCode(source.profile), source.inputCount,
      seq(MAX_INPUTS, i requires 0 <= i < MAX_INPUTS =>
        if i < source.inputCount then EncodedDecoderInput(source.inputs[i]) else ZERO_DECODER_INPUT),
      source.rules.inputCount,
      seq(MAX_INPUTS, i requires 0 <= i < MAX_INPUTS =>
        if i < source.rules.inputCount then source.rules.inputIds[i] else 0),
      source.rules.ruleCount,
      seq(MAX_RULES, r requires 0 <= r < MAX_RULES =>
        if r < source.rules.ruleCount then EncodedRule(source.rules.rules[r], source.ruleLabels[r]) else ZERO_RULE))
  }

  function FirstOutput(operator: OperatorConfig): PulseOutputConfig {
    if operator.profile.Sequential? then operator.step else operator.open
  }

  function FirstInput(operator: OperatorConfig): FeedbackInputConfig {
    if operator.feedbackTopology.SingleFeedback? then operator.singleFeedback else operator.openedFeedback
  }

  /** The record `save` stores. */
  ghost function Encoded(config: AppConfig): PersistedV4
    requires DecoderFits(config.gateOperator.decoder)
    requires |config.admin.salt| <= 32 && |config.admin.passwordVerifier| <= 64
  {
    var operator := config.gateOperator;
    var (output, input) := (EncodedOutput(FirstOutput(operator)), EncodedInput(FirstInput(operator)));
    PersistedV4(
      PersistedV3(
        PersistedV2(
          PersistedV1(
            MAGIC, SCHEMA_VERSION, CopyString(33, config.wifi.ssid), CopyString(64, config.wifi.password),
            config.wifi.connectionDeadlineMs, CopyString(64, config.accessPoint.password),
            config.accessPoint.stableStationShutdownMs, CopyString(65, config.homekit.displayName),
            CopyString(9, config.homekit.setupCode), CopyString(5, config.homekit.setupId),
            output.gpio, output.activeLevel, output.pulseMs, operator.minimumIntervalMs,
            input.gpio, input.activeLevel, input.pull, input.debounceMs,
            config.timing.openingMs, config.timing.closingMs, config.timing.sensorReleaseTimeoutMs,
            config.admin.salt + Zeros(32 - |config.admin.salt|), |config.admin.salt|,
            config.admin.passwordVerifier + Zeros(64 - |config.admin.passwordVerifier|),
            |config.admin.passwordVerifier|,
            config.admin.pbkdf2Iterations),
          EndpointCode(operator.singleActiveEndpoint), operator.endpointStabilityMs),
        ProfileCode(operator.profile), TopologyCode(operator.feedbackTopology),
        EncodedOutput(operator.close), EncodedInput(operator.closedFeedback)),
      EncodedDecoder(operator.decoder))
  }

  // ---- Decoding ----

  function DecodedInput(input: PersistedInput): FeedbackInputConfig {
    FeedbackInputConfig(input.gpio, LevelOf(input.activeLevel), PullOf(input.pull), input.debounceMs)
  }

  function DecodedOutput(output: PersistedOutput): PulseOutputConfig {
    PulseOutputConfig(output.gpio, LevelOf(output.activeLevel), output.pulseMs)
  }

  function DecodedDecoderInput(input: PersistedDecoderInput): DecoderInputConfig {
    DecoderInputConfig(input.id, ReadString(input.inputLabel), DecodedInput(input.electrical))
  }

  function DecodedPredicate(p: PersistedPredicate): PredicateConfig {
    PredicateConfig(KindOf(p.kind), p.inputId, StableLevelConfig(p.stableLevel != 0, p.stableHoldMs),
                    PeriodicEdgesConfig(p.minimumIntervalMs, p.maximumIntervalMs, p.minimumEdges, p.observationWindowMs,
                                        p.maximumGapMs))
  }

  ghost predicate RecordGroupFits(group: PersistedGroup) {
    |group.predicates| == MAX_PREDICATES_PER_GROUP && group.predicateCount <= MAX_PREDICATES_PER_GROUP
  }

  ghost predicate RecordRuleFits(rule: PersistedRule) {
    && RuleRecordShaped(rule) && rule.groupCount <= MAX_GROUPS_PER_RULE
    && forall g | 0 <= g < rule.groupCount :: RecordGroupFits(rule.groups[g])
  }

  /** The counts that `decode_decoder` refuses when they exceed their arrays. */
  ghost predicate RecordFits(d: PersistedDecoder) {
    && DecoderRecordShaped(d)
    && d.inputCount <= MAX_INPUTS && d.ruleInputCount <= MAX_INPUTS && d.ruleCount <= MAX_RULES
    && forall r | 0 <= r < d.ruleCount :: RecordRuleFits(d.rules[r])
  }

  ghost function DecodedGroup(group: PersistedGroup): PredicateGroupConfig
    requires RecordGroupFits(group)
  {
    PredicateGroupConfig(seq(MAX_PREDICATES_PER_GROUP, p requires 0 <= p < MAX_PREDICATES_PER_GROUP =>
      if p < group.predicateCount then DecodedPredicate(group.predicates[p]) else DEFAULT_PREDICATE),
      group.predicateCount)
  }

  ghost function DecodedRule(rule: PersistedRule): RuleConfig
    requires RecordRuleFits(rule)
  {
    RuleConfig(
      rule.id, rule.enabled != 0,
      RuleOutputConfig(OutputKindOf(rule.outputKind), PositionOf(rule.position), MovementOf(rule.movement),
                       FaultOf(rule.fault)),
      seq(MAX_GROUPS_PER_RULE, g requires 0 <= g < MAX_GROUPS_PER_RULE =>
        if g < rule.groupCount then DecodedGroup(rule.groups[g]) else DEFAULT_GROUP),
      rule.groupCount,
      MovementLifecycleConfig(rule.entryConfirmationMs, rule.lossConfirmationMs, rule.matchAgeLimitMs,
                              ExpiryOf(rule.matchAgeExpiry)))
  }

  ghost function DecodedDecoder(d: PersistedDecoder): FeedbackDecoderConfig
    requires RecordFits(d)
  {
    FeedbackDecoderConfig(
      DecoderProfileOf(d.profile),
      seq(MAX_INPUTS, i requires 0 <= i < MAX_INPUTS =>
        if i < d.inputCount then DecodedDecoderInput(d.inputs[i]) else DEFAULT_DECODER_INPUT),
      d.inputCount,
      DecoderConfig(
        seq(MAX_INPUTS, i requires 0 <= i < MAX_INPUTS => if i < d.ruleInputCount then d.ruleInputIds[i] else 0),
        d.ruleInputCount,
        seq(MAX_RULES, r requires 0 <= r < MAX_RULES =>
          if r < d.ruleCount then DecodedRule(d.rules[r]) else DEFAULT_RULE),
        d.ruleCount),
      seq(MAX_RULES, r requires 0 <= r < MAX_RULES => if r < d.ruleCount then ReadString(d.rules[r].ruleLabel) else []))
  }

  /** The configuration `load` reads from a record, before it validates it. */
  ghost function Decoded(p: PersistedV4): (config: AppConfig)
    requires Shaped(p) && RecordFits(p.decoder)
    requires p.v3.commonAndSlotA.v1.adminSaltLength <= 32 && p.v3.commonAndSlotA.v1.adminVerifierLength <= 64
  {
    var (v3, v2, v1) := (p.v3, p.v3.commonAndSlotA, p.v3.commonAndSlotA.v1);
    var (profile, topology) := (ProfileOf(v3.operatorProfile), TopologyOf(v3.feedbackTopology));
    var output := DecodedOutput(PersistedOutput(v1.relayGpio, v1.relayActiveLevel, v1.relayPulseMs));
    var input := DecodedInput(PersistedInput(v1.sensorGpio, v1.sensorActiveLevel, v1.sensorPull, v1.sensorDebounceMs));
    AppConfig(
      SCHEMA_VERSION,
      WifiConfig(ReadString(v1.wifiSsid), ReadString(v1.wifiPassword), v1.connectionDeadlineMs),
      AccessPointConfig(ReadString(v1.apPassword), v1.apShutdownMs),
      HomeKitConfig(ReadString(v1.displayName), ReadString(v1.setupCode), ReadString(v1.setupId)),
      OperatorConfig(
        profile,
        if profile.Sequential? then output else DEFAULT_OUTPUT,
        if profile.Sequential? then DEFAULT_OUTPUT else output,
        DecodedOutput(v3.secondOutput),
        v1.relayMinimumIntervalMs, topology, EndpointOf(v2.sensorActiveEndpoint),
        if topology.SingleFeedback? then input else DEFAULT_INPUT,
        if topology.SingleFeedback? then DEFAULT_INPUT else input,
        DecodedInput(v3.secondFeedback),
        v2.sensorEndpointStabilityMs,
        DecodedDecoder(p.decoder)),
      TimingConfig(v1.openingMs, v1.closingMs, v1.sensorReleaseTimeoutMs),
      AdminConfig(v1.adminSalt[..v1.adminSaltLength], v1.adminVerifier[..v1.adminVerifierLength], v1.pbkdf2Iterations))
  }
}

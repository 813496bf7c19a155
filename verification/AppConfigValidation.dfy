/** What a configuration must satisfy before it is stored or used. */
module AppConfigValidation {
  import opened Ticks
  import opened DecoderModel
  import opened AppConfigModel
  import opened DecoderCompiler

  predicate IsDigit(c: Byte) {
    '0' as int <= c <= '9' as int
  }

  predicate IsUpper(c: Byte) {
    'A' as int <= c <= 'Z' as int
  }

  /** Eight digits that are not all the same, and neither of the two obvious runs. */
  predicate IsValidSetupCode(code: Bytes) {
    && |code| == 8
    && (forall i | 0 <= i < 8 :: IsDigit(code[i]))
    && (exists i | 0 < i < 8 :: code[i] != code[0])
    && !(forall i | 0 <= i < 8 :: code[i] == '1' as int + i)
    && !(forall i | 0 <= i < 8 :: code[i] == '8' as int - i)
  }

  predicate IsValidSetupId(id: Bytes) {
    |id| == 4 && forall i | 0 <= i < 4 :: IsDigit(id[i]) || IsUpper(id[i])
  }

  /** The array sizes the record type fixes; the counts may still be anything. */
  ghost predicate WellShaped(decoder: FeedbackDecoderConfig) {
    |decoder.inputs| == MAX_INPUTS && |decoder.ruleLabels| == MAX_RULES && decoder.rules.WellShaped()
  }

  /** What the loops over custom rules need so as to stay inside their arrays. */
  ghost predicate LoopsInBounds(decoder: FeedbackDecoderConfig) {
    decoder.profile.CustomRules? ==>
      && decoder.rules.ruleCount <= MAX_RULES
      && (decoder.rules.inputCount == decoder.inputCount ==> decoder.inputCount <= MAX_INPUTS)
  }

  /** The feedback inputs the configuration uses. */
  function Inputs(operator: OperatorConfig): (inputs: seq<FeedbackInputConfig>)
    requires |operator.decoder.inputs| == MAX_INPUTS
    ensures |inputs| <= MAX_INPUTS
  {
    if operator.decoder.profile.EndpointPreset? then
      match operator.feedbackTopology
      case SingleFeedback => [operator.singleFeedback]
      case DualFeedback => [operator.openedFeedback, operator.closedFeedback]
      case OtherTopology(_) => []
    else if operator.decoder.profile.CustomRules? && operator.decoder.inputCount <= MAX_INPUTS then
      seq(operator.decoder.inputCount, i requires 0 <= i < operator.decoder.inputCount =>
            operator.decoder.inputs[i].electrical)
    else []
  }

  predicate LabelOk(text: Bytes) {
    1 <= |text| <= 32
  }

  ghost predicate DecoderOk(decoder: FeedbackDecoderConfig)
    requires WellShaped(decoder)
  {
    var rules := decoder.rules;
    && decoder.inputCount <= MAX_INPUTS
    && (forall i | 0 <= i < decoder.inputCount :: LabelOk(decoder.inputs[i].inputLabel))
    && rules.ruleCount <= MAX_RULES
    && (forall r | 0 <= r < rules.ruleCount :: LabelOk(decoder.ruleLabels[r]))
    && rules.inputCount == decoder.inputCount
    && (forall i | 0 <= i < rules.inputCount :: rules.inputIds[i] == decoder.inputs[i].id)
    && ((rules.inputCount == 0 && rules.ruleCount == 0) || Accepts(rules))
  }

  ghost predicate FeedbackOk(operator: OperatorConfig)
    requires WellShaped(operator.decoder)
  {
    match operator.decoder.profile
    case EndpointPreset => !operator.feedbackTopology.OtherTopology? && 1000 <= operator.endpointStabilityMs <= 10000
    case CustomRules => DecoderOk(operator.decoder)
    case OtherDecoder(_) => false
  }

  predicate InputOk(input: FeedbackInputConfig) {
    IsSafeGpio(input.gpio, false) && 10 <= input.debounceMs <= 500 && (input.gpio >= 34 ==> input.pull == NoPull)
  }

  ghost predicate PinsDistinct(outputs: seq<PulseOutputConfig>, inputs: seq<FeedbackInputConfig>) {
    && (forall i, j | 0 <= i < j < |outputs| :: outputs[i].gpio != outputs[j].gpio)
    && (forall i, j | 0 <= i < j < |inputs| :: inputs[i].gpio != inputs[j].gpio)
    && (forall i, j | 0 <= i < |outputs| && 0 <= j < |inputs| :: outputs[i].gpio != inputs[j].gpio)
  }

  predicate WifiOk(config: AppConfig) {
    && config.schemaVersion == SCHEMA_VERSION
    && 1 <= |config.wifi.ssid| <= 32 && |config.wifi.password| <= 63
    && 10000 <= config.wifi.connectionDeadlineMs <= 180000
  }

  predicate AccessoryOk(config: AppConfig) {
    && (config.accessPoint.password == [] || 8 <= |config.accessPoint.password| <= 63)
    && 1 <= |config.homekit.displayName| <= 64
    && IsValidSetupCode(config.homekit.setupCode) && IsValidSetupId(config.homekit.setupId)
  }

  predicate NetworkOk(config: AppConfig) {
    WifiOk(config) && AccessoryOk(config)
  }

  predicate AdminOk(config: AppConfig) {
    && 1000 <= config.timing.sensorReleaseTimeoutMs <= 15000
    && 16 <= |config.admin.salt| <= 32 && 32 <= |config.admin.passwordVerifier| <= 64
    && config.admin.pbkdf2Iterations >= 50000
  }

  /** A configuration with no validation error. */
  ghost predicate Validates(config: AppConfig)
    requires WellShaped(config.gateOperator.decoder)
  {
    var operator := config.gateOperator;
    && NetworkOk(config)
    && ActuatorsOk(operator, config.timing)
    && FeedbackOk(operator)
    && (forall i | 0 <= i < |Inputs(operator)| :: InputOk(Inputs(operator)[i]))
    && PinsDistinct(Outputs(operator), Inputs(operator))
    && AdminOk(config)
  }

  // ---- What is reported ----

  /** An error names a field and what is wrong with it. */
  datatype ValidationError = ValidationError(field: string, code: string)

  ghost predicate NetworkError(config: AppConfig, e: ValidationError) {
    WifiError(config, e) || AccessoryError(config, e)
  }

  ghost predicate WifiError(config: AppConfig, e: ValidationError) {
    || (e == ValidationError("schemaVersion", "unsupported") && config.schemaVersion != SCHEMA_VERSION)
    || (e == ValidationError("wifi.ssid", "length") && !(1 <= |config.wifi.ssid| <= 32))
    || (e == ValidationError("wifi.password", "length") && |config.wifi.password| > 63)
    || (e == ValidationError("wifi.connectionDeadlineMs", "range")
        && !(10000 <= config.wifi.connectionDeadlineMs <= 180000))
  }

  ghost predicate AccessoryError(config: AppConfig, e: ValidationError) {
    || (e == ValidationError("accessPoint.password", "length")
        && config.accessPoint.password != [] && !(8 <= |config.accessPoint.password| <= 63))
    || (e == ValidationError("homekit.displayName", "length") && !(1 <= |config.homekit.displayName| <= 64))
    || (e == ValidationError("homekit.setupCode", "format") && !IsValidSetupCode(config.homekit.setupCode))
    || (e == ValidationError("homekit.setupId", "format") && !IsValidSetupId(config.homekit.setupId))
  }

  ghost predicate IdsAgree(decoder: FeedbackDecoderConfig)
    requires WellShaped(decoder)
  {
    && decoder.rules.inputCount == decoder.inputCount <= MAX_INPUTS
    && forall i | 0 <= i < decoder.rules.inputCount :: decoder.rules.inputIds[i] == decoder.inputs[i].id
  }

  ghost predicate InputLabelsOk(decoder: FeedbackDecoderConfig)
    requires WellShaped(decoder)
  {
    decoder.inputCount <= MAX_INPUTS ==>
      forall i | 0 <= i < decoder.inputCount :: LabelOk(decoder.inputs[i].inputLabel)
  }

  ghost predicate RuleLabelsOk(decoder: FeedbackDecoderConfig)
    requires WellShaped(decoder) && decoder.rules.ruleCount <= MAX_RULES
  {
    forall r | 0 <= r < decoder.rules.ruleCount :: LabelOk(decoder.ruleLabels[r])
  }

  ghost predicate DecoderError(decoder: FeedbackDecoderConfig, e: ValidationError)
    requires WellShaped(decoder) && decoder.rules.ruleCount <= MAX_RULES
  {
    || (e == ValidationError("operator.decoder.inputs", "count") && decoder.inputCount > MAX_INPUTS)
    || (e == ValidationError("operator.decoder.inputs.label", "length") && !InputLabelsOk(decoder))
    || (e == ValidationError("operator.decoder.rules.label", "length") && !RuleLabelsOk(decoder))
    || (e == ValidationError("operator.decoder.rules.inputIds", "mismatch") && !IdsAgree(decoder))
    || (e == ValidationError("operator.decoder.rules", "invalid") && IdsAgree(decoder)
        && !(decoder.rules.inputCount == decoder.rules.ruleCount == 0) && !Accepts(decoder.rules))
  }

  ghost predicate FeedbackError(operator: OperatorConfig, e: ValidationError)
    requires WellShaped(operator.decoder) && LoopsInBounds(operator.decoder)
  {
    match operator.decoder.profile
    case EndpointPreset =>
      || (e == ValidationError("operator.feedback.mode", "unsupported") && operator.feedbackTopology.OtherTopology?)
      || (e == ValidationError("operator.feedback.stabilityMs", "range")
          && !(1000 <= operator.endpointStabilityMs <= 10000))
    case CustomRules => DecoderError(operator.decoder, e)
    case OtherDecoder(_) => e == ValidationError("operator.decoder.profile", "unsupported")
  }

  /** The names under which the outputs and inputs in use are reported. */
  function OutputFields(operator: OperatorConfig): (fields: seq<string>)
    ensures |fields| == |Outputs(operator)|
  {
    match operator.profile
    case Sequential => ["operator.actuators.step"]
    case Directional => ["operator.actuators.open", "operator.actuators.close"]
    case OtherProfile(_) => []
  }

  function InputFields(operator: OperatorConfig): (fields: seq<string>)
    requires |operator.decoder.inputs| == MAX_INPUTS
    ensures |fields| == |Inputs(operator)|
  {
    if operator.decoder.profile.EndpointPreset? then
      match operator.feedbackTopology
      case SingleFeedback => ["operator.feedback.single"]
      case DualFeedback => ["operator.feedback.opened", "operator.feedback.closed"]
      case OtherTopology(_) => []
    else seq(|Inputs(operator)|, i => "operator.decoder.inputs")
  }

  predicate OutputError(output: PulseOutputConfig, field: string, e: ValidationError) {
    || (e == ValidationError(field + ".gpio", "unsafe") && !IsSafeGpio(output.gpio, true))
    || (e == ValidationError(field + ".pulseMs", "range") && !(100 <= output.pulseMs <= 2000))
  }

  predicate InputError(input: FeedbackInputConfig, field: string, e: ValidationError) {
    || (e == ValidationError(field + ".gpio", "unsafe") && !IsSafeGpio(input.gpio, false))
    || (e == ValidationError(field + ".debounceMs", "range") && !(10 <= input.debounceMs <= 500))
    || (e == ValidationError(field + ".pull", "unsupported") && input.gpio >= 34 && input.pull != NoPull)
  }

  /** A pin that is used is used again by the field named. */
  predicate CollisionError(left: int, right: int, field: string, e: ValidationError) {
    left >= 0 && left == right && e == ValidationError(field + ".gpio", "collision")
  }

  ghost predicate OutputRowError(outputs: seq<PulseOutputConfig>, outputFields: seq<string>,
      inputs: seq<FeedbackInputConfig>, inputFields: seq<string>, left: nat, e: ValidationError)
    requires |outputFields| == |outputs| && |inputFields| == |inputs| && left < |outputs|
  {
    || (exists j | left < j < |outputs| :: CollisionError(outputs[left].gpio, outputs[j].gpio, outputFields[j], e))
    || (exists j | 0 <= j < |inputs| :: CollisionError(outputs[left].gpio, inputs[j].gpio, inputFields[j], e))
  }

  ghost predicate InputRowError(inputs: seq<FeedbackInputConfig>, inputFields: seq<string>, left: nat,
      e: ValidationError)
    requires |inputFields| == |inputs| && left < |inputs|
  {
    exists j | left < j < |inputs| :: CollisionError(inputs[left].gpio, inputs[j].gpio, inputFields[j], e)
  }

  ghost predicate PinError(outputs: seq<PulseOutputConfig>, outputFields: seq<string>,
      inputs: seq<FeedbackInputConfig>, inputFields: seq<string>, e: ValidationError)
    requires |outputFields| == |outputs| && |inputFields| == |inputs|
  {
    || (exists i | 0 <= i < |outputs| :: OutputRowError(outputs, outputFields, inputs, inputFields, i, e))
    || (exists i | 0 <= i < |inputs| :: InputRowError(inputs, inputFields, i, e))
  }

  ghost predicate OperatorError(operator: OperatorConfig, e: ValidationError) {
    || (e == ValidationError("operator.profile", "unsupported") && operator.profile.OtherProfile?)
    || (e == ValidationError("operator.minimumIntervalMs", "range")
        && !(500 <= operator.minimumIntervalMs <= 10000))
  }

  ghost predicate TimingError(config: AppConfig, e: ValidationError) {
    || (e == ValidationError("timing.travelMs", "range")
        && !(3000 <= config.timing.openingMs <= 180000 && 3000 <= config.timing.closingMs <= 180000))
    || (e == ValidationError("timing.sensorReleaseTimeoutMs", "range")
        && !(1000 <= config.timing.sensorReleaseTimeoutMs <= 15000))
    || (e == ValidationError("admin.password", "missing")
        && !(16 <= |config.admin.salt| <= 32 && 32 <= |config.admin.passwordVerifier| <= 64))
    || (e == ValidationError("admin.pbkdf2Iterations", "weak") && config.admin.pbkdf2Iterations < 50000)
  }

  /** Every error a configuration deserves. */
  ghost predicate Deserved(config: AppConfig, e: ValidationError)
    requires WellShaped(config.gateOperator.decoder) && LoopsInBounds(config.gateOperator.decoder)
  {
    var operator := config.gateOperator;
    var (outputs, inputs) := (Outputs(operator), Inputs(operator));
    var (outputFields, inputFields) := (OutputFields(operator), InputFields(operator));
    || NetworkError(config, e) || OperatorError(operator, e) || FeedbackError(operator, e)
    || TimingError(config, e)
    || (exists i | 0 <= i < |outputs| :: OutputError(outputs[i], outputFields[i], e))
    || (exists i | 0 <= i < |inputs| :: InputError(inputs[i], inputFields[i], e))
    || PinError(outputs, outputFields, inputs, inputFields, e)
  }
}

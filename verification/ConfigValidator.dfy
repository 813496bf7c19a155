/** The validation the firmware runs: it collects every error it finds. */
module ConfigValidator {
  import opened Ticks
  import opened DecoderModel
  import opened AppConfigModel
  import opened AppConfigValidation
  import DecoderCompiler

  type Errors = seq<ValidationError>

  method Check(ok: bool, errors: Errors, field: string, code: string) returns (extended: Errors)
    ensures extended == [] <==> errors == [] && ok
    ensures forall e :: e in extended <==> e in errors || (!ok && e == ValidationError(field, code))
  {
    extended := if ok then errors else errors + [ValidationError(field, code)];
  }

  const FORBIDDEN_PINS: seq<int> := [0, 1, 3, 6, 7, 8, 9, 10, 11, 12, 20]

  method CheckPin(gpio: int, output: bool) returns (safe: bool)
    ensures safe == IsSafeGpio(gpio, output)
  {
    if gpio < 0 || gpio > 39 { return false; }
    for i := 0 to |FORBIDDEN_PINS|
      invariant gpio !in FORBIDDEN_PINS[..i]
    {
      if FORBIDDEN_PINS[i] == gpio { return false; }
    }
    assert gpio !in FORBIDDEN_PINS;
    return !output || gpio < 34;
  }

  // ---- Pairing codes ----

  const OBVIOUS_CODES: seq<string> :=
    ["00000000", "11111111", "22222222", "33333333", "44444444", "55555555", "66666666", "77777777", "88888888",
     "99999999", "12345678", "87654321"]

  predicate Spells(code: Bytes, text: string) {
    |code| == |text| && forall i | 0 <= i < |code| :: code[i] == text[i] as int
  }

  method CheckSetupCode(code: Bytes) returns (valid: bool)
    ensures valid == IsValidSetupCode(code)
  {
    if |code| != 8 { return false; }
    for i := 0 to 8
      invariant forall k | 0 <= k < i :: IsDigit(code[k])
    {
      if code[i] < 48 || code[i] > 57 { return false; }
    }
    for i := 0 to |OBVIOUS_CODES|
      invariant forall k | 0 <= k < i :: !Spells(code, OBVIOUS_CODES[k])
    {
      if Spells(code, OBVIOUS_CODES[i]) {
        ListedIsObvious(code, i);
        return false;
      }
    }
    if !IsValidSetupCode(code) {
      ObviousIsListed(code);
    }
    return true;
  }

  /** The twelve listed codes are the eight equal digits and the two runs. */
  lemma ListedIsObvious(code: Bytes, k: nat)
    requires k < |OBVIOUS_CODES| && Spells(code, OBVIOUS_CODES[k])
    ensures !IsValidSetupCode(code)
  {
    if k < 10 {
      forall i | 0 <= i < 8 ensures code[i] == '0' as int + k {
        EqualDigits(k, i);
      }
    } else {
      assert forall i | 0 <= i < 8 :: OBVIOUS_CODES[10][i] as int == '1' as int + i;
      assert forall i | 0 <= i < 8 :: OBVIOUS_CODES[11][i] as int == '8' as int - i;
    }
  }

  lemma EqualDigits(k: nat, i: nat)
    requires k < 10 && i < 8
    ensures |OBVIOUS_CODES[k]| == 8 && OBVIOUS_CODES[k][i] as int == '0' as int + k
  {
  }

  lemma ObviousIsListed(code: Bytes)
    requires |code| == 8 && (forall i | 0 <= i < 8 :: IsDigit(code[i])) && !IsValidSetupCode(code)
    ensures exists k | 0 <= k < |OBVIOUS_CODES| :: Spells(code, OBVIOUS_CODES[k])
  {
    if forall i | 0 <= i < 8 :: code[i] == '1' as int + i {
      assert Spells(code, OBVIOUS_CODES[10]);
    } else if forall i | 0 <= i < 8 :: code[i] == '8' as int - i {
      assert Spells(code, OBVIOUS_CODES[11]);
    } else {
      var k := code[0] - '0' as int;
      assert |OBVIOUS_CODES[k]| == 8 by {
        EqualDigits(k, 0);
      }
      forall i | 0 <= i < 8 ensures code[i] == OBVIOUS_CODES[k][i] as int {
        EqualDigits(k, i);
      }
      assert Spells(code, OBVIOUS_CODES[k]);
    }
  }

  method CheckSetupId(id: Bytes) returns (valid: bool)
    ensures valid == IsValidSetupId(id)
  {
    if |id| != 4 { return false; }
    for i := 0 to 4
      invariant forall k | 0 <= k < i :: IsDigit(id[k]) || IsUpper(id[k])
    {
      if !(48 <= id[i] <= 57) && !(65 <= id[i] <= 90) { return false; }
    }
    return true;
  }

  // ---- Section by section ----

  method CheckNetwork(config: AppConfig) returns (errors: Errors)
    ensures errors == [] <==> NetworkOk(config)
    ensures forall e :: e in errors <==> NetworkError(config, e)
  {
    hide IsValidSetupCode, IsValidSetupId, WifiError, AccessoryError;
    errors := CheckWifi(config);
    errors := CheckAccessory(config, errors);
  }

  method CheckWifi(config: AppConfig) returns (errors: Errors)
    ensures errors == [] <==> WifiOk(config)
    ensures forall e :: e in errors <==> WifiError(config, e)
  {
    errors := Check(config.schemaVersion == SCHEMA_VERSION, [], "schemaVersion", "unsupported");
    errors := Check(config.wifi.ssid != [] && |config.wifi.ssid| <= 32, errors, "wifi.ssid", "length");
    errors := Check(|config.wifi.password| <= 63, errors, "wifi.password", "length");
    errors := Check(InRange(config.wifi.connectionDeadlineMs, 10000, 180000), errors, "wifi.connectionDeadlineMs",
                    "range");
  }

  method CheckAccessory(config: AppConfig, errors: Errors) returns (extended: Errors)
    ensures extended == [] <==> errors == [] && AccessoryOk(config)
    ensures forall e :: e in extended <==> e in errors || AccessoryError(config, e)
  {
    hide IsValidSetupCode, IsValidSetupId;
    extended := Check(config.accessPoint.password == [] || 8 <= |config.accessPoint.password| <= 63, errors,
                      "accessPoint.password", "length");
    extended := Check(config.homekit.displayName != [] && |config.homekit.displayName| <= 64, extended,
                      "homekit.displayName", "length");
    var codeOk := CheckSetupCode(config.homekit.setupCode);
    extended := Check(codeOk, extended, "homekit.setupCode", "format");
    var idOk := CheckSetupId(config.homekit.setupId);
    extended := Check(idOk, extended, "homekit.setupId", "format");
  }

  method CheckInputLabels(decoder: FeedbackDecoderConfig, errors: Errors) returns (extended: Errors)
    requires WellShaped(decoder)
    ensures extended == [] <==> errors == [] && decoder.inputCount <= MAX_INPUTS && InputLabelsOk(decoder)
    ensures forall e :: e in extended <==>
                        || e in errors
                        || (e == ValidationError("operator.decoder.inputs", "count") && decoder.inputCount > MAX_INPUTS)
                        || (e == ValidationError("operator.decoder.inputs.label", "length") && !InputLabelsOk(decoder))
  {
    extended := errors;
    if decoder.inputCount > MAX_INPUTS {
      extended := Check(false, extended, "operator.decoder.inputs", "count");
      return;
    }
    var allOk := true;
    for i := 0 to decoder.inputCount
      invariant allOk == forall k | 0 <= k < i :: LabelOk(decoder.inputs[k].inputLabel)
      invariant extended == [] <==> errors == [] && allOk
      invariant forall e :: e in extended <==>
                            e in errors
                            || (!allOk && e == ValidationError("operator.decoder.inputs.label", "length"))
    {
      var label_ := decoder.inputs[i].inputLabel;
      var ok := label_ != [] && |label_| <= 32;
      extended := Check(ok, extended, "operator.decoder.inputs.label", "length");
      allOk := allOk && ok;
    }
  }

  method CheckRuleLabels(decoder: FeedbackDecoderConfig, errors: Errors) returns (extended: Errors)
    requires WellShaped(decoder) && decoder.rules.ruleCount <= MAX_RULES
    ensures extended == [] <==> errors == [] && RuleLabelsOk(decoder)
    ensures forall e :: e in extended <==>
                        || e in errors
                        || (e == ValidationError("operator.decoder.rules.label", "length") && !RuleLabelsOk(decoder))
  {
    extended := errors;
    var allOk := true;
    for r := 0 to decoder.rules.ruleCount
      invariant allOk == forall k | 0 <= k < r :: LabelOk(decoder.ruleLabels[k])
      invariant extended == [] <==> errors == [] && allOk
      invariant forall e :: e in extended <==>
                            e in errors
                            || (!allOk && e == ValidationError("operator.decoder.rules.label", "length"))
    {
      var label_ := decoder.ruleLabels[r];
      var ok := label_ != [] && |label_| <= 32;
      extended := Check(ok, extended, "operator.decoder.rules.label", "length");
      allOk := allOk && ok;
    }
  }

  method IdsMatch(decoder: FeedbackDecoderConfig) returns (match_: bool)
    requires WellShaped(decoder)
    requires decoder.rules.inputCount == decoder.inputCount ==> decoder.inputCount <= MAX_INPUTS
    ensures match_ <==> IdsAgree(decoder)
  {
    match_ := decoder.rules.inputCount == decoder.inputCount;
    if match_ {
      for i := 0 to decoder.rules.inputCount
        invariant forall k | 0 <= k < i :: decoder.rules.inputIds[k] == decoder.inputs[k].id
      {
        if decoder.rules.inputIds[i] != decoder.inputs[i].id { return false; }
      }
    }
  }

  /** Custom rules: labels, ids, and a trial compilation. */
  method CheckDecoder(decoder: FeedbackDecoderConfig, errors: Errors) returns (extended: Errors)
    requires WellShaped(decoder) && decoder.profile.CustomRules? && LoopsInBounds(decoder)
    ensures extended == [] <==> errors == [] && DecoderOk(decoder)
    ensures forall e :: e in extended <==> e in errors || DecoderError(decoder, e)
  {
    hide DecoderCompiler.Accepts, LabelOk;
    extended := CheckInputLabels(decoder, errors);
    extended := CheckRuleLabels(decoder, extended);
    var matches := IdsMatch(decoder);
    if !matches {
      extended := Check(false, extended, "operator.decoder.rules.inputIds", "mismatch");
    } else if decoder.rules.inputCount != 0 || decoder.rules.ruleCount != 0 {
      var compiled := DecoderCompiler.Compile(decoder.rules);
      extended := Check(compiled.Ok?, extended, "operator.decoder.rules", "invalid");
    }
  }

  method CheckFeedback(operator: OperatorConfig, errors: Errors) returns (extended: Errors)
    requires WellShaped(operator.decoder) && LoopsInBounds(operator.decoder)
    ensures extended == [] <==> errors == [] && FeedbackOk(operator)
    ensures forall e :: e in extended <==> e in errors || FeedbackError(operator, e)
  {
    hide DecoderOk, DecoderError;
    extended := errors;
    match operator.decoder.profile {
      case EndpointPreset =>
        extended := Check(!operator.feedbackTopology.OtherTopology?, extended, "operator.feedback.mode", "unsupported");
        extended := Check(InRange(operator.endpointStabilityMs, 1000, 10000), extended,
                          "operator.feedback.stabilityMs", "range");
      case CustomRules =>
        extended := CheckDecoder(operator.decoder, extended);
      case OtherDecoder(_) =>
        extended := Check(false, extended, "operator.decoder.profile", "unsupported");
    }
  }

  /** The outputs in use, with the names they are reported under. */
  method CollectOutputs(operator: OperatorConfig) returns (outputs: seq<PulseOutputConfig>, fields: seq<string>)
    ensures outputs == Outputs(operator) && fields == OutputFields(operator)
  {
    outputs, fields := [], [];
    if operator.profile == Sequential {
      outputs, fields := outputs + [operator.step], fields + ["operator.actuators.step"];
    } else if operator.profile == Directional {
      outputs, fields := outputs + [operator.open], fields + ["operator.actuators.open"];
      outputs, fields := outputs + [operator.close], fields + ["operator.actuators.close"];
    }
  }

  method CollectInputs(operator: OperatorConfig) returns (inputs: seq<FeedbackInputConfig>, fields: seq<string>)
    requires |operator.decoder.inputs| == MAX_INPUTS
    ensures inputs == Inputs(operator) && fields == InputFields(operator)
  {
    inputs, fields := [], [];
    if operator.decoder.profile == EndpointPreset {
      if operator.feedbackTopology == SingleFeedback {
        inputs, fields := inputs + [operator.singleFeedback], fields + ["operator.feedback.single"];
      } else if operator.feedbackTopology == DualFeedback {
        inputs, fields := inputs + [operator.openedFeedback], fields + ["operator.feedback.opened"];
        inputs, fields := inputs + [operator.closedFeedback], fields + ["operator.feedback.closed"];
      }
    } else if operator.decoder.profile == CustomRules && operator.decoder.inputCount <= MAX_INPUTS {
      for i := 0 to operator.decoder.inputCount
        invariant |inputs| == |fields| == i
        invariant forall k | 0 <= k < i :: inputs[k] == operator.decoder.inputs[k].electrical
        invariant forall k | 0 <= k < i :: fields[k] == "operator.decoder.inputs"
      {
        inputs, fields := inputs + [operator.decoder.inputs[i].electrical], fields + ["operator.decoder.inputs"];
      }
    }
  }

  method CheckOutputs(outputs: seq<PulseOutputConfig>, fields: seq<string>, errors: Errors) returns (extended: Errors)
    requires |fields| == |outputs|
    ensures extended == [] <==>
            && errors == []
            && forall i | 0 <= i < |outputs| ::
                 IsSafeGpio(outputs[i].gpio, true) && InRange(outputs[i].pulseMs, 100, 2000)
    ensures forall e :: e in extended <==>
                        e in errors || exists i | 0 <= i < |outputs| :: OutputError(outputs[i], fields[i], e)
  {
    hide IsSafeGpio;
    extended := errors;
    for i := 0 to |outputs|
      invariant extended == [] <==>
                && errors == []
                && forall k | 0 <= k < i ::
                     IsSafeGpio(outputs[k].gpio, true) && InRange(outputs[k].pulseMs, 100, 2000)
      invariant forall e :: e in extended <==>
                            e in errors || exists k | 0 <= k < i :: OutputError(outputs[k], fields[k], e)
    {
      var safe := CheckPin(outputs[i].gpio, true);
      extended := Check(safe, extended, fields[i] + ".gpio", "unsafe");
      extended := Check(InRange(outputs[i].pulseMs, 100, 2000), extended, fields[i] + ".pulseMs", "range");
    }
  }

  method CheckInputs(inputs: seq<FeedbackInputConfig>, fields: seq<string>, errors: Errors) returns (extended: Errors)
    requires |fields| == |inputs|
    ensures extended == [] <==> errors == [] && forall i | 0 <= i < |inputs| :: InputOk(inputs[i])
    ensures forall e :: e in extended <==>
                        e in errors || exists i | 0 <= i < |inputs| :: InputError(inputs[i], fields[i], e)
  {
    hide IsSafeGpio;
    extended := errors;
    for i := 0 to |inputs|
      invariant extended == [] <==> errors == [] && forall k | 0 <= k < i :: InputOk(inputs[k])
      invariant forall e :: e in extended <==>
                            e in errors || exists k | 0 <= k < i :: InputError(inputs[k], fields[k], e)
    {
      var safe := CheckPin(inputs[i].gpio, false);
      extended := Check(safe, extended, fields[i] + ".gpio", "unsafe");
      extended := Check(InRange(inputs[i].debounceMs, 10, 500), extended, fields[i] + ".debounceMs", "range");
      extended := Check(inputs[i].gpio < 34 || inputs[i].pull == NoPull, extended, fields[i] + ".pull", "unsupported");
    }
  }

  // ---- Collisions ----

  ghost predicate RowClear(outputs: seq<PulseOutputConfig>, inputs: seq<FeedbackInputConfig>, i: nat)
    requires i < |outputs|
  {
    && (forall j | i < j < |outputs| :: outputs[i].gpio != outputs[j].gpio)
    && (forall j | 0 <= j < |inputs| :: outputs[i].gpio != inputs[j].gpio)
  }

  ghost predicate InputRowClear(inputs: seq<FeedbackInputConfig>, i: nat)
    requires i < |inputs|
  {
    forall j | i < j < |inputs| :: inputs[i].gpio != inputs[j].gpio
  }

  /** No two used pins collide; a negative pin collides with none, but has been refused already. */
  method CheckCollisions(outputs: seq<PulseOutputConfig>, outputFields: seq<string>, inputs: seq<FeedbackInputConfig>,
      inputFields: seq<string>, errors: Errors) returns (extended: Errors)
    requires |outputFields| == |outputs| && |inputFields| == |inputs|
    requires errors == [] ==> forall i | 0 <= i < |outputs| :: outputs[i].gpio >= 0
    requires errors == [] ==> forall i | 0 <= i < |inputs| :: inputs[i].gpio >= 0
    ensures extended == [] <==> errors == [] && PinsDistinct(outputs, inputs)
    ensures forall e :: e in extended <==> e in errors || PinError(outputs, outputFields, inputs, inputFields, e)
  {
    hide OutputRowError, InputRowError;
    extended := errors;
    for i := 0 to |outputs|
      invariant extended == [] <==> errors == [] && forall k | 0 <= k < i :: RowClear(outputs, inputs, k)
      invariant forall e :: e in extended <==>
                            e in errors
                            || exists k | 0 <= k < i :: OutputRowError(outputs, outputFields, inputs, inputFields, k, e)
    {
      extended := CheckRow(outputs, outputFields, inputs, inputFields, i, extended);
    }
    ghost var rows := extended;
    for i := 0 to |inputs|
      invariant extended == [] <==>
                && errors == [] && (forall k | 0 <= k < |outputs| :: RowClear(outputs, inputs, k))
                && forall k | 0 <= k < i :: InputRowClear(inputs, k)
      invariant forall e :: e in extended <==>
                            e in rows || exists k | 0 <= k < i :: InputRowError(inputs, inputFields, k, e)
    {
      extended := CheckInputRow(inputs, inputFields, i, extended);
    }
    RowsArePins(outputs, inputs);
    hide RowClear, InputRowClear, PinsDistinct;
  }

  lemma RowsArePins(outputs: seq<PulseOutputConfig>, inputs: seq<FeedbackInputConfig>)
    ensures (forall k | 0 <= k < |outputs| :: RowClear(outputs, inputs, k))
            && (forall k | 0 <= k < |inputs| :: InputRowClear(inputs, k))
            <==> PinsDistinct(outputs, inputs)
  {
    if (forall k | 0 <= k < |outputs| :: RowClear(outputs, inputs, k))
       && (forall k | 0 <= k < |inputs| :: InputRowClear(inputs, k)) {
      forall i, j | 0 <= i < j < |outputs| ensures outputs[i].gpio != outputs[j].gpio {
        assert RowClear(outputs, inputs, i);
      }
      forall i, j | 0 <= i < j < |inputs| ensures inputs[i].gpio != inputs[j].gpio {
        assert InputRowClear(inputs, i);
      }
      forall i, j | 0 <= i < |outputs| && 0 <= j < |inputs| ensures outputs[i].gpio != inputs[j].gpio {
        assert RowClear(outputs, inputs, i);
      }
    }
  }

  method CheckRow(outputs: seq<PulseOutputConfig>, outputFields: seq<string>, inputs: seq<FeedbackInputConfig>,
      inputFields: seq<string>, left: nat, errors: Errors) returns (extended: Errors)
    requires |outputFields| == |outputs| && |inputFields| == |inputs|
    requires left < |outputs| && (errors == [] ==> outputs[left].gpio >= 0)
    ensures extended == [] <==> errors == [] && RowClear(outputs, inputs, left)
    ensures forall e :: e in extended <==>
                        e in errors || OutputRowError(outputs, outputFields, inputs, inputFields, left, e)
  {
    extended := errors;
    for right := left + 1 to |outputs|
      invariant extended == [] <==> errors == [] && forall j | left < j < right :: outputs[left].gpio != outputs[j].gpio
      invariant forall e :: e in extended <==>
                            e in errors
                            || exists j | left < j < right ::
                                 CollisionError(outputs[left].gpio, outputs[j].gpio, outputFields[j], e)
    {
      extended := Check(outputs[left].gpio < 0 || outputs[left].gpio != outputs[right].gpio, extended,
                        outputFields[right] + ".gpio", "collision");
    }
    ghost var first := extended;
    for input := 0 to |inputs|
      invariant extended == [] <==>
                && errors == [] && (forall j | left < j < |outputs| :: outputs[left].gpio != outputs[j].gpio)
                && forall j | 0 <= j < input :: outputs[left].gpio != inputs[j].gpio
      invariant forall e :: e in extended <==>
                            e in first
                            || exists j | 0 <= j < input ::
                                 CollisionError(outputs[left].gpio, inputs[j].gpio, inputFields[j], e)
    {
      extended := Check(outputs[left].gpio < 0 || outputs[left].gpio != inputs[input].gpio, extended,
                        inputFields[input] + ".gpio", "collision");
    }
  }

  method CheckInputRow(inputs: seq<FeedbackInputConfig>, inputFields: seq<string>, left: nat, errors: Errors)
    returns (extended: Errors)
    requires |inputFields| == |inputs|
    requires left < |inputs| && (errors == [] ==> inputs[left].gpio >= 0)
    ensures extended == [] <==> errors == [] && InputRowClear(inputs, left)
    ensures forall e :: e in extended <==> e in errors || InputRowError(inputs, inputFields, left, e)
  {
    extended := errors;
    for right := left + 1 to |inputs|
      invariant extended == [] <==> errors == [] && forall j | left < j < right :: inputs[left].gpio != inputs[j].gpio
      invariant forall e :: e in extended <==>
                            e in errors
                            || exists j | left < j < right ::
                                 CollisionError(inputs[left].gpio, inputs[j].gpio, inputFields[j], e)
    {
      extended := Check(inputs[left].gpio < 0 || inputs[left].gpio != inputs[right].gpio, extended,
                        inputFields[right] + ".gpio", "collision");
    }
  }

  // ---- The whole ----

  method CheckOperator(operator: OperatorConfig, errors: Errors) returns (extended: Errors)
    ensures extended == [] <==>
            errors == [] && !operator.profile.OtherProfile? && InRange(operator.minimumIntervalMs, 500, 10000)
    ensures forall e :: e in extended <==> e in errors || OperatorError(operator, e)
  {
    extended := Check(operator.profile == Sequential || operator.profile == Directional, errors, "operator.profile",
                      "unsupported");
    extended := Check(InRange(operator.minimumIntervalMs, 500, 10000), extended, "operator.minimumIntervalMs", "range");
  }

  predicate TravelOk(timing: TimingConfig) {
    InRange(timing.openingMs, 3000, 180000) && InRange(timing.closingMs, 3000, 180000)
  }

  method CheckTiming(config: AppConfig, errors: Errors) returns (extended: Errors)
    ensures extended == [] <==> errors == [] && TravelOk(config.timing) && AdminOk(config)
    ensures forall e :: e in extended <==> e in errors || TimingError(config, e)
  {
    extended := Check(InRange(config.timing.openingMs, 3000, 180000) && InRange(config.timing.closingMs, 3000, 180000),
                      errors, "timing.travelMs", "range");
    extended := Check(InRange(config.timing.sensorReleaseTimeoutMs, 1000, 15000), extended,
                      "timing.sensorReleaseTimeoutMs", "range");
    extended := Check(16 <= |config.admin.salt| <= 32 && 32 <= |config.admin.passwordVerifier| <= 64, extended,
                      "admin.password", "missing");
    extended := Check(config.admin.pbkdf2Iterations >= 50000, extended, "admin.pbkdf2Iterations", "weak");
  }

  /** No error exactly for a valid configuration; and otherwise exactly the errors it deserves. */
  method Validate(config: AppConfig) returns (errors: Errors)
    requires WellShaped(config.gateOperator.decoder) && LoopsInBounds(config.gateOperator.decoder)
    ensures errors == [] <==> Validates(config)
    ensures forall e :: e in errors <==> Deserved(config, e)
  {
    hide NetworkOk, FeedbackOk, InputOk, PinsDistinct, WellShaped, IsSafeGpio, NetworkError, FeedbackError, OutputError,
      InputError, PinError, OperatorError, TimingError, AdminOk, LoopsInBounds, Outputs, Inputs;
    var operator := config.gateOperator;
    ShapedInputs(operator.decoder);
    var outputs, outputFields := CollectOutputs(operator);
    var inputs, inputFields := CollectInputs(operator);
    errors := CheckNetwork(config);
    errors := CheckOperator(operator, errors);
    errors := CheckFeedback(operator, errors);
    errors := CheckOutputs(outputs, outputFields, errors);
    errors := CheckInputs(inputs, inputFields, errors);
    SafePinsArePins(outputs, inputs);
    errors := CheckCollisions(outputs, outputFields, inputs, inputFields, errors);
    errors := CheckTiming(config, errors);
    DistinctOutputs(outputs, inputs);
  }

  lemma ShapedInputs(decoder: FeedbackDecoderConfig)
    requires WellShaped(decoder)
    ensures |decoder.inputs| == MAX_INPUTS
  {
  }

  lemma SafePinsArePins(outputs: seq<PulseOutputConfig>, inputs: seq<FeedbackInputConfig>)
    ensures (forall i | 0 <= i < |outputs| :: IsSafeGpio(outputs[i].gpio, true)) ==>
              forall i | 0 <= i < |outputs| :: outputs[i].gpio >= 0
    ensures (forall i | 0 <= i < |inputs| :: InputOk(inputs[i])) ==> forall i | 0 <= i < |inputs| :: inputs[i].gpio >= 0
  {
  }

  lemma DistinctOutputs(outputs: seq<PulseOutputConfig>, inputs: seq<FeedbackInputConfig>)
    ensures PinsDistinct(outputs, inputs) ==> forall i, j | 0 <= i < j < |outputs| :: outputs[i].gpio != outputs[j].gpio
  {
  }
}

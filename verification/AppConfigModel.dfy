/** The installer's configuration, field by field. Strings are byte strings, as in the firmware. */
module AppConfigModel {
  import opened Ticks
  import opened DecoderModel

  type Bytes = seq<Byte>

  const SCHEMA_VERSION: Tick := 4

  // Enumerations are single bytes; an `Other...` value is a byte that names no enumerator.
  datatype ActiveLevel = LowLevel | HighLevel | OtherLevel(code: Byte)
  datatype SensorPull = NoPull | PullUp | PullDown | OtherPull(code: Byte)
  datatype FeedbackEndpoint = OpenEndpoint | ClosedEndpoint | OtherEndpoint(code: Byte)
  datatype OperatorProfile = Sequential | Directional | OtherProfile(code: Byte)
  datatype FeedbackTopology = SingleFeedback | DualFeedback | OtherTopology(code: Byte)
  datatype DecoderProfile = EndpointPreset | CustomRules | OtherDecoder(code: Byte)

  datatype WifiConfig = WifiConfig(ssid: Bytes, password: Bytes, connectionDeadlineMs: Duration)
  datatype AccessPointConfig = AccessPointConfig(password: Bytes, stableStationShutdownMs: Duration)
  datatype HomeKitConfig = HomeKitConfig(displayName: Bytes, setupCode: Bytes, setupId: Bytes)
  datatype PulseOutputConfig = PulseOutputConfig(gpio: int, activeLevel: ActiveLevel, pulseMs: Duration)
  datatype FeedbackInputConfig =
    FeedbackInputConfig(gpio: int, activeLevel: ActiveLevel, pull: SensorPull, debounceMs: Duration)
  datatype DecoderInputConfig = DecoderInputConfig(id: Byte, inputLabel: Bytes, electrical: FeedbackInputConfig)

  datatype FeedbackDecoderConfig = FeedbackDecoderConfig(
    profile: DecoderProfile, inputs: seq<DecoderInputConfig>, inputCount: Byte, rules: DecoderConfig,
    ruleLabels: seq<Bytes>)

  datatype OperatorConfig = OperatorConfig(
    profile: OperatorProfile, step: PulseOutputConfig, open: PulseOutputConfig, close: PulseOutputConfig,
    minimumIntervalMs: Duration, feedbackTopology: FeedbackTopology, singleActiveEndpoint: FeedbackEndpoint,
    singleFeedback: FeedbackInputConfig, openedFeedback: FeedbackInputConfig, closedFeedback: FeedbackInputConfig,
    endpointStabilityMs: Duration, decoder: FeedbackDecoderConfig)

  datatype TimingConfig = TimingConfig(openingMs: Duration, closingMs: Duration, sensorReleaseTimeoutMs: Duration)
  datatype AdminConfig = AdminConfig(salt: Bytes, passwordVerifier: Bytes, pbkdf2Iterations: Duration)

  datatype AppConfig = AppConfig(
    schemaVersion: Tick, wifi: WifiConfig, accessPoint: AccessPointConfig, homekit: HomeKitConfig,
    gateOperator: OperatorConfig, timing: TimingConfig, admin: AdminConfig)

  predicate InRange(value: int, minimum: int, maximum: int) {
    minimum <= value <= maximum
  }

  /** Pins 0, 1, 3, 6-12 and 20 are spoken for; 34-39 have no output driver. */
  predicate IsSafeGpio(gpio: int, output: bool) {
    0 <= gpio <= 39 && gpio !in {0, 1, 3, 6, 7, 8, 9, 10, 11, 12, 20} && (output ==> gpio < 34)
  }

  /** The outputs the operator profile drives. */
  function Outputs(operator: OperatorConfig): (outputs: seq<PulseOutputConfig>)
    ensures |outputs| <= 2
  {
    match operator.profile
    case Sequential => [operator.step]
    case Directional => [operator.open, operator.close]
    case OtherProfile(_) => []
  }

  /** What validation demands of the outputs, the pulse spacing and the travel times. */
  ghost predicate ActuatorsOk(operator: OperatorConfig, timing: TimingConfig) {
    var outputs := Outputs(operator);
    && !operator.profile.OtherProfile?
    && (forall i | 0 <= i < |outputs| :: IsSafeGpio(outputs[i].gpio, true) && 100 <= outputs[i].pulseMs <= 2000)
    && (forall i, j | 0 <= i < j < |outputs| :: outputs[i].gpio != outputs[j].gpio)
    && 500 <= operator.minimumIntervalMs <= 10000
    && 3000 <= timing.openingMs <= 180000
    && 3000 <= timing.closingMs <= 180000
  }
}
